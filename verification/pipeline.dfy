/**
  The whole build, as the program runs it: sort the objects, make a master
  node over all of them, split it recursively, then run the bounds pass from
  the master node. The object list and the tree are returned as one value
  instead of being kept in process-wide vectors.
 */
module Pipeline {
  import opened Geometry
  import opened Objects
  import opened Hierarchy
  import opened Bounds
  import opened Search

  /** The sorted object list (what the brute-force scan walks) and the root. */
  datatype Bvh = Bvh(gameObjects: seq<GameObject>, root: Tree)

  /** The tree the builder leaves before bounds are computed. */
  function MasterNode(sorted: seq<GameObject>): (t: Tree)
    requires |sorted| > 0
    ensures t.Node? && t.gameObjects == sorted
    ensures Partitioned(t) && MedianSplit(t) && NonEmptySlices(t) && DefaultBoxes(t)
  {
    var master := CreateNewNode(sorted);
    PartitionedNonEmpty(master);
    master
  }

  /** The bounds pass keeps the master node's slice and its split into a
      non-empty prefix and suffix at every internal node. */
  lemma PassKeepsShape(master: Tree)
    requires master.Node? && Partitioned(master) && NonEmptySlices(master)
    ensures CalculateNodeBounds(master).Node? && CalculateNodeBounds(master).gameObjects == master.gameObjects
    ensures Partitioned(CalculateNodeBounds(master))
  {
    CalculateNodeBoundsStep(master);
    SameSlicesKeepPartition(master, CalculateNodeBounds(master));
  }

  /** Builds the hierarchy: sort, split from a master node over the whole
      list, then run the bounds pass from the master node. The object list
      must be non-empty, because the bounds pass reads the master node's
      first object. */
  function CreateBVH(gameObjects: seq<GameObject>): (bvh: Bvh)
    requires |gameObjects| > 0
    ensures multiset(bvh.gameObjects) == multiset(gameObjects) && |bvh.gameObjects| == |gameObjects|
    ensures SortedByLeft(bvh.gameObjects)
    ensures bvh.root.Node? && bvh.root.gameObjects == bvh.gameObjects
    ensures Partitioned(bvh.root)
  {
    var sorted := OrganiseGameObjects(gameObjects);
    var master := MasterNode(sorted);
    PassKeepsShape(master);
    Bvh(sorted, CalculateNodeBounds(master))
  }

  /** Every internal node of the built tree splits its slice at index
      `size / 2`. */
  lemma BuiltTreeSplitsAtMedian(gameObjects: seq<GameObject>)
    requires |gameObjects| > 0
    ensures MedianSplit(CreateBVH(gameObjects).root)
  {
    var master := MasterNode(OrganiseGameObjects(gameObjects));
    SameSlicesKeepMedian(master, CalculateNodeBounds(master));
  }

  /** Every node of the built tree encloses its objects vertically. */
  lemma BuiltBoxesEncloseVertically(gameObjects: seq<GameObject>)
    requires |gameObjects| > 0
    ensures VerticallyEnclosing(CreateBVH(gameObjects).root)
  {
  }

  /** When right edges follow left edges, every node box of the built tree
      encloses the boxes of its objects. */
  lemma BuiltBoxesEnclose(gameObjects: seq<GameObject>)
    requires |gameObjects| > 0 && RightsFollowLefts(gameObjects)
    ensures BoxesEnclose(CreateBVH(gameObjects).root)
  {
    var sorted := OrganiseGameObjects(gameObjects);
    SortedRightsNonDecreasing(gameObjects, sorted);
    BoundsEncloseObjects(MasterNode(sorted));
  }

  /** Under the same condition, every child's box lies inside its parent's. */
  lemma BuiltBoxesNested(gameObjects: seq<GameObject>)
    requires |gameObjects| > 0 && RightsFollowLefts(gameObjects)
    ensures Nested(CreateBVH(gameObjects).root)
  {
    var sorted := OrganiseGameObjects(gameObjects);
    SortedRightsNonDecreasing(gameObjects, sorted);
    ChildBoxesInsideParent(MasterNode(sorted));
  }

  /** Search the tree, then check the objects of the recorded nodes. Every
      object found collides with the search rectangle. */
  function SearchBVH(bvh: Bvh, searchRect: Rect): (found: seq<GameObject>)
    ensures forall o :: o in found ==> BoxBoxCollision(searchRect, o.boundingBox)
  {
    CheckCollisionsWithinNodes(RecursiveSearchBVH(searchRect, bvh.root), searchRect)
  }

  /** Reading the leaves of the built tree in order gives back the sorted
      list, so every object is in exactly one leaf. Leaf sizes follow from
      `Partitioned` by `LeavesPartitionSlice`. */
  lemma BuiltLeavesPartitionObjects(gameObjects: seq<GameObject>)
    requires |gameObjects| > 0
    ensures Flatten(Leaves(CreateBVH(gameObjects).root)) == CreateBVH(gameObjects).gameObjects
  {
    LeavesPartitionSlice(CreateBVH(gameObjects).root);
  }

  /** When right edges follow left edges, the tree search returns exactly
      what the brute-force scan of the sorted list returns, in the same order. */
  lemma SearchBVHMatchesScan(gameObjects: seq<GameObject>, searchRect: Rect)
    requires |gameObjects| > 0 && RightsFollowLefts(gameObjects)
    ensures SearchBVH(CreateBVH(gameObjects), searchRect) == Hits(CreateBVH(gameObjects).gameObjects, searchRect)
  {
    BuiltBoxesEnclose(gameObjects);
    SearchMatchesScan(CreateBVH(gameObjects).root, searchRect);
  }

  /** Up to order, the tree search then finds what the scan of the list as
      given finds. */
  lemma SearchBVHFindsAllHits(gameObjects: seq<GameObject>, searchRect: Rect)
    requires |gameObjects| > 0 && RightsFollowLefts(gameObjects)
    ensures multiset(SearchBVH(CreateBVH(gameObjects), searchRect)) == multiset(Hits(gameObjects, searchRect))
  {
    SearchBVHMatchesScan(gameObjects, searchRect);
    HitsOfPermutation(CreateBVH(gameObjects).gameObjects, gameObjects, searchRect);
  }
}
