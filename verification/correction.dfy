/**
  The bounds pass takes a node's right edge from the last object of its
  slice. The slice is sorted by left edge only, so a wide object early in the
  slice can reach further right than the last one; its node's box then misses
  part of it and the search prunes objects the brute-force scan finds.

  This module exhibits that on three objects and gives the corrected pass,
  which takes the right edge as the largest right edge of the slice. With it
  the search agrees with the scan for every object list.
 */
module Correction {
  import opened Geometry
  import opened Objects
  import opened Hierarchy
  import opened Bounds
  import opened Search
  import opened Pipeline

  // The as-written pass on a concrete list.

  const WideA := GameObject("a", Rect(0, 0, 100, 10))
  const NarrowB := GameObject("b", Rect(10, 0, 5, 10))
  const NarrowC := GameObject("c", Rect(20, 0, 5, 10))

  /** Already sorted by left edge; the first object ends furthest right. */
  const Wide: seq<GameObject> := [WideA, NarrowB, NarrowC]

  /** A rectangle inside `WideA` but right of the other two. */
  const Probe := Rect(50, 0, 1, 1)

  lemma WideIsKeptInOrder()
    ensures OrganiseGameObjects(Wide) == Wide
  {
    assert Wide[1..] == [NarrowB, NarrowC];
    assert [NarrowB, NarrowC][1..] == [NarrowC];
    assert [NarrowC][1..] == [];
    assert OrganiseGameObjects([NarrowC]) == [NarrowC];
    assert OrganiseGameObjects([NarrowB, NarrowC]) == [NarrowB, NarrowC];
  }

  /** The scan finds `WideA` only. */
  lemma WideScan()
    ensures Hits(Wide, Probe) == [WideA]
  {
    HitsOfOne(WideA, Probe);
    HitsOfOne(NarrowB, Probe);
    HitsOfOne(NarrowC, Probe);
    HitsAppend([WideA], [NarrowB], Probe);
    assert [WideA] + [NarrowB] == [WideA, NarrowB];
    HitsAppend([WideA, NarrowB], [NarrowC], Probe);
    assert [WideA, NarrowB] + [NarrowC] == Wide;
  }

  /** The root box computed as written ends at the right edge of `NarrowC`
      and so misses the probe, which lies inside `WideA`. */
  lemma WideRootMissesProbe()
    ensures !BoxBoxCollision(Probe, CreateBVH(Wide).root.boundingBox)
  {
    WideIsKeptInOrder();
    var master := MasterNode(Wide);
    CalculateNodeBoundsStep(master);
    assert CreateBVH(Wide).root.boundingBox == NodeBounds(Wide, ZeroRect);
  }

  /** The scan finds `WideA`, but the search over the tree built as written
      returns nothing. */
  lemma AsWrittenMissesWideObject()
    ensures Hits(CreateBVH(Wide).gameObjects, Probe) == [WideA]
    ensures SearchBVH(CreateBVH(Wide), Probe) == []
  {
    WideIsKeptInOrder();
    WideScan();
    WideRootMissesProbe();
  }

  // The corrected pass.

  /** The largest right edge of a non-empty slice. */
  function MaxRight(objs: seq<GameObject>): (hi: int)
    requires |objs| > 0
    ensures forall i :: 0 <= i < |objs| ==> objs[i].boundingBox.Right() <= hi
    ensures exists i :: 0 <= i < |objs| && hi == objs[i].boundingBox.Right()
    decreases |objs|
  {
    if |objs| == 1 then objs[0].boundingBox.Right()
    else Max(objs[|objs| - 1].boundingBox.Right(), MaxRight(objs[..|objs| - 1]))
  }

  /** The box of one node with the right edge taken as the largest one. On a
      slice sorted by left edge it encloses every object, with no condition
      on the right edges. */
  function CorrectedNodeBounds(objs: seq<GameObject>, current: Rect): (r: Rect)
    requires |objs| > 0
    ensures r.left == objs[0].boundingBox.left
    ensures forall i :: 0 <= i < |objs| ==>
              && objs[i].boundingBox.Right() <= r.Right()
              && r.top <= objs[i].boundingBox.top && objs[i].boundingBox.Bottom() <= r.Bottom()
    ensures exists i :: 0 <= i < |objs| && r.Right() == objs[i].boundingBox.Right()
    ensures SortedByLeft(objs) ==> forall i :: 0 <= i < |objs| ==> Encloses(r, objs[i].boundingBox)
  {
    FromEdges(objs[0].boundingBox.left, MaxRight(objs),
              ScanTop(objs, current.top), ScanBottom(objs, current.top + current.height))
  }

  /** The corrected pass, parent before children; slices and shape are left alone. */
  function CorrectedCalculateNodeBounds(t: Tree): (r: Tree)
    requires NonEmptySlices(t)
    ensures SameSlices(t, r)
  {
    match t
    case Null => Null
    case Node(box, objs, a, b) =>
      Node(CorrectedNodeBounds(objs, box), objs, CorrectedCalculateNodeBounds(a), CorrectedCalculateNodeBounds(b))
  }

  /** One step of the corrected pass, spelled out. */
  lemma CorrectedStep(t: Tree)
    requires t.Node? && NonEmptySlices(t)
    ensures NonEmptySlices(t.childA) && NonEmptySlices(t.childB)
    ensures CorrectedCalculateNodeBounds(t)
            == Node(CorrectedNodeBounds(t.gameObjects, t.boundingBox), t.gameObjects,
                    CorrectedCalculateNodeBounds(t.childA), CorrectedCalculateNodeBounds(t.childB))
  {
  }

  /** After the corrected pass every box encloses its objects, whenever the
      root slice is sorted by left edge. */
  lemma {:induction false} CorrectedBoundsEncloseObjects(t: Tree)
    requires Partitioned(t) && NonEmptySlices(t) && SortedByLeft(t.gameObjects)
    ensures BoxesEnclose(CorrectedCalculateNodeBounds(t))
  {
    CorrectedStep(t);
    if |t.gameObjects| > LeafCapacity {
      SortedSlices(t.childA.gameObjects, t.childB.gameObjects);
      CorrectedBoundsEncloseObjects(t.childA);
      CorrectedBoundsEncloseObjects(t.childB);
    }
  }

  /** The corrected pass keeps the master node's shape. */
  lemma CorrectedPassKeepsShape(master: Tree)
    requires master.Node? && Partitioned(master) && NonEmptySlices(master)
    ensures CorrectedCalculateNodeBounds(master).Node?
    ensures CorrectedCalculateNodeBounds(master).gameObjects == master.gameObjects
    ensures Partitioned(CorrectedCalculateNodeBounds(master))
  {
    CorrectedStep(master);
    SameSlicesKeepPartition(master, CorrectedCalculateNodeBounds(master));
  }

  /** The build with the corrected pass. */
  function CorrectedCreateBVH(gameObjects: seq<GameObject>): (bvh: Bvh)
    requires |gameObjects| > 0
    ensures multiset(bvh.gameObjects) == multiset(gameObjects) && |bvh.gameObjects| == |gameObjects|
    ensures SortedByLeft(bvh.gameObjects)
    ensures bvh.root.Node? && bvh.root.gameObjects == bvh.gameObjects
    ensures Partitioned(bvh.root)
  {
    var sorted := OrganiseGameObjects(gameObjects);
    var master := MasterNode(sorted);
    CorrectedPassKeepsShape(master);
    Bvh(sorted, CorrectedCalculateNodeBounds(master))
  }

  /** Every box of the corrected tree encloses its objects, unconditionally. */
  lemma CorrectedBoxesEnclose(gameObjects: seq<GameObject>)
    requires |gameObjects| > 0
    ensures BoxesEnclose(CorrectedCreateBVH(gameObjects).root)
  {
    CorrectedBoundsEncloseObjects(MasterNode(OrganiseGameObjects(gameObjects)));
  }

  /** With the corrected pass the tree search returns exactly what the
      brute-force scan of the sorted list returns, in the same order, for
      every object list and every search rectangle. */
  lemma CorrectedSearchMatchesScan(gameObjects: seq<GameObject>, searchRect: Rect)
    requires |gameObjects| > 0
    ensures SearchBVH(CorrectedCreateBVH(gameObjects), searchRect)
            == Hits(CorrectedCreateBVH(gameObjects).gameObjects, searchRect)
  {
    CorrectedBoxesEnclose(gameObjects);
    SearchMatchesScan(CorrectedCreateBVH(gameObjects).root, searchRect);
  }

  /** Up to order, the corrected search finds the objects of the original
      list that the scan finds. */
  lemma CorrectedSearchFindsAllHits(gameObjects: seq<GameObject>, searchRect: Rect)
    requires |gameObjects| > 0
    ensures multiset(SearchBVH(CorrectedCreateBVH(gameObjects), searchRect))
            == multiset(Hits(gameObjects, searchRect))
  {
    CorrectedSearchMatchesScan(gameObjects, searchRect);
    HitsOfPermutation(CorrectedCreateBVH(gameObjects).gameObjects, gameObjects, searchRect);
  }

  /** On the list that defeats the as-written pass, the corrected search finds
      the wide object. */
  lemma CorrectedFindsWideObject()
    ensures SearchBVH(CorrectedCreateBVH(Wide), Probe) == [WideA]
  {
    WideIsKeptInOrder();
    WideScan();
    CorrectedSearchMatchesScan(Wide, Probe);
  }
}
