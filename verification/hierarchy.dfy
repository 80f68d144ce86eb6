/**
  The tree of the hierarchy and the recursive median-split builder. A node
  keeps the whole slice of objects it was given, internal nodes included;
  `Null` stands for an absent child.
 */
module Hierarchy {
  import opened Geometry
  import opened Objects

  /** A node holding at most this many objects is not split. */
  const LeafCapacity: nat := 2

  datatype Tree =
    | Null
    | Node(boundingBox: Rect, gameObjects: seq<GameObject>, childA: Tree, childB: Tree)

  /** The objects of a node, none for an absent one. */
  function Objs(t: Tree): seq<GameObject> {
    if t.Node? then t.gameObjects else []
  }

  /** Every internal node (more than `LeafCapacity` objects) has two present
      children whose slices are non-empty and, concatenated in childA-then-childB
      order, give the node's slice; every other node has no children. */
  ghost predicate Partitioned(t: Tree) {
    && t.Node?
    && if |t.gameObjects| <= LeafCapacity then
         t.childA.Null? && t.childB.Null?
       else
         && t.childA.Node? && t.childB.Node?
         && t.childA.gameObjects + t.childB.gameObjects == t.gameObjects
         && |t.childA.gameObjects| > 0 && |t.childB.gameObjects| > 0
         && Partitioned(t.childA) && Partitioned(t.childB)
  }

  /** Every internal node splits at the median index `size / 2`. */
  ghost predicate MedianSplit(t: Tree) {
    t.Node? ==>
      && (|t.gameObjects| > LeafCapacity ==> |Objs(t.childA)| == |t.gameObjects| / 2)
      && MedianSplit(t.childA) && MedianSplit(t.childB)
  }

  /** Every present node still holds the default box. */
  ghost predicate DefaultBoxes(t: Tree) {
    t.Node? ==> t.boundingBox == ZeroRect && DefaultBoxes(t.childA) && DefaultBoxes(t.childB)
  }

  /** Every present node holds at least one object. */
  ghost predicate NonEmptySlices(t: Tree) {
    t.Node? ==> |t.gameObjects| > 0 && NonEmptySlices(t.childA) && NonEmptySlices(t.childB)
  }

  /** Builds the subtree for a slice: a node with at most two objects stays a
      leaf, any other splits its slice at `size / 2`, the prefix going to
      childA and the suffix to childB. */
  function CreateNewNode(gameObjects: seq<GameObject>): (t: Tree)
    ensures t.Node? && t.gameObjects == gameObjects
    ensures |gameObjects| <= LeafCapacity <==> t.childA.Null? && t.childB.Null?
    ensures |gameObjects| > LeafCapacity ==>
              && t.childA.Node? && t.childA.gameObjects == gameObjects[..|gameObjects| / 2]
              && t.childB.Node? && t.childB.gameObjects == gameObjects[|gameObjects| / 2..]
    ensures Partitioned(t) && MedianSplit(t) && DefaultBoxes(t)
    decreases |gameObjects|
  {
    if |gameObjects| <= LeafCapacity then
      Node(ZeroRect, gameObjects, Null, Null)
    else
      var midPoint := |gameObjects| / 2;
      var leftSide := gameObjects[..midPoint];
      var rightSide := gameObjects[midPoint..];
      assert leftSide + rightSide == gameObjects;
      Node(ZeroRect, gameObjects, CreateNewNode(leftSide), CreateNewNode(rightSide))
  }

  /** The slices of the leaves, childA's leaves before childB's. A node is a
      leaf exactly when it holds at most `LeafCapacity` objects, the test the
      search uses. */
  function Leaves(t: Tree): seq<seq<GameObject>> {
    match t
    case Null => []
    case Node(_, objs, a, b) =>
      if |objs| <= LeafCapacity then [objs] else Leaves(a) + Leaves(b)
  }

  function Flatten(ss: seq<seq<GameObject>>): seq<GameObject> {
    if |ss| == 0 then [] else ss[0] + Flatten(ss[1..])
  }

  lemma {:induction false} FlattenAppend(xs: seq<seq<GameObject>>, ys: seq<seq<GameObject>>)
    ensures Flatten(xs + ys) == Flatten(xs) + Flatten(ys)
    decreases |xs|
  {
    if |xs| == 0 {
      assert xs + ys == ys;
    } else {
      assert (xs + ys)[0] == xs[0];
      assert (xs + ys)[1..] == xs[1..] + ys;
      FlattenAppend(xs[1..], ys);
    }
  }

  /** The leaves partition the root slice in order: reading them left to
      right gives the slice back, so each object sits in exactly one leaf, and
      no leaf holds more than `LeafCapacity` objects (or fewer than one when the
      slice is non-empty). */
  lemma {:induction false} LeavesPartitionSlice(t: Tree)
    requires Partitioned(t)
    ensures Flatten(Leaves(t)) == t.gameObjects
    ensures forall i :: 0 <= i < |Leaves(t)| ==>
              |Leaves(t)[i]| <= LeafCapacity && (|t.gameObjects| > 0 ==> |Leaves(t)[i]| > 0)
  {
    if |t.gameObjects| <= LeafCapacity {
      assert Leaves(t) == [t.gameObjects];
      assert Flatten([t.gameObjects]) == t.gameObjects + Flatten([]);
    } else {
      LeavesPartitionSlice(t.childA);
      LeavesPartitionSlice(t.childB);
      FlattenAppend(Leaves(t.childA), Leaves(t.childB));
    }
  }

  /** A partitioned tree over a non-empty slice has no empty node, which is
      what the bounds pass needs. */
  lemma {:induction false} PartitionedNonEmpty(t: Tree)
    requires Partitioned(t) && |t.gameObjects| > 0
    ensures NonEmptySlices(t)
  {
    if |t.gameObjects| > LeafCapacity {
      PartitionedNonEmpty(t.childA);
      PartitionedNonEmpty(t.childB);
    }
  }
}
