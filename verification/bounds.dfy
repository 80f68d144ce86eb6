/**
  The bounds pass. Each node's box is computed from its own slice: the left
  edge from the first object and the right edge from the LAST object (the slice
  is assumed sorted, and the right edge of the last object is taken as the
  largest), and the vertical range by a min/max scan seeded from the node's
  current box, which after building is the default zero box.
 */
module Bounds {
  import opened Geometry
  import opened Objects
  import opened Hierarchy

  function Min(a: int, b: int): int { if a < b then a else b }
  function Max(a: int, b: int): int { if a < b then b else a }

  /** The running minimum of the top edges, starting from `seed`, taken in slice order. */
  function ScanTop(objs: seq<GameObject>, seed: int): (lo: int)
    ensures lo <= seed
    ensures forall i :: 0 <= i < |objs| ==> lo <= objs[i].boundingBox.top
    ensures lo == seed || exists i :: 0 <= i < |objs| && lo == objs[i].boundingBox.top
    decreases |objs|
  {
    if |objs| == 0 then seed
    else Min(objs[|objs| - 1].boundingBox.top, ScanTop(objs[..|objs| - 1], seed))
  }

  /** The running maximum of the bottom edges, starting from `seed`, taken in slice order. */
  function ScanBottom(objs: seq<GameObject>, seed: int): (hi: int)
    ensures seed <= hi
    ensures forall i :: 0 <= i < |objs| ==> objs[i].boundingBox.Bottom() <= hi
    ensures hi == seed || exists i :: 0 <= i < |objs| && hi == objs[i].boundingBox.Bottom()
    decreases |objs|
  {
    if |objs| == 0 then seed
    else Max(objs[|objs| - 1].boundingBox.Bottom(), ScanBottom(objs[..|objs| - 1], seed))
  }

  /** The rectangle spanning `[smallestX, largestX) x [smallestY, largestY)`. */
  function FromEdges(smallestX: int, largestX: int, smallestY: int, largestY: int): Rect {
    Rect(smallestX, smallestY, largestX - smallestX, largestY - smallestY)
  }

  /** The box one node receives from its slice and its current box. */
  function NodeBounds(objs: seq<GameObject>, current: Rect): (r: Rect)
    requires |objs| > 0
    ensures r.left == objs[0].boundingBox.left
    ensures r.Right() == objs[|objs| - 1].boundingBox.Right()
    ensures r.top <= current.top && current.Bottom() <= r.Bottom()
    ensures forall i :: 0 <= i < |objs| ==>
              r.top <= objs[i].boundingBox.top && objs[i].boundingBox.Bottom() <= r.Bottom()
    ensures r.top == current.top || exists i :: 0 <= i < |objs| && r.top == objs[i].boundingBox.top
    ensures r.Bottom() == current.Bottom() || exists i :: 0 <= i < |objs| && r.Bottom() == objs[i].boundingBox.Bottom()
  {
    var last := objs[|objs| - 1];
    FromEdges(objs[0].boundingBox.left, last.boundingBox.left + last.boundingBox.width,
              ScanTop(objs, current.top), ScanBottom(objs, current.top + current.height))
  }

  /** Assigns every present node its box, parent before children; slices and
      shape are left alone. */
  function CalculateNodeBounds(t: Tree): (r: Tree)
    requires NonEmptySlices(t)
    ensures SameSlices(t, r)
    ensures VerticallyEnclosing(r)
  {
    match t
    case Null => Null
    case Node(box, objs, a, b) =>
      Node(NodeBounds(objs, box), objs, CalculateNodeBounds(a), CalculateNodeBounds(b))
  }

  /** One step of the pass, spelled out. */
  lemma CalculateNodeBoundsStep(t: Tree)
    requires t.Node? && NonEmptySlices(t)
    ensures NonEmptySlices(t.childA) && NonEmptySlices(t.childB)
    ensures CalculateNodeBounds(t)
            == Node(NodeBounds(t.gameObjects, t.boundingBox), t.gameObjects,
                    CalculateNodeBounds(t.childA), CalculateNodeBounds(t.childB))
  {
  }

  /** Same shape, same slice at every node; boxes may differ. */
  ghost predicate SameSlices(t: Tree, r: Tree) {
    match t
    case Null => r.Null?
    case Node(_, objs, a, b) =>
      r.Node? && r.gameObjects == objs && SameSlices(a, r.childA) && SameSlices(b, r.childB)
  }

  /** At every node, each object's vertical span lies inside the node's. */
  ghost predicate VerticallyEnclosing(t: Tree) {
    t.Node? ==>
      && (forall i :: 0 <= i < |t.gameObjects| ==>
            t.boundingBox.top <= t.gameObjects[i].boundingBox.top
            && t.gameObjects[i].boundingBox.Bottom() <= t.boundingBox.Bottom())
      && VerticallyEnclosing(t.childA) && VerticallyEnclosing(t.childB)
  }

  /** At every node, the node's box encloses each of its objects' boxes. */
  ghost predicate BoxesEnclose(t: Tree) {
    t.Node? ==>
      && (forall i :: 0 <= i < |t.gameObjects| ==> Encloses(t.boundingBox, t.gameObjects[i].boundingBox))
      && BoxesEnclose(t.childA) && BoxesEnclose(t.childB)
  }

  /** At every node, the box encloses the boxes of its present children. */
  ghost predicate Nested(t: Tree) {
    t.Node? ==>
      && (t.childA.Node? ==> Encloses(t.boundingBox, t.childA.boundingBox))
      && (t.childB.Node? ==> Encloses(t.boundingBox, t.childB.boundingBox))
      && Nested(t.childA) && Nested(t.childB)
  }

  /** Recomputing boxes keeps the split structure. */
  lemma {:induction false} SameSlicesKeepPartition(t: Tree, r: Tree)
    requires Partitioned(t) && SameSlices(t, r)
    ensures Partitioned(r)
  {
    if |t.gameObjects| > LeafCapacity {
      SameSlicesKeepPartition(t.childA, r.childA);
      SameSlicesKeepPartition(t.childB, r.childB);
    }
  }

  /** Recomputing boxes keeps the median split. */
  lemma {:induction false} SameSlicesKeepMedian(t: Tree, r: Tree)
    requires MedianSplit(t) && SameSlices(t, r)
    ensures MedianSplit(r)
  {
    if t.Node? {
      SameSlicesKeepMedian(t.childA, r.childA);
      SameSlicesKeepMedian(t.childB, r.childB);
    }
  }

  /** On a slice sorted by left edge whose right edges do not decrease, the
      box of a node encloses every object of the slice. */
  lemma NodeBoundsEnclose(objs: seq<GameObject>, current: Rect)
    requires |objs| > 0 && SortedByLeft(objs) && RightsNonDecreasing(objs)
    ensures forall i :: 0 <= i < |objs| ==> Encloses(NodeBounds(objs, current), objs[i].boundingBox)
  {
  }

  /** Boxes after the pass enclose their objects when the root slice is
      sorted by left edge with non-decreasing right edges. The right edge is
      read from the last object only, so some condition on right edges is
      required; this one is sufficient, not necessary. */
  lemma {:induction false} BoundsEncloseObjects(t: Tree)
    requires Partitioned(t) && NonEmptySlices(t)
    requires SortedByLeft(t.gameObjects) && RightsNonDecreasing(t.gameObjects)
    ensures BoxesEnclose(CalculateNodeBounds(t))
  {
    NodeBoundsEnclose(t.gameObjects, t.boundingBox);
    if |t.gameObjects| > LeafCapacity {
      SortedSlices(t.childA.gameObjects, t.childB.gameObjects);
      RightsSlices(t.childA.gameObjects, t.childB.gameObjects);
      BoundsEncloseObjects(t.childA);
      BoundsEncloseObjects(t.childB);
    }
  }

  /** The first object of `sub` starts no further left, and its last object
      ends no further right, than those of `objs`. */
  ghost predicate EndsInside(objs: seq<GameObject>, sub: seq<GameObject>) {
    && |objs| > 0 && |sub| > 0
    && objs[0].boundingBox.left <= sub[0].boundingBox.left
    && sub[|sub| - 1].boundingBox.Right() <= objs[|objs| - 1].boundingBox.Right()
  }

  /** At every internal node, both children's slices have their ends inside the node's. */
  ghost predicate EndsNested(t: Tree) {
    t.Node? ==>
      && (|t.gameObjects| > LeafCapacity ==>
            EndsInside(t.gameObjects, Objs(t.childA)) && EndsInside(t.gameObjects, Objs(t.childB)))
      && EndsNested(t.childA) && EndsNested(t.childB)
  }

  /** Ordering by left edge with non-decreasing right edges puts the ends of
      every child slice inside its parent's. */
  lemma {:induction false} EndsNestedFromOrder(t: Tree)
    requires Partitioned(t)
    requires SortedByLeft(t.gameObjects) && RightsNonDecreasing(t.gameObjects)
    ensures EndsNested(t)
  {
    if |t.gameObjects| > LeafCapacity {
      var a := t.childA.gameObjects;
      var b := t.childB.gameObjects;
      var objs := t.gameObjects;
      assert a[0] == objs[0] && a[|a| - 1] == objs[|a| - 1];
      assert b[0] == objs[|a|] && b[|b| - 1] == objs[|objs| - 1];
      SortedSlices(a, b);
      RightsSlices(a, b);
      EndsNestedFromOrder(t.childA);
      EndsNestedFromOrder(t.childB);
    }
  }

  /** The vertical range of a part of a slice lies inside that of the whole
      slice when both scans start from the same box: the minimum over fewer
      tops cannot be smaller, the maximum over fewer bottoms cannot be larger. */
  lemma PartVerticallyInside(a: seq<GameObject>, b: seq<GameObject>, current: Rect)
    requires |a| > 0 && |b| > 0
    ensures var whole := NodeBounds(a + b, current);
            var left := NodeBounds(a, current);
            var right := NodeBounds(b, current);
            && whole.top <= left.top && left.Bottom() <= whole.Bottom()
            && whole.top <= right.top && right.Bottom() <= whole.Bottom()
  {
    var objs := a + b;
    var left := NodeBounds(a, current);
    var right := NodeBounds(b, current);
    if left.top != current.top {
      var i :| 0 <= i < |a| && left.top == a[i].boundingBox.top;
      assert a[i] == objs[i];
    }
    if left.Bottom() != current.Bottom() {
      var i :| 0 <= i < |a| && left.Bottom() == a[i].boundingBox.Bottom();
      assert a[i] == objs[i];
    }
    if right.top != current.top {
      var i :| 0 <= i < |b| && right.top == b[i].boundingBox.top;
      assert b[i] == objs[|a| + i];
    }
    if right.Bottom() != current.Bottom() {
      var i :| 0 <= i < |b| && right.Bottom() == b[i].boundingBox.Bottom();
      assert b[i] == objs[|a| + i];
    }
  }

  /** The boxes of the two halves of a split slice lie inside the box of the
      slice, all three starting from the same box, when the halves' ends lie
      inside the slice's. */
  lemma HalvesInside(a: seq<GameObject>, b: seq<GameObject>, current: Rect)
    requires EndsInside(a + b, a) && EndsInside(a + b, b)
    ensures Encloses(NodeBounds(a + b, current), NodeBounds(a, current))
    ensures Encloses(NodeBounds(a + b, current), NodeBounds(b, current))
  {
    PartVerticallyInside(a, b, current);
  }

  /** Every present node's box is the one its slice gives from the default box. */
  ghost predicate BoxesFromSlices(r: Tree) {
    r.Node? ==>
      && |r.gameObjects| > 0
      && r.boundingBox == NodeBounds(r.gameObjects, ZeroRect)
      && BoxesFromSlices(r.childA) && BoxesFromSlices(r.childB)
  }

  /** On a tree the builder left with default boxes, the pass gives every node
      the box of its own slice. */
  lemma {:induction false} PassGivesSliceBoxes(t: Tree)
    requires NonEmptySlices(t) && DefaultBoxes(t)
    ensures BoxesFromSlices(CalculateNodeBounds(t))
  {
    if t.Node? {
      CalculateNodeBoundsStep(t);
      PassGivesSliceBoxes(t.childA);
      PassGivesSliceBoxes(t.childB);
    }
  }

  lemma {:induction false} NestedFromEnds(r: Tree)
    requires (r.Node? ==> Partitioned(r)) && EndsNested(r) && BoxesFromSlices(r)
    ensures Nested(r)
  {
    if r.Node? && |r.gameObjects| > LeafCapacity {
      HalvesInside(r.childA.gameObjects, r.childB.gameObjects, ZeroRect);
      NestedFromEnds(r.childA);
      NestedFromEnds(r.childB);
    }
  }

  /** Under the same sufficient condition, and with every node starting from
      the default box as the builder leaves it, each child's box lies inside
      its parent's. */
  lemma ChildBoxesInsideParent(t: Tree)
    requires Partitioned(t) && NonEmptySlices(t) && DefaultBoxes(t)
    requires SortedByLeft(t.gameObjects) && RightsNonDecreasing(t.gameObjects)
    ensures Nested(CalculateNodeBounds(t))
  {
    var r := CalculateNodeBounds(t);
    PassGivesSliceBoxes(t);
    SameSlicesKeepPartition(t, r);
    EndsNestedFromOrder(r);
    NestedFromEnds(r);
  }
}
