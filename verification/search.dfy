/**
  The pruned tree search, the per-node object check that follows it, and the
  brute-force scan kept as an oracle. All three use the same strict overlap
  test.
 */
module Search {
  import opened Geometry
  import opened Objects
  import opened Hierarchy
  import opened Bounds

  /** `n` is `t` or lies below it. */
  ghost predicate Subtree(n: Tree, t: Tree) {
    n == t || (t.Node? && (Subtree(n, t.childA) || Subtree(n, t.childB)))
  }

  /** The nodes a search records, childA's before childB's: an absent node or
      one whose box misses the search rectangle contributes nothing; a node
      with more than two objects is passed through to its children; any other
      node is recorded. */
  function RecursiveSearchBVH(searchRect: Rect, currentNode: Tree): (collidedNodes: seq<Tree>)
    ensures forall i :: 0 <= i < |collidedNodes| ==>
              && collidedNodes[i].Node?
              && |collidedNodes[i].gameObjects| <= LeafCapacity
              && BoxBoxCollision(searchRect, collidedNodes[i].boundingBox)
              && Subtree(collidedNodes[i], currentNode)
  {
    match currentNode
    case Null => []
    case Node(box, objs, a, b) =>
      if !BoxBoxCollision(searchRect, box) then []
      else if |objs| > LeafCapacity then RecursiveSearchBVH(searchRect, a) + RecursiveSearchBVH(searchRect, b)
      else [currentNode]
  }

  /** The objects of the recorded nodes that collide with `boundingBox`,
      node by node and in slice order within a node. */
  function CheckCollisionsWithinNodes(collidedNodes: seq<Tree>, boundingBox: Rect): (collidedObjects: seq<GameObject>)
    requires forall i :: 0 <= i < |collidedNodes| ==> collidedNodes[i].Node?
    ensures forall o :: o in collidedObjects ==>
              BoxBoxCollision(boundingBox, o.boundingBox)
              && exists i :: 0 <= i < |collidedNodes| && o in collidedNodes[i].gameObjects
    ensures forall i, o ::
              (0 <= i < |collidedNodes| && o in collidedNodes[i].gameObjects && BoxBoxCollision(boundingBox, o.boundingBox))
              ==> o in collidedObjects
  {
    if |collidedNodes| == 0 then []
    else
      var n := |collidedNodes| - 1;
      CheckCollisionsWithinNodes(collidedNodes[..n], boundingBox) + Hits(collidedNodes[n].gameObjects, boundingBox)
  }

  lemma {:induction false} WithinNodesAppend(xs: seq<Tree>, ys: seq<Tree>, rect: Rect)
    requires forall i :: 0 <= i < |xs| ==> xs[i].Node?
    requires forall i :: 0 <= i < |ys| ==> ys[i].Node?
    ensures CheckCollisionsWithinNodes(xs + ys, rect)
            == CheckCollisionsWithinNodes(xs, rect) + CheckCollisionsWithinNodes(ys, rect)
    decreases |ys|
  {
    if |ys| == 0 {
      assert xs + ys == xs;
    } else {
      var n := |ys| - 1;
      assert (xs + ys)[..|xs + ys| - 1] == xs + ys[..n];
      assert (xs + ys)[|xs + ys| - 1] == ys[n];
      WithinNodesAppend(xs, ys[..n], rect);
    }
  }

  /** A node whose box encloses its objects and misses the search rectangle
      has no colliding object, so pruning it loses nothing. */
  lemma PrunedNodeHasNoHits(t: Tree, rect: Rect)
    requires t.Node? && !BoxBoxCollision(rect, t.boundingBox)
    requires forall i :: 0 <= i < |t.gameObjects| ==> Encloses(t.boundingBox, t.gameObjects[i].boundingBox)
    ensures Hits(t.gameObjects, rect) == []
  {
    var hits := Hits(t.gameObjects, rect);
    if |hits| > 0 {
      assert hits[0] in hits;
      var i :| 0 <= i < |t.gameObjects| && t.gameObjects[i] == hits[0];
      CollisionWithEnclosed(rect, t.boundingBox, t.gameObjects[i].boundingBox);
      assert false;
    }
  }

  /** The central claim: when every node's box encloses its objects, the pruned
      search followed by the per-node check finds exactly the objects the
      brute-force scan of the node's slice finds, in the same order. */
  lemma {:induction false} SearchMatchesScan(t: Tree, rect: Rect)
    requires Partitioned(t) && BoxesEnclose(t)
    ensures CheckCollisionsWithinNodes(RecursiveSearchBVH(rect, t), rect) == Hits(t.gameObjects, rect)
  {
    if BoxBoxCollision(rect, t.boundingBox) && |t.gameObjects| > LeafCapacity {
      SearchMatchesScan(t.childA, rect);
      SearchMatchesScan(t.childB, rect);
    }
    NodeMatches(t, rect);
  }

  /** One step of `SearchMatchesScan`: a pruned node and a recorded node agree
      with the scan outright, and a node passed through agrees when both its
      children do. */
  lemma NodeMatches(t: Tree, rect: Rect)
    requires Partitioned(t)
    requires forall i :: 0 <= i < |t.gameObjects| ==> Encloses(t.boundingBox, t.gameObjects[i].boundingBox)
    requires BoxBoxCollision(rect, t.boundingBox) && |t.gameObjects| > LeafCapacity ==>
               && CheckCollisionsWithinNodes(RecursiveSearchBVH(rect, t.childA), rect) == Hits(t.childA.gameObjects, rect)
               && CheckCollisionsWithinNodes(RecursiveSearchBVH(rect, t.childB), rect) == Hits(t.childB.gameObjects, rect)
    ensures CheckCollisionsWithinNodes(RecursiveSearchBVH(rect, t), rect) == Hits(t.gameObjects, rect)
  {
    if !BoxBoxCollision(rect, t.boundingBox) {
      PrunedNodeHasNoHits(t, rect);
      assert RecursiveSearchBVH(rect, t) == [];
    } else if |t.gameObjects| > LeafCapacity {
      ChildrenMatch(t.childA, t.childB, rect);
      assert RecursiveSearchBVH(rect, t) == RecursiveSearchBVH(rect, t.childA) + RecursiveSearchBVH(rect, t.childB);
    } else {
      RecordedNodeMatches(t, rect);
      assert RecursiveSearchBVH(rect, t) == [t];
    }
  }

  /** If the search agrees with the scan on both children, it agrees on the
      concatenation of their slices. */
  lemma ChildrenMatch(a: Tree, b: Tree, rect: Rect)
    requires a.Node? && b.Node?
    requires CheckCollisionsWithinNodes(RecursiveSearchBVH(rect, a), rect) == Hits(a.gameObjects, rect)
    requires CheckCollisionsWithinNodes(RecursiveSearchBVH(rect, b), rect) == Hits(b.gameObjects, rect)
    ensures CheckCollisionsWithinNodes(RecursiveSearchBVH(rect, a) + RecursiveSearchBVH(rect, b), rect)
            == Hits(a.gameObjects + b.gameObjects, rect)
  {
    WithinNodesAppend(RecursiveSearchBVH(rect, a), RecursiveSearchBVH(rect, b), rect);
    HitsAppend(a.gameObjects, b.gameObjects, rect);
  }

  /** Checking one recorded node scans its slice. */
  lemma RecordedNodeMatches(t: Tree, rect: Rect)
    requires t.Node?
    ensures CheckCollisionsWithinNodes([t], rect) == Hits(t.gameObjects, rect)
  {
    var single := [t];
    assert single[..0] == [];
  }

  /** With nested boxes, the box of every node lies inside the box of each
      node above it. */
  lemma {:induction false} SubtreeInside(n: Tree, t: Tree)
    requires Nested(t) && Subtree(n, t) && n.Node?
    ensures Encloses(t.boundingBox, n.boundingBox)
  {
    if n != t {
      if Subtree(n, t.childA) {
        SubtreeInside(n, t.childA);
      } else {
        SubtreeInside(n, t.childB);
      }
    }
  }

  /** With nested boxes the search is complete for nodes: every node below
      the start node that holds at most two objects and whose box collides
      with the search rectangle is recorded. */
  lemma {:induction false} SearchRecordsEveryCollidingLeaf(t: Tree, n: Tree, rect: Rect)
    requires Partitioned(t) && Nested(t)
    requires Subtree(n, t) && n.Node? && |n.gameObjects| <= LeafCapacity
    requires BoxBoxCollision(rect, n.boundingBox)
    ensures n in RecursiveSearchBVH(rect, t)
  {
    SubtreeInside(n, t);
    CollisionWithEnclosed(rect, t.boundingBox, n.boundingBox);
    if n != t {
      var a := t.childA;
      var b := t.childB;
      if Subtree(n, a) {
        SearchRecordsEveryCollidingLeaf(a, n, rect);
      } else {
        SearchRecordsEveryCollidingLeaf(b, n, rect);
      }
    }
  }

  /** The brute-force scan: every object is tested in order and the colliding
      ones are appended. */
  method CheckCollison(gameObjects: seq<GameObject>, collisionBox: Rect) returns (tempCollisions: seq<GameObject>)
    ensures tempCollisions == Hits(gameObjects, collisionBox)
  {
    tempCollisions := [];
    var i := 0;
    while i < |gameObjects|
      invariant 0 <= i <= |gameObjects|
      invariant tempCollisions == Hits(gameObjects[..i], collisionBox)
    {
      var obj := gameObjects[i];
      assert gameObjects[..i + 1][..i] == gameObjects[..i];
      if BoxBoxCollision(collisionBox, obj.boundingBox) {
        tempCollisions := tempCollisions + [obj];
      }
      i := i + 1;
    }
    assert gameObjects[..i] == gameObjects;
  }
}
