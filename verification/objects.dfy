/**
  Game objects, the ordering by left edge used before building, and the
  linear filter "objects whose box collides with a rectangle" shared by the
  brute-force scan and by the per-node check after a tree search.
 */
module Objects {
  import opened Geometry

  datatype GameObject = GameObject(name: string, boundingBox: Rect)

  /** Non-decreasing in the left edge, the order `operator<` sorts into. */
  predicate SortedByLeft(s: seq<GameObject>) {
    forall i, j :: 0 <= i < j < |s| ==> s[i].boundingBox.left <= s[j].boundingBox.left
  }

  /** Non-decreasing in the right edge. */
  predicate RightsNonDecreasing(s: seq<GameObject>) {
    forall i, j :: 0 <= i < j < |s| ==> s[i].boundingBox.Right() <= s[j].boundingBox.Right()
  }

  /** An object that starts no further right than another also ends no
      further right. Unlike `RightsNonDecreasing`, this does not depend on the
      order of the list, so it survives any sort. */
  predicate RightsFollowLefts(s: seq<GameObject>) {
    forall i, j :: 0 <= i < |s| && 0 <= j < |s| && s[i].boundingBox.left <= s[j].boundingBox.left ==>
      s[i].boundingBox.Right() <= s[j].boundingBox.Right()
  }

  /** Every object has the same width. */
  predicate EqualWidths(s: seq<GameObject>) {
    forall i, j :: 0 <= i < |s| && 0 <= j < |s| ==> s[i].boundingBox.width == s[j].boundingBox.width
  }

  /** The comparison the sort uses. */
  predicate LessByLeft(a: GameObject, b: GameObject) {
    a.boundingBox.left < b.boundingBox.left
  }

  /** The comparison is a strict weak order, as the sort requires: it is
      irreflexive and transitive, and so is "neither is less". Being sorted by
      left edge means no later object is less than an earlier one. */
  lemma LessByLeftIsStrictWeakOrder(a: GameObject, b: GameObject, c: GameObject, s: seq<GameObject>)
    ensures !LessByLeft(a, a)
    ensures LessByLeft(a, b) && LessByLeft(b, c) ==> LessByLeft(a, c)
    ensures (!LessByLeft(a, b) && !LessByLeft(b, a) && !LessByLeft(b, c) && !LessByLeft(c, b))
            ==> !LessByLeft(a, c) && !LessByLeft(c, a)
    ensures SortedByLeft(s) <==> forall i, j :: 0 <= i < j < |s| ==> !LessByLeft(s[j], s[i])
  {
  }

  /** Inserts `o` in front of the first element that is not less than it. */
  function Insert(o: GameObject, s: seq<GameObject>): (r: seq<GameObject>)
    requires SortedByLeft(s)
    ensures SortedByLeft(r)
    ensures multiset(r) == multiset(s) + multiset{o}
    ensures |r| == |s| + 1
    ensures r[0] == o || (|s| > 0 && r[0] == s[0])
  {
    if |s| == 0 then [o]
    else if LessByLeft(s[0], o) then
      var tail := Insert(o, s[1..]);
      ConsSorted(s[0], tail);
      assert s == [s[0]] + s[1..];
      [s[0]] + tail
    else
      ConsSorted(o, s);
      [o] + s
  }

  /** Putting an object no further right than the head in front of a sorted
      list keeps it sorted. */
  lemma ConsSorted(x: GameObject, t: seq<GameObject>)
    requires SortedByLeft(t) && (|t| > 0 ==> x.boundingBox.left <= t[0].boundingBox.left)
    ensures SortedByLeft([x] + t)
  {
    var r := [x] + t;
    forall i, j | 0 <= i < j < |r|
      ensures r[i].boundingBox.left <= r[j].boundingBox.left
    {
      if i == 0 {
        assert r[j] == t[j - 1];
      } else {
        assert r[i] == t[i - 1] && r[j] == t[j - 1];
      }
    }
  }

  /** Orders the objects by left edge. Only a permutation that is sorted is
      promised: the ordering of objects with equal left edges is left open. */
  function OrganiseGameObjects(gameObjects: seq<GameObject>): (r: seq<GameObject>)
    ensures SortedByLeft(r)
    ensures multiset(r) == multiset(gameObjects)
    ensures |r| == |gameObjects|
  {
    if |gameObjects| == 0 then []
    else
      assert gameObjects == [gameObjects[0]] + gameObjects[1..];
      Insert(gameObjects[0], OrganiseGameObjects(gameObjects[1..]))
  }

  /** The objects of `s` whose box collides with `rect`, in their order in `s`. */
  function Hits(s: seq<GameObject>, rect: Rect): (r: seq<GameObject>)
    ensures |r| <= |s|
    ensures forall o :: o in r <==> o in s && BoxBoxCollision(rect, o.boundingBox)
  {
    if |s| == 0 then []
    else
      var last := s[|s| - 1];
      assert s == s[..|s| - 1] + [last];
      Hits(s[..|s| - 1], rect) + (if BoxBoxCollision(rect, last.boundingBox) then [last] else [])
  }

  lemma {:induction false} HitsAppend(a: seq<GameObject>, b: seq<GameObject>, rect: Rect)
    ensures Hits(a + b, rect) == Hits(a, rect) + Hits(b, rect)
    decreases |b|
  {
    if |b| == 0 {
      assert a + b == a;
    } else {
      var b' := b[..|b| - 1];
      assert (a + b)[..|a + b| - 1] == a + b';
      assert (a + b)[|a + b| - 1] == b[|b| - 1];
      HitsAppend(a, b', rect);
    }
  }

  lemma HitsOfOne(o: GameObject, rect: Rect)
    ensures Hits([o], rect) == if BoxBoxCollision(rect, o.boundingBox) then [o] else []
  {
    assert [o][..0] == [];
  }

  /** A non-empty result starts with a colliding object of the list. */
  lemma FirstHit(s: seq<GameObject>, rect: Rect)
    requires |Hits(s, rect)| > 0
    ensures Hits(s, rect)[0] in s && BoxBoxCollision(rect, Hits(s, rect)[0].boundingBox)
  {
    assert Hits(s, rect)[0] in Hits(s, rect);
  }

  /** Filtering keeps each colliding object exactly as often as it occurs. */
  lemma {:induction false} HitsMultiplicity(s: seq<GameObject>, rect: Rect, x: GameObject)
    ensures multiset(Hits(s, rect))[x] == if BoxBoxCollision(rect, x.boundingBox) then multiset(s)[x] else 0
    decreases |s|
  {
    if |s| > 0 {
      var s' := s[..|s| - 1];
      assert s == s' + [s[|s| - 1]];
      HitsMultiplicity(s', rect, x);
    }
  }

  /** The multiset of hits depends only on the multiset of objects, so the
      brute-force result over any ordering of the same objects is the same
      up to order. */
  lemma HitsOfPermutation(s: seq<GameObject>, t: seq<GameObject>, rect: Rect)
    requires multiset(s) == multiset(t)
    ensures multiset(Hits(s, rect)) == multiset(Hits(t, rect))
  {
    forall x ensures multiset(Hits(s, rect))[x] == multiset(Hits(t, rect))[x] {
      HitsMultiplicity(s, rect, x);
      HitsMultiplicity(t, rect, x);
    }
  }

  /** Objects of equal width end in the order they start. */
  lemma EqualWidthsGiveRightsFollowLefts(s: seq<GameObject>)
    requires EqualWidths(s)
    ensures RightsFollowLefts(s)
  {
  }

  /** Sorting a list whose right edges follow its left edges, in whatever
      order ties end up, gives non-decreasing right edges. */
  lemma SortedRightsNonDecreasing(s: seq<GameObject>, sorted: seq<GameObject>)
    requires RightsFollowLefts(s) && multiset(sorted) == multiset(s) && SortedByLeft(sorted)
    ensures RightsNonDecreasing(sorted)
  {
    forall i, j | 0 <= i < j < |sorted|
      ensures sorted[i].boundingBox.Right() <= sorted[j].boundingBox.Right()
    {
      assert sorted[i] in multiset(s) && sorted[j] in multiset(s);
      var i' :| 0 <= i' < |s| && s[i'] == sorted[i];
      var j' :| 0 <= j' < |s| && s[j'] == sorted[j];
    }
  }

  lemma SortedSlices(a: seq<GameObject>, b: seq<GameObject>)
    requires SortedByLeft(a + b)
    ensures SortedByLeft(a) && SortedByLeft(b)
  {
    forall i, j | 0 <= i < j < |a| ensures a[i].boundingBox.left <= a[j].boundingBox.left {
      assert a[i] == (a + b)[i] && a[j] == (a + b)[j];
    }
    forall i, j | 0 <= i < j < |b| ensures b[i].boundingBox.left <= b[j].boundingBox.left {
      assert b[i] == (a + b)[|a| + i] && b[j] == (a + b)[|a| + j];
    }
  }

  lemma RightsSlices(a: seq<GameObject>, b: seq<GameObject>)
    requires RightsNonDecreasing(a + b)
    ensures RightsNonDecreasing(a) && RightsNonDecreasing(b)
  {
    forall i, j | 0 <= i < j < |a| ensures a[i].boundingBox.Right() <= a[j].boundingBox.Right() {
      assert a[i] == (a + b)[i] && a[j] == (a + b)[j];
    }
    forall i, j | 0 <= i < j < |b| ensures b[i].boundingBox.Right() <= b[j].boundingBox.Right() {
      assert b[i] == (a + b)[|a| + i] && b[j] == (a + b)[|a| + j];
    }
  }
}
