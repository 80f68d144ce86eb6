/**
  Axis-aligned rectangles and the strict overlap test used by every query of
  the hierarchy. Coordinates are unbounded integers: the program only adds and
  compares them, so no rounding is modelled.
 */
module Geometry {

  /** A rectangle `[left, left + width) x [top, top + height)`. */
  datatype Rect = Rect(left: int, top: int, width: int, height: int) {
    function Right(): int { left + width }
    function Bottom(): int { top + height }
  }

  /** The value a freshly constructed rectangle holds before anything is assigned. */
  const ZeroRect: Rect := Rect(0, 0, 0, 0)

  /** Width and height are positive, so the rectangle covers at least one point. */
  predicate NonDegenerate(r: Rect) {
    r.width > 0 && r.height > 0
  }

  /** The integer point `(x, y)` lies in the half-open area of `r`. */
  predicate ContainsPoint(r: Rect, x: int, y: int) {
    r.left <= x < r.Right() && r.top <= y < r.Bottom()
  }

  /** `outer` covers `inner` on both axes. */
  predicate Encloses(outer: Rect, inner: Rect) {
    && outer.left <= inner.left && inner.Right() <= outer.Right()
    && outer.top <= inner.top && inner.Bottom() <= outer.Bottom()
  }

  /** The overlap test: all four comparisons are strict, so rectangles that
      only share an edge do not collide. */
  predicate BoxBoxCollision(boxA: Rect, boxB: Rect) {
    && boxA.left < boxB.left + boxB.width
    && boxA.left + boxA.width > boxB.left
    && boxA.top + boxA.height > boxB.top
    && boxA.top < boxB.top + boxB.height
  }

  lemma CollisionSymmetric(a: Rect, b: Rect)
    ensures BoxBoxCollision(a, b) <==> BoxBoxCollision(b, a)
  {
  }

  /** Rectangles that meet along a vertical or horizontal edge do not collide. */
  lemma TouchingEdgesDoNotCollide(a: Rect, b: Rect)
    requires a.Right() == b.left || b.Right() == a.left || a.Bottom() == b.top || b.Bottom() == a.top
    ensures !BoxBoxCollision(a, b) && !BoxBoxCollision(b, a)
  {
  }

  /** For rectangles of positive size the strict test means exactly that the
      two areas share a point. (A zero-width box strictly inside another still
      passes the test although it covers no point.) */
  lemma CollisionIffSharedPoint(a: Rect, b: Rect)
    requires NonDegenerate(a) && NonDegenerate(b)
    ensures BoxBoxCollision(a, b) <==> exists x, y :: ContainsPoint(a, x, y) && ContainsPoint(b, x, y)
  {
    if BoxBoxCollision(a, b) {
      var x := if a.left < b.left then b.left else a.left;
      var y := if a.top < b.top then b.top else a.top;
      assert ContainsPoint(a, x, y) && ContainsPoint(b, x, y);
    }
  }

  /** A rectangle that collides with something inside `outer` collides with `outer`:
      this is what makes pruning a subtree safe. */
  lemma CollisionWithEnclosed(search: Rect, outer: Rect, inner: Rect)
    requires Encloses(outer, inner)
    ensures BoxBoxCollision(search, inner) ==> BoxBoxCollision(search, outer)
  {
  }
}
