/**
  The demonstration scene: eight 64x64 objects on a 4x2 grid and a 32x32
  "bird" rectangle at (48, 48), which straddles the point (64, 64) where
  circle, chair, chicken and jockey meet.
 */
module Demo {
  import opened Geometry
  import opened Objects
  import opened Search
  import opened Pipeline
  import opened Correction

  const Circle := GameObject("circle", Rect(0, 0, 64, 64))
  const Chair := GameObject("chair", Rect(64, 0, 64, 64))
  const Dino := GameObject("dino", Rect(128, 0, 64, 64))
  const Obama := GameObject("obama", Rect(192, 0, 64, 64))
  const Chicken := GameObject("chicken", Rect(0, 64, 64, 64))
  const Jockey := GameObject("jockey", Rect(64, 64, 64, 64))
  const Frog := GameObject("frog", Rect(128, 64, 64, 64))
  const Shark := GameObject("shark", Rect(192, 64, 64, 64))

  const TopRow: seq<GameObject> := [Circle, Chair, Dino, Obama]
  const BottomRow: seq<GameObject> := [Chicken, Jockey, Frog, Shark]

  /** The objects in creation order: top row, then bottom row. */
  const Scene: seq<GameObject> := TopRow + BottomRow

  const BirdObject := Rect(48, 48, 32, 32)

  /** Scanning a row of four whose first two objects collide and last two do
      not, one object at a time from the end, as the scan is defined. */
  lemma RowScan(w: GameObject, x: GameObject, y: GameObject, z: GameObject, rect: Rect)
    requires BoxBoxCollision(rect, w.boundingBox) && BoxBoxCollision(rect, x.boundingBox)
    requires !BoxBoxCollision(rect, y.boundingBox) && !BoxBoxCollision(rect, z.boundingBox)
    ensures Hits([w, x, y, z], rect) == [w, x]
  {
    assert [w, x, y, z][..3] == [w, x, y];
    assert [w, x, y][..2] == [w, x];
    assert [w, x][..1] == [w];
    assert [w][..0] == [];
    assert Hits([w], rect) == [w];
    assert Hits([w, x], rect) == [w, x];
    assert Hits([w, x, y], rect) == [w, x];
  }

  lemma TopRowScan()
    ensures Hits([Circle, Chair, Dino, Obama], BirdObject) == [Circle, Chair]
  {
    RowScan(Circle, Chair, Dino, Obama, BirdObject);
  }

  lemma BottomRowScan()
    ensures Hits([Chicken, Jockey, Frog, Shark], BirdObject) == [Chicken, Jockey]
  {
    RowScan(Chicken, Jockey, Frog, Shark, BirdObject);
  }

  /** The brute-force scan over the scene in creation order finds the four
      tiles around the shared corner, top row first. This is the list as
      created; the program's own scan would run after the build has sorted
      the list in place, which `SceneSearch` accounts for. */
  lemma SceneScan()
    ensures Hits(Scene, BirdObject) == [Circle, Chair, Chicken, Jockey]
  {
    TopRowScan();
    BottomRowScan();
    HitsAppend(TopRow, BottomRow, BirdObject);
  }

  /** Searching the built tree with the bird finds circle, chair, chicken and
      jockey, and nothing else; the order depends on how the sort placed the
      objects with equal left edges. */
  lemma SceneSearch()
    ensures multiset(SearchBVH(CreateBVH(Scene), BirdObject)) == multiset{Circle, Chair, Chicken, Jockey}
  {
    assert EqualWidths(Scene);
    EqualWidthsGiveRightsFollowLefts(Scene);
    SearchBVHFindsAllHits(Scene, BirdObject);
    SceneScan();
  }

  /** The build with the corrected bounds pass gives the same answer, with no
      condition on the objects. */
  lemma CorrectedSceneSearch()
    ensures multiset(SearchBVH(CorrectedCreateBVH(Scene), BirdObject)) == multiset{Circle, Chair, Chicken, Jockey}
  {
    CorrectedSearchFindsAllHits(Scene, BirdObject);
    SceneScan();
  }

  const FarAway := Rect(10000, 10000, 1, 1)

  /** No object of the scene collides with a rectangle far outside it. */
  lemma FarAwayScan()
    ensures Hits(Scene, FarAway) == []
  {
    if |Hits(Scene, FarAway)| > 0 {
      FirstHit(Scene, FarAway);
      assert false;
    }
  }

  /** A rectangle far outside the scene finds nothing in the tree either. */
  lemma FarAwaySearch()
    ensures SearchBVH(CreateBVH(Scene), FarAway) == []
  {
    assert EqualWidths(Scene);
    EqualWidthsGiveRightsFollowLefts(Scene);
    SearchBVHFindsAllHits(Scene, FarAway);
    FarAwayScan();
    var found := SearchBVH(CreateBVH(Scene), FarAway);
    assert |multiset(found)| == 0;
  }
}
