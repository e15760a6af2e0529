/** Per-column ray casting: the ray angle of a screen column, and the
    fixed-step march from the player along a unit direction until a wall cell
    is entered, the sample leaves the map, or the distance reaches Depth. */
module RayCast {
  import opened Config
  import opened Numeric
  import opened World

  /** Why the march stopped. */
  datatype Outcome =
    | HitWall(cellX: int, cellY: int)  // entered the wall cell (cellX, cellY)
    | LeftMap                          // the sample's cell lies outside the map
    | TooFar                           // reached Depth over open cells only

  /** Result of one march: the distance used for projection, the reason it
      stopped and the number of increments taken. */
  datatype Ray = Ray(dist: real, outcome: Outcome, steps: nat)

  /** Ray angle of screen column `col`: a linear sweep across the field of
      view, from a - Fov/2 at the left edge toward a + Fov/2. */
  function RayAngle(a: real, col: int): (r: real)
    requires 0 <= col < ScreenWidth
    ensures a - Fov / 2.0 <= r < a + Fov / 2.0
  {
    (a - Fov / 2.0) + (col as real / ScreenWidth as real) * Fov
  }

  /** Columns further right look further clockwise, by equal increments. */
  lemma RayAngleIncreasing(a: real, c1: int, c2: int)
    requires 0 <= c1 < c2 < ScreenWidth
    ensures RayAngle(a, c1) < RayAngle(a, c2)
    ensures RayAngle(a, c2) - RayAngle(a, c1) == (c2 - c1) as real * (Fov / ScreenWidth as real)
  {
  }

  /** The middle column looks straight along the player's angle. */
  lemma CentreColumnLooksAhead(a: real)
    ensures RayAngle(a, ScreenWidth / 2) == a
  {
  }

  /** The cell containing the point at distance d from (px, py) along
      (ex, ey). */
  function SampleAt(px: real, py: real, ex: real, ey: real, d: real): (int, int)
  {
    (Trunc(px + ex * d), Trunc(py + ey * d))
  }

  /** The cell sampled after j increments. */
  function SampleCell(px: real, py: real, ex: real, ey: real, j: int): (int, int)
  {
    SampleAt(px, py, ex, ey, j as real * StepSize)
  }

  /** Sampling at the distance of j increments is the j-th sample. */
  lemma SampleAtStep(px: real, py: real, ex: real, ey: real, d: real, j: int)
    requires d == j as real * StepSize
    ensures SampleAt(px, py, ex, ey, d) == SampleCell(px, py, ex, ey, j)
  {
  }

  /** The j-th sample lies in an open cell of the map. */
  predicate SampleOpen(m: seq<char>, px: real, py: real, ex: real, ey: real, j: int)
    requires ValidMap(m)
  {
    var c := SampleCell(px, py, ex, ey, j);
    InMap(c.0, c.1) && m[CellIndex(c.0, c.1)] != '#'
  }

  /** Reference definition of the march, continuing after k increments (the
      distance so far, k * StepSize, is still below Depth). */
  function March(m: seq<char>, px: real, py: real, ex: real, ey: real, k: nat): (r: Ray)
    requires ValidMap(m)
    requires k < MaxSteps
    ensures k < r.steps <= MaxSteps
    decreases MaxSteps - k
  {
    var d := (k + 1) as real * StepSize;
    var c := SampleCell(px, py, ex, ey, k + 1);
    if !InMap(c.0, c.1) then Ray(Depth, LeftMap, k + 1)
    else if m[CellIndex(c.0, c.1)] == '#' then Ray(d, HitWall(c.0, c.1), k + 1)
    else if k + 1 < MaxSteps then March(m, px, py, ex, ey, k + 1)
    else Ray(d, TooFar, k + 1)
  }

  /** What a march establishes: the distance is at least one increment and
      at most Depth;
      every sample before the last one lies in an open cell of the map; the
      last sample explains the outcome. Leaving the map forces the distance
      to Depth, a wall hit reports the wall cell at the distance walked, and
      a march over open cells only ends after MaxSteps increments, exactly at
      Depth. */
  lemma {:induction false} MarchFacts(m: seq<char>, px: real, py: real, ex: real, ey: real, k: nat)
    requires ValidMap(m)
    requires k < MaxSteps
    ensures var r := March(m, px, py, ex, ey, k);
      && StepSize <= r.dist <= Depth
      && (forall j :: k < j < r.steps ==> SampleOpen(m, px, py, ex, ey, j))
      && (r.outcome.LeftMap? ==>
            r.dist == Depth
            && !InMap(SampleCell(px, py, ex, ey, r.steps).0, SampleCell(px, py, ex, ey, r.steps).1))
      && (r.outcome.HitWall? ==>
            r.dist == r.steps as real * StepSize
            && (r.outcome.cellX, r.outcome.cellY) == SampleCell(px, py, ex, ey, r.steps)
            && InMap(r.outcome.cellX, r.outcome.cellY)
            && m[CellIndex(r.outcome.cellX, r.outcome.cellY)] == '#')
      && (r.outcome.TooFar? ==>
            r.steps == MaxSteps && r.dist == Depth && SampleOpen(m, px, py, ex, ey, MaxSteps))
    decreases MaxSteps - k
  {
    var c := SampleCell(px, py, ex, ey, k + 1);
    if InMap(c.0, c.1) && m[CellIndex(c.0, c.1)] != '#' && k + 1 < MaxSteps {
      MarchFacts(m, px, py, ex, ey, k + 1);
      assert SampleOpen(m, px, py, ex, ey, k + 1);
    }
  }

  /** The march as main.cpp runs it: a loop adding StepSize to the distance
      while no wall is hit and the distance is below Depth. A sample off the
      map stops the march with the distance forced to Depth. The map is only
      read at cells inside it. The loop computes exactly the reference
      march; in particular the distance is at least one increment and at most
      Depth, and a
      march that leaves the map reports Depth. */
  method CastRay(m: seq<char>, px: real, py: real, ex: real, ey: real) returns (ray: Ray)
    requires ValidMap(m)
    ensures ray == March(m, px, py, ex, ey, 0)
    ensures StepSize <= ray.dist <= Depth
    ensures ray.outcome.LeftMap? ==> ray.dist == Depth
  {
    var dist := 0.0;
    var hit := false;
    var steps: nat := 0;
    var outcome := TooFar;
    while !hit && dist < Depth
      invariant steps <= MaxSteps
      invariant !hit ==> dist == steps as real * StepSize && outcome == TooFar
      invariant !hit && steps < MaxSteps ==> March(m, px, py, ex, ey, steps) == March(m, px, py, ex, ey, 0)
      invariant !hit && steps == MaxSteps ==> March(m, px, py, ex, ey, 0) == Ray(dist, TooFar, steps)
      invariant hit ==> March(m, px, py, ex, ey, 0) == Ray(dist, outcome, steps)
      decreases MaxSteps - steps
    {
      ghost var k := steps;
      assert k < MaxSteps;
      dist := dist + StepSize;
      steps := steps + 1;
      var test := SampleAt(px, py, ex, ey, dist);
      var testX, testY := test.0, test.1;
      SampleAtStep(px, py, ex, ey, dist, steps);
      if testX < 0 || testX >= MapWidth || testY < 0 || testY >= MapHeight {
        hit := true;
        dist := Depth;
        outcome := LeftMap;
        assert March(m, px, py, ex, ey, k) == Ray(dist, outcome, steps);
      } else if m[CellIndex(testX, testY)] == '#' {
        hit := true;
        outcome := HitWall(testX, testY);
        assert March(m, px, py, ex, ey, k) == Ray(dist, outcome, steps);
      } else if steps < MaxSteps {
        assert March(m, px, py, ex, ey, k) == March(m, px, py, ex, ey, steps);
      } else {
        assert March(m, px, py, ex, ey, k) == Ray(dist, TooFar, steps);
      }
    }
    ray := Ray(dist, outcome, steps);
    MarchFacts(m, px, py, ex, ey, 0);
  }
}
