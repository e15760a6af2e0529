/** Player state and the per-frame movement with wall collision: rotation by
    the A/D keys, then a forward (W) and a backward (S) step, each reverted
    whole when it would end in a wall cell. */
module Movement {
  import opened Config
  import opened Numeric
  import opened World

  /** Position in cells and facing angle in radians. */
  datatype Player = Player(x: real, y: real, a: real)

  /** The four intents sampled from the keyboard: A, D, W and S. */
  datatype Keys = Keys(left: bool, right: bool, forward: bool, back: bool)

  /** Turning rate in radians per second. */
  const TurnRate: real := Speed * 0.5

  /** The player stands in an open cell of the map. */
  predicate PlayerOpen(m: seq<char>, p: Player)
    requires ValidMap(m)
  {
    OpenAt(m, p.x, p.y)
  }

  /** Rotation: A turns left, then D turns right, by TurnRate * dt each.
      Only the angle changes; opposite keys cancel exactly. */
  function Rotate(p: Player, keys: Keys, dt: real): (q: Player)
    ensures q.x == p.x && q.y == p.y
    ensures keys.left == keys.right ==> q.a == p.a
    ensures keys.left && !keys.right ==> q.a == p.a - TurnRate * dt
    ensures keys.right && !keys.left ==> q.a == p.a + TurnRate * dt
    ensures 0.0 < dt && keys.left && !keys.right ==> q.a < p.a
    ensures 0.0 < dt && keys.right && !keys.left ==> q.a > p.a
  {
    var a1 := if keys.left then p.a - TurnRate * dt else p.a;
    var a2 := if keys.right then a1 + TurnRate * dt else a1;
    p.(a := a2)
  }

  /** One translation by (dx, dy) with collision: the step is applied, and
      undone again when the truncated new cell is a wall or off the map.
      The move is all-or-nothing and never changes the angle, and it never
      takes a player standing in an open cell out of one. */
  function TryMove(m: seq<char>, p: Player, dx: real, dy: real): (q: Player)
    requires ValidMap(m)
    ensures q.a == p.a
    ensures OpenAt(m, p.x + dx, p.y + dy) ==> q.x == p.x + dx && q.y == p.y + dy
    ensures !OpenAt(m, p.x + dx, p.y + dy) ==> q.x == p.x && q.y == p.y
    ensures PlayerOpen(m, p) ==> PlayerOpen(m, q)
  {
    var x1 := p.x + dx;
    var y1 := p.y + dy;
    if IsWall(m, Trunc(x1), Trunc(y1)) then p.(x := x1 - dx, y := y1 - dy)
    else p.(x := x1, y := y1)
  }

  /** The displacement of one frame's step along e = (sin a, cos a): it is
      parallel to e, and for a unit direction it points along e with length
      Speed * dt, whatever the direction. */
  function Stride(e: Vec, dt: real): (s: Vec)
    ensures s.x * e.y == s.y * e.x
    ensures e.x * e.x + e.y * e.y == 1.0 ==> s.x * e.x + s.y * e.y == Speed * dt
    ensures e.x * e.x + e.y * e.y == 1.0 ==> s.x * s.x + s.y * s.y == (Speed * dt) * (Speed * dt)
  {
    Vec(e.x * Speed * dt, e.y * Speed * dt)
  }

  /** W: step along the facing direction e. */
  function StepForward(m: seq<char>, p: Player, e: Vec, dt: real): (q: Player)
    requires ValidMap(m)
    ensures q.a == p.a
    ensures OpenAt(m, p.x + Stride(e, dt).x, p.y + Stride(e, dt).y)
            ==> q.x == p.x + Stride(e, dt).x && q.y == p.y + Stride(e, dt).y
    ensures !OpenAt(m, p.x + Stride(e, dt).x, p.y + Stride(e, dt).y) ==> q.x == p.x && q.y == p.y
    ensures PlayerOpen(m, p) ==> PlayerOpen(m, q)
  {
    TryMove(m, p, Stride(e, dt).x, Stride(e, dt).y)
  }

  /** S: step against the facing direction. */
  function StepBack(m: seq<char>, p: Player, e: Vec, dt: real): (q: Player)
    requires ValidMap(m)
    ensures q.a == p.a
    ensures OpenAt(m, p.x - Stride(e, dt).x, p.y - Stride(e, dt).y)
            ==> q.x == p.x - Stride(e, dt).x && q.y == p.y - Stride(e, dt).y
    ensures !OpenAt(m, p.x - Stride(e, dt).x, p.y - Stride(e, dt).y) ==> q.x == p.x && q.y == p.y
    ensures PlayerOpen(m, p) ==> PlayerOpen(m, q)
  {
    TryMove(m, p, -Stride(e, dt).x, -Stride(e, dt).y)
  }

  /** An accepted move from an open cell is undone exactly by the opposite
      move. */
  lemma MoveThenOppositeRestores(m: seq<char>, p: Player, dx: real, dy: real)
    requires ValidMap(m)
    requires PlayerOpen(m, p)
    requires OpenAt(m, p.x + dx, p.y + dy)
    ensures TryMove(m, TryMove(m, p, dx, dy), -dx, -dy) == p
  {
  }

  /** An accepted forward step from an open cell is undone exactly by a
      backward step with the same direction and frame time. */
  lemma ForwardThenBackRestores(m: seq<char>, p: Player, e: Vec, dt: real)
    requires ValidMap(m)
    requires PlayerOpen(m, p)
    requires OpenAt(m, p.x + Stride(e, dt).x, p.y + Stride(e, dt).y)
    ensures StepBack(m, StepForward(m, p, e, dt), e, dt) == p
  {
    MoveThenOppositeRestores(m, p, Stride(e, dt).x, Stride(e, dt).y);
  }

  /** W reverted by a blocked cell ahead leaves S alone to decide. */
  lemma BlockedAheadThenBack(m: seq<char>, p: Player, e: Vec, dt: real)
    requires ValidMap(m)
    requires !OpenAt(m, p.x + Stride(e, dt).x, p.y + Stride(e, dt).y)
    ensures StepBack(m, StepForward(m, p, e, dt), e, dt) == StepBack(m, p, e, dt)
  {
  }

  /** W and S held in the same frame: W first, then S, with the same
      direction and frame time. From an open cell with the cell ahead open
      the two steps cancel; with the cell ahead blocked W is reverted and S
      alone decides, stepping back when the cell behind is open and staying
      put otherwise. */
  function StepBoth(m: seq<char>, p: Player, e: Vec, dt: real): (q: Player)
    requires ValidMap(m)
    ensures q.a == p.a
    ensures PlayerOpen(m, p) && OpenAt(m, p.x + Stride(e, dt).x, p.y + Stride(e, dt).y) ==> q == p
    ensures !OpenAt(m, p.x + Stride(e, dt).x, p.y + Stride(e, dt).y)
            && OpenAt(m, p.x - Stride(e, dt).x, p.y - Stride(e, dt).y)
            ==> q.x == p.x - Stride(e, dt).x && q.y == p.y - Stride(e, dt).y
    ensures !OpenAt(m, p.x + Stride(e, dt).x, p.y + Stride(e, dt).y)
            && !OpenAt(m, p.x - Stride(e, dt).x, p.y - Stride(e, dt).y)
            ==> q.x == p.x && q.y == p.y
    ensures PlayerOpen(m, p) ==> PlayerOpen(m, q)
  {
    var q := StepBack(m, StepForward(m, p, e, dt), e, dt);
    if !OpenAt(m, p.x + Stride(e, dt).x, p.y + Stride(e, dt).y) then
      BlockedAheadThenBack(m, p, e, dt); q
    else if PlayerOpen(m, p) then
      ForwardThenBackRestores(m, p, e, dt); q
    else q
  }

  /** The W and S part of a frame for a fixed facing direction e. */
  function Walk(m: seq<char>, p: Player, keys: Keys, e: Vec, dt: real): (q: Player)
    requires ValidMap(m)
    ensures q.a == p.a
    ensures !keys.forward && !keys.back ==> q == p
    ensures keys.forward && !keys.back ==> q == StepForward(m, p, e, dt)
    ensures keys.back && !keys.forward ==> q == StepBack(m, p, e, dt)
    ensures keys.forward && keys.back ==> q == StepBoth(m, p, e, dt)
    ensures PlayerOpen(m, p) ==> PlayerOpen(m, q)
  {
    var f := if keys.forward then StepForward(m, p, e, dt) else p;
    if keys.back then StepBack(m, f, e, dt) else f
  }

  /** The whole movement part of a frame: rotation first, then W, then S,
      both steps along the direction `dir` gives for the rotated angle.
      The angle is the rotated one. Without W or S the position is kept;
      W alone (S alone) reaches the cell ahead (behind) when it is open and
      otherwise keeps the position; W and S together from an open cell,
      with the cell ahead open, end where they started, and with the cell
      ahead blocked behave as S alone. A player in an open cell stays in an
      open cell. */
  function UpdatePlayer(m: seq<char>, p: Player, keys: Keys, dt: real, dir: real -> Vec): (q: Player)
    requires ValidMap(m)
    ensures q.a == Rotate(p, keys, dt).a
    ensures !keys.forward && !keys.back ==> q.x == p.x && q.y == p.y
    ensures var s := Stride(dir(q.a), dt);
            keys.forward && !keys.back && OpenAt(m, p.x + s.x, p.y + s.y)
            ==> q.x == p.x + s.x && q.y == p.y + s.y
    ensures var s := Stride(dir(q.a), dt);
            keys.forward && !keys.back && !OpenAt(m, p.x + s.x, p.y + s.y)
            ==> q.x == p.x && q.y == p.y
    ensures var s := Stride(dir(q.a), dt);
            keys.back && !keys.forward && OpenAt(m, p.x - s.x, p.y - s.y)
            ==> q.x == p.x - s.x && q.y == p.y - s.y
    ensures var s := Stride(dir(q.a), dt);
            keys.back && !keys.forward && !OpenAt(m, p.x - s.x, p.y - s.y)
            ==> q.x == p.x && q.y == p.y
    ensures var s := Stride(dir(q.a), dt);
            keys.forward && keys.back && PlayerOpen(m, p) && OpenAt(m, p.x + s.x, p.y + s.y)
            ==> q.x == p.x && q.y == p.y
    ensures var s := Stride(dir(q.a), dt);
            keys.forward && keys.back && !OpenAt(m, p.x + s.x, p.y + s.y) && OpenAt(m, p.x - s.x, p.y - s.y)
            ==> q.x == p.x - s.x && q.y == p.y - s.y
    ensures var s := Stride(dir(q.a), dt);
            keys.forward && keys.back && !OpenAt(m, p.x + s.x, p.y + s.y) && !OpenAt(m, p.x - s.x, p.y - s.y)
            ==> q.x == p.x && q.y == p.y
    ensures PlayerOpen(m, p) ==> PlayerOpen(m, q)
  {
    var r := Rotate(p, keys, dt);
    Walk(m, r, keys, dir(r.a), dt)
  }

  /** The movement step exactly as main.cpp writes it: the unchecked flat
      index decides the collision. */
  function StepForwardAsWritten(m: seq<char>, p: Player, e: Vec, dt: real): (q: Player)
    requires ValidMap(m)
    ensures q.a == p.a
    ensures WallAtFlat(m, FlatIndex(p.x + Stride(e, dt).x, p.y + Stride(e, dt).y)) ==> q.x == p.x && q.y == p.y
    ensures !WallAtFlat(m, FlatIndex(p.x + Stride(e, dt).x, p.y + Stride(e, dt).y))
            ==> q.x == p.x + Stride(e, dt).x && q.y == p.y + Stride(e, dt).y
  {
    var s := Stride(e, dt);
    var x1 := p.x + s.x;
    var y1 := p.y + s.y;
    if WallAtFlat(m, FlatIndex(x1, y1)) then p.(x := x1 - s.x, y := y1 - s.y)
    else p.(x := x1, y := y1)
  }

  /** The backward step exactly as main.cpp writes it. */
  function StepBackAsWritten(m: seq<char>, p: Player, e: Vec, dt: real): (q: Player)
    requires ValidMap(m)
    ensures q.a == p.a
    ensures WallAtFlat(m, FlatIndex(p.x - Stride(e, dt).x, p.y - Stride(e, dt).y)) ==> q.x == p.x && q.y == p.y
    ensures !WallAtFlat(m, FlatIndex(p.x - Stride(e, dt).x, p.y - Stride(e, dt).y))
            ==> q.x == p.x - Stride(e, dt).x && q.y == p.y - Stride(e, dt).y
  {
    var s := Stride(e, dt);
    var x1 := p.x - s.x;
    var y1 := p.y - s.y;
    if WallAtFlat(m, FlatIndex(x1, y1)) then p.(x := x1 + s.x, y := y1 + s.y)
    else p.(x := x1, y := y1)
  }

  /** The source's steps and the checked ones agree whenever the target cell
      lies inside the map: the unchecked index then reads that very cell. */
  lemma AsWrittenAgreesInMap(m: seq<char>, p: Player, e: Vec, dt: real)
    requires ValidMap(m)
    ensures InMap(Trunc(p.x + Stride(e, dt).x), Trunc(p.y + Stride(e, dt).y))
            ==> StepForwardAsWritten(m, p, e, dt) == StepForward(m, p, e, dt)
    ensures InMap(Trunc(p.x - Stride(e, dt).x), Trunc(p.y - Stride(e, dt).y))
            ==> StepBackAsWritten(m, p, e, dt) == StepBack(m, p, e, dt)
  {
  }

  /** Walking backward at angle 0 from (16, 1) for 0.6 s passes over the
      border wall cell (16, 0) and lands at y = -2, outside the map. The
      unchecked index 16 * 32 - 2 is the cell (15, 30), which lies inside a
      map with a right border wall in column 31; when that cell is open the
      source accepts the move. */
  lemma AsWrittenBackLeavesMap(m: seq<char>)
    requires ValidMap(m)
    requires m[CellIndex(16, 0)] == '#'
    requires m[CellIndex(15, 31)] == '#'
    requires m[CellIndex(15, 30)] != '#'
    ensures var q := StepBackAsWritten(m, Player(16.0, 1.0, 0.0), Vec(0.0, 1.0), 0.6);
            q.y == -2.0 && !InMap(Trunc(q.x), Trunc(q.y))
  {
  }

  /** The same backward frame under the checked lookup is blocked. */
  lemma CheckedBackStaysInMap(m: seq<char>)
    requires ValidMap(m)
    requires m[CellIndex(16, 0)] == '#'
    ensures StepBack(m, Player(16.0, 1.0, 0.0), Vec(0.0, 1.0), 0.6) == Player(16.0, 1.0, 0.0)
  {
  }

  /** A long frame (half a second) walking at angle 0 from (16, 30.5) passes
      over the wall cell (16, 31) of the border and lands at y = 33, outside
      the map. The unchecked index 16 * 32 + 33 is the cell (17, 1); when that
      cell is open the source accepts the move. */
  lemma AsWrittenMoveLeavesMap(m: seq<char>)
    requires ValidMap(m)
    requires m[CellIndex(16, 31)] == '#'
    requires m[CellIndex(17, 1)] != '#'
    ensures var q := StepForwardAsWritten(m, Player(16.0, 30.5, 0.0), Vec(0.0, 1.0), 0.5);
            q.y == 33.0 && !InMap(Trunc(q.x), Trunc(q.y))
  {
  }

  /** The same frame under the checked lookup is blocked and the player
      stays where it was, inside the map. */
  lemma CheckedMoveStaysInMap(m: seq<char>)
    requires ValidMap(m)
    requires m[CellIndex(16, 31)] == '#'
    requires m[CellIndex(17, 1)] != '#'
    ensures StepForward(m, Player(16.0, 30.5, 0.0), Vec(0.0, 1.0), 0.5) == Player(16.0, 30.5, 0.0)
  {
  }
}
