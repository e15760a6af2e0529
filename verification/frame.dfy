/** Composition of one frame into the ScreenWidth x ScreenHeight character
    buffer, stored row-major: the scene column by column, then the minimap
    overlay and the player marker. */
module Frame {
  import opened Config
  import opened Numeric
  import opened World
  import opened Movement
  import opened RayCast
  import opened Shading

  /** Position of screen cell (col, row) in the buffer; it decodes back to
      the cell, so distinct cells never share a position. */
  function ScreenIndex(col: int, row: int): (k: nat)
    requires 0 <= col < ScreenWidth && 0 <= row < ScreenHeight
    ensures k < ScreenWidth * ScreenHeight
    ensures k % ScreenWidth == col && k / ScreenWidth == row
  {
    row * ScreenWidth + col
  }

  /** The row loop of one column. As in main.cpp a single shade variable
      holds the wall glyph and is overwritten by each floor row's glyph; the
      floor rows come after the last wall row, so every wall row still gets
      the wall glyph. Only column `col` changes. */
  method DrawColumn(screen: seq<char>, col: int, ceiling: int, floor: int, wallShade: char)
    returns (out: seq<char>)
    requires |screen| == ScreenWidth * ScreenHeight
    requires 0 <= col < ScreenWidth
    ensures |out| == ScreenWidth * ScreenHeight
    ensures forall y :: 0 <= y < ScreenHeight ==>
              out[ScreenIndex(col, y)] == CellGlyph(y, ceiling, floor, wallShade)
    ensures forall x, y :: 0 <= x < ScreenWidth && x != col && 0 <= y < ScreenHeight ==>
              out[ScreenIndex(x, y)] == screen[ScreenIndex(x, y)]
  {
    out := screen;
    var shade := wallShade;
    for y := 0 to ScreenHeight
      invariant |out| == ScreenWidth * ScreenHeight
      invariant y <= floor ==> shade == wallShade
      invariant forall y' :: 0 <= y' < y ==>
                  out[ScreenIndex(col, y')] == CellGlyph(y', ceiling, floor, wallShade)
      invariant forall x, y' :: 0 <= x < ScreenWidth && x != col && 0 <= y' < ScreenHeight ==>
                  out[ScreenIndex(x, y')] == screen[ScreenIndex(x, y')]
    {
      if y <= ceiling {
        out := out[ScreenIndex(col, y) := Blank];
      } else if y > ceiling && y <= floor {
        out := out[ScreenIndex(col, y) := shade];
      } else {
        shade := FloorShade(y);
        out := out[ScreenIndex(col, y) := shade];
      }
    }
  }

  /** The glyph the scene puts at (col, row): the column's ray is marched
      along `dir`, the unit direction (sin, cos) of its angle, and projected.
      `boundary` holds the edge flag of each column. */
  function SceneCell(m: seq<char>, p: Player, dir: real -> Vec, boundary: seq<bool>, col: int, row: int): char
    requires ValidMap(m)
    requires |boundary| == ScreenWidth
    requires 0 <= col < ScreenWidth
  {
    var e := dir(RayAngle(p.a, col));
    var r := March(m, p.x, p.y, e.x, e.y, 0);
    MarchFacts(m, p.x, p.y, e.x, e.y, 0);
    CellGlyph(row, Ceiling(r.dist), Floor(r.dist), WallShade(r.dist, boundary[col]))
  }

  /** The column loop: cast the ray of every column, project it and draw the
      column. Every cell of the buffer is overwritten, so nothing of the
      previous frame survives: the result depends only on the map, the
      player, the directions and the boundary flags. */
  method RenderScene(m: seq<char>, p: Player, dir: real -> Vec, boundary: seq<bool>, screen: seq<char>)
    returns (out: seq<char>)
    requires ValidMap(m)
    requires |boundary| == ScreenWidth
    requires |screen| == ScreenWidth * ScreenHeight
    ensures |out| == ScreenWidth * ScreenHeight
    ensures forall x, y :: 0 <= x < ScreenWidth && 0 <= y < ScreenHeight ==>
              out[ScreenIndex(x, y)] == SceneCell(m, p, dir, boundary, x, y)
  {
    out := screen;
    for x := 0 to ScreenWidth
      invariant |out| == ScreenWidth * ScreenHeight
      invariant forall x', y :: 0 <= x' < x && 0 <= y < ScreenHeight ==>
                  out[ScreenIndex(x', y)] == SceneCell(m, p, dir, boundary, x', y)
    {
      var rayAngle := RayAngle(p.a, x);
      var eye := dir(rayAngle);
      var ray := CastRay(m, p.x, p.y, eye.x, eye.y);
      var ceiling := Ceiling(ray.dist);
      var floor := Floor(ray.dist);
      var shade := WallShade(ray.dist, boundary[x]);
      out := DrawColumn(out, x, ceiling, floor, shade);
    }
  }

  /** The screen cells the minimap covers: columns 0..31 of rows 1..32. */
  predicate InMinimap(col: int, row: int)
  {
    0 <= col < MapWidth && 1 <= row <= MapWidth
  }

  /** The minimap overlay: map cell (ny, nx) is copied to screen column nx of
      row ny + 1. Every write lands inside the buffer and inside the minimap
      area; every other cell keeps its glyph. */
  method DrawMinimap(m: seq<char>, screen: seq<char>) returns (out: seq<char>)
    requires ValidMap(m)
    requires |screen| == ScreenWidth * ScreenHeight
    ensures |out| == ScreenWidth * ScreenHeight
    ensures forall nx, ny :: 0 <= nx < MapWidth && 0 <= ny < MapWidth ==>
              out[ScreenIndex(nx, ny + 1)] == m[CellIndex(ny, nx)]
    ensures forall x, y :: 0 <= x < ScreenWidth && 0 <= y < ScreenHeight && !InMinimap(x, y) ==>
              out[ScreenIndex(x, y)] == screen[ScreenIndex(x, y)]
  {
    out := screen;
    for nx := 0 to MapWidth
      invariant |out| == ScreenWidth * ScreenHeight
      invariant forall x, ny :: 0 <= x < nx && 0 <= ny < MapWidth ==>
                  out[ScreenIndex(x, ny + 1)] == m[CellIndex(ny, x)]
      invariant forall x, y :: 0 <= x < ScreenWidth && 0 <= y < ScreenHeight && !InMinimap(x, y) ==>
                  out[ScreenIndex(x, y)] == screen[ScreenIndex(x, y)]
    {
      for ny := 0 to MapWidth
        invariant |out| == ScreenWidth * ScreenHeight
        invariant forall x, ny' :: 0 <= x < nx && 0 <= ny' < MapWidth ==>
                    out[ScreenIndex(x, ny' + 1)] == m[CellIndex(ny', x)]
        invariant forall ny' :: 0 <= ny' < ny ==> out[ScreenIndex(nx, ny' + 1)] == m[CellIndex(ny', nx)]
        invariant forall x, y :: 0 <= x < ScreenWidth && 0 <= y < ScreenHeight && !InMinimap(x, y) ==>
                    out[ScreenIndex(x, y)] == screen[ScreenIndex(x, y)]
      {
        out := out[ScreenIndex(nx, ny + 1) := m[CellIndex(ny, nx)]];
      }
    }
  }

  /** The buffer position main.cpp writes the player marker to, computed
      from the truncated position without a check: row Trunc(px) + 1,
      column Trunc(py). For a player inside the map it is in the buffer. */
  function MarkerIndex(px: real, py: real): (k: int)
    ensures InMap(Trunc(px), Trunc(py)) ==> 0 <= k < ScreenWidth * ScreenHeight
    ensures InMap(Trunc(px), Trunc(py)) ==> k == ScreenIndex(Trunc(py), Trunc(px) + 1)
  {
    (Trunc(px) + 1) * ScreenWidth + Trunc(py)
  }

  /** When the player's cell (tx, ty) is inside the map, the marker lands in
      the buffer, inside the minimap, on the very cell that shows map cell
      (tx, ty). */
  lemma MarkerOnPlayersCell(px: real, py: real)
    requires InMap(Trunc(px), Trunc(py))
    ensures 0 <= MarkerIndex(px, py) < ScreenWidth * ScreenHeight
    ensures InMinimap(Trunc(py), Trunc(px) + 1)
    ensures MarkerIndex(px, py) == ScreenIndex(Trunc(py), Trunc(px) + 1)
  {
  }

  /** Writes 'P' on the minimap cell of the player's cell and nothing else. */
  function PlaceMarker(screen: seq<char>, px: real, py: real): (out: seq<char>)
    requires |screen| == ScreenWidth * ScreenHeight
    requires InMap(Trunc(px), Trunc(py))
    ensures |out| == |screen|
    ensures out[ScreenIndex(Trunc(py), Trunc(px) + 1)] == 'P'
    ensures forall x, y ::
              (0 <= x < ScreenWidth && 0 <= y < ScreenHeight && (x, y) != (Trunc(py), Trunc(px) + 1)) ==>
              out[ScreenIndex(x, y)] == screen[ScreenIndex(x, y)]
  {
    MarkerOnPlayersCell(px, py);
    screen[MarkerIndex(px, py) := 'P']
  }

  /** The overlay drawn over the scene: the minimap with 'P' on the cell of
      a player standing at (px, py) inside the map. Every cell outside the
      minimap keeps the scene's glyph. */
  method DrawOverlay(m: seq<char>, scene: seq<char>, px: real, py: real) returns (out: seq<char>)
    requires ValidMap(m)
    requires |scene| == ScreenWidth * ScreenHeight
    requires InMap(Trunc(px), Trunc(py))
    ensures |out| == ScreenWidth * ScreenHeight
    ensures out[ScreenIndex(Trunc(py), Trunc(px) + 1)] == 'P'
    ensures forall nx, ny :: 0 <= nx < MapWidth && 0 <= ny < MapWidth && (nx, ny) != (Trunc(py), Trunc(px)) ==>
              out[ScreenIndex(nx, ny + 1)] == m[CellIndex(ny, nx)]
    ensures forall x, y :: 0 <= x < ScreenWidth && 0 <= y < ScreenHeight && !InMinimap(x, y) ==>
              out[ScreenIndex(x, y)] == scene[ScreenIndex(x, y)]
  {
    var withMap := DrawMinimap(m, scene);
    out := PlaceMarker(withMap, px, py);
    MarkerOnPlayersCell(px, py);
    forall nx, ny | 0 <= nx < MapWidth && 0 <= ny < MapWidth && (nx, ny) != (Trunc(py), Trunc(px))
      ensures out[ScreenIndex(nx, ny + 1)] == m[CellIndex(ny, nx)]
    {
      assert out[ScreenIndex(nx, ny + 1)] == withMap[ScreenIndex(nx, ny + 1)];
    }
    forall x, y | 0 <= x < ScreenWidth && 0 <= y < ScreenHeight && !InMinimap(x, y)
      ensures out[ScreenIndex(x, y)] == scene[ScreenIndex(x, y)]
    {
      assert out[ScreenIndex(x, y)] == withMap[ScreenIndex(x, y)];
    }
  }

  /** The drawing half of a frame, for the player as moved by
      Movement.UpdatePlayer: render the scene, then draw the overlay. The
      minimap shows the map with 'P' on the player's cell; every cell
      outside the minimap shows the scene. */
  method RenderFrame(m: seq<char>, p: Player, dir: real -> Vec, boundary: seq<bool>, screen: seq<char>)
    returns (out: seq<char>)
    requires ValidMap(m)
    requires PlayerOpen(m, p)
    requires |boundary| == ScreenWidth
    requires |screen| == ScreenWidth * ScreenHeight
    ensures |out| == ScreenWidth * ScreenHeight
    ensures out[ScreenIndex(Trunc(p.y), Trunc(p.x) + 1)] == 'P'
    ensures forall nx, ny :: 0 <= nx < MapWidth && 0 <= ny < MapWidth && (nx, ny) != (Trunc(p.y), Trunc(p.x)) ==>
              out[ScreenIndex(nx, ny + 1)] == m[CellIndex(ny, nx)]
    ensures forall x, y :: 0 <= x < ScreenWidth && 0 <= y < ScreenHeight && !InMinimap(x, y) ==>
              out[ScreenIndex(x, y)] == SceneCell(m, p, dir, boundary, x, y)
  {
    var scene := RenderScene(m, p, dir, boundary, screen);
    out := DrawOverlay(m, scene, p.x, p.y);
  }
}
