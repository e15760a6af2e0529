# ConFPS raycaster — a Dafny model

ConFPS renders a first-person view of a 32×32 tile map into a 120×40
console character buffer. Each frame it turns and moves the player, and
a move into a wall cell is reverted. It then casts one ray per screen
column with a fixed-step march and turns the hit distance into a vertical
wall slab. The slab is shaded by distance band, and the floor is shaded
by screen row. Last, it overlays a minimap with a `P` on the player's
cell.

This project models the per-frame body of `main` in `main.cpp` as pure
functions and small methods. The map, the player and the screen are
passed in explicitly. C++ `float` becomes `real`. A C++ `(int)` cast
becomes `Numeric.Trunc`, which truncates toward zero. `sin`/`cos` are not
computed: a ray or a step takes a unit direction `(ex, ey)`, and the
frame functions take `dir: real -> Vec`, which stands for
`a ↦ (sin a, cos a)`.

Modules, following the order of the frame:

- `Config`: constants (screen 120×40, map 32×32, FOV, depth 32, speed 5,
  and the ray step 0.1, which the source keeps as a local of the column
  loop).
- `Numeric`: truncation toward zero and the `Vec` pair.
- `World`: the map as a row-major `seq<char>` indexed `x * 32 + y`. It
  has the checked wall test (a cell off the map is blocked) and the
  unchecked flat lookup that the movement code performs.
- `Movement`: rotation (A/D), then the forward (W) and backward (S)
  steps. Each step is reverted whole when it would end in a wall.
- `RayCast`: the ray angle of a column, the reference march `March`, and
  the loop `CastRay`, which is proved equal to it.
- `Shading`: the ceiling and floor rows, the wall glyph by distance band,
  the floor glyph by row, and the row classification.
- `Frame`: the column row loop, the column loop, the minimap, the marker,
  and the drawing half of a frame.

Three behaviours of the code:

- The code does not clamp the ceiling row. It needs no clamp: the row
  loop runs over `[0, 40)`, so a negative ceiling only makes the whole
  column wall (`Shading.CeilingOnScreen`).
- The boundary test looks at the three nearest corners of the hit cell.
  It is not modelled; see below.
- Over reals, `320 × 0.1 = 32` exactly. So a march over open cells ends
  at exactly the depth. A wall hit on the 320th step also reports the
  depth. "Distance equals the depth" therefore does not mean "the ray
  left the map". What holds is stated in `RayCast.MarchFacts`: leaving
  the map forces the depth, and every other outcome reports the distance
  walked.

## Model

| member | source | states |
|---|---|---|
| Numeric.Trunc | main.cpp:136-137 | the `(int)` cast truncates toward zero: for r ≥ 0 it is the largest integer ≤ r; for r < 0 it is the smallest integer ≥ r |
| Numeric.TruncInRange | main.cpp:136-140 | a truncated coordinate is in [0, n) exactly when the real one is in (-1, n), so the strip (-1, 0) passes the bounds test as cell 0 |
| World.CellIndex | main.cpp:148 | the index x·32 + y of an in-map cell is inside the map string and decodes back to (x, y), so distinct cells never share an index |
| World.FlatLookupAgreesInMap | main.cpp:100 | when the truncated position is inside the map, the movement code's unchecked lookup agrees with the checked wall test |
| World.FlatIndex | main.cpp:100 | for a position whose cell is inside the map, the movement code's unchecked index `(int)x·32 + (int)y` lies in the map string and decodes back to that cell's row `(int)x` and column `(int)y` |
| World.WallAtFlat | main.cpp:100 | inside the map string the flat wall test is the checked wall test of the cell the index decodes to; outside the string it never blocks, while the checked test always does |
| World.FlatLookupAliases | main.cpp:100 | column 32 + j of row cx lies off the map, yet its unchecked index is that of cell (cx + 1, j) of the next row |
| Movement.Rotate | main.cpp:89-93 | rotation changes only the angle: A subtracts and D adds 2.5·dt (speed × 0.5), so together they cancel exactly; with dt > 0, A alone decreases the angle and D alone increases it |
| Movement.TryMove | main.cpp:96-116 | a step is all-or-nothing: it lands on the target when the target's cell is open, otherwise the position is exactly unchanged; the angle never changes; a player in an open cell stays in one |
| Movement.Stride | main.cpp:98-99 | one frame's step is parallel to the direction (x stays with x, y with y); for a unit direction it points along it with length 5·dt whatever the angle |
| Movement.StepForward | main.cpp:96-105 | W keeps the angle; it reaches the point one stride ahead when that cell is open, and leaves the position exactly unchanged when the cell is a wall or off the map; it keeps the player in an open cell |
| Movement.StepBack | main.cpp:107-116 | S keeps the angle; it reaches the point one stride behind when that cell is open, and leaves the position exactly unchanged when the cell is a wall or off the map; it keeps the player in an open cell |
| Movement.MoveThenOppositeRestores | main.cpp:96-116 | an accepted move from an open cell, followed by the opposite move, returns exactly to the start |
| Movement.ForwardThenBackRestores | main.cpp:96-116 | an accepted W step followed by an S step with the same direction and frame time returns exactly to the start |
| Movement.Walk | main.cpp:96-116 | the W and S part of a frame for a fixed direction: with neither key the player is kept; W alone is `StepForward`, S alone is `StepBack`, both together are `StepBoth`; a player in an open cell stays in one |
| Movement.StepBoth | main.cpp:96-116 | W then S in one frame: from an open cell with the cell ahead open the position is restored exactly; with the cell ahead blocked W is reverted and the result is S's step back when the cell behind is open, the start otherwise; the angle is kept and an open cell stays open |
| Movement.UpdatePlayer | main.cpp:88-116 | a frame's movement ends at the rotated angle; without W or S the position is kept; W alone reaches the open cell one stride ahead along the rotated direction, or stays put when it is blocked; S alone does the same one stride behind; W and S together from an open cell with an open cell ahead end where they started, and with the cell ahead blocked W is reverted and S still steps back when the cell behind is open, or the position is kept when it is not; a player in an open cell stays in an open cell |
| Movement.StepForwardAsWritten | main.cpp:96-105 | the source's W step: reverted exactly when the unchecked flat index reads a `#`, otherwise moved to the target |
| Movement.StepBackAsWritten | main.cpp:107-116 | the source's S step: reverted exactly when the unchecked flat index reads a `#`, otherwise moved to the target |
| Movement.AsWrittenAgreesInMap | main.cpp:96-116 | whenever the target cell is inside the map, the source's W and S steps with the unchecked index give exactly the checked steps, so the two differ only for targets off the map |
| Movement.AsWrittenBackLeavesMap | main.cpp:109-111 | a 0.6 s S frame from (16, 1) at angle 0 jumps over the border wall to y = −2, outside the map, on any map with walls at (16, 0) and (15, 31) whose cell (15, 30) is open, as in the program's own map |
| Movement.CheckedBackStaysInMap | main.cpp:109-111 | under the checked lookup the same S frame is blocked by the border wall and the player stays put |
| Movement.AsWrittenMoveLeavesMap | main.cpp:98-100 | a 0.5 s W frame from (16, 30.5) at angle 0 jumps over the border wall to y = 33, outside the map, when map cell (17, 1) is open |
| Movement.CheckedMoveStaysInMap | main.cpp:96-104 | the same frame under the checked lookup is blocked, and the player stays at (16, 30.5) |
| RayCast.RayAngle | main.cpp:122 | column `col` looks at an angle in [a − FOV/2, a + FOV/2) |
| RayCast.RayAngleIncreasing | main.cpp:122 | ray angles increase strictly from left to right, by FOV/120 per column |
| RayCast.CentreColumnLooksAhead | main.cpp:122 | column 60 looks exactly along the player's angle |
| RayCast.March | main.cpp:133-150 | a march continued after k increments ends after more than k and at most 320 increments |
| RayCast.MarchFacts | main.cpp:133-150 | the distance is in [0.1, depth], so positive; every sample before the last is an open in-map cell; leaving the map gives exactly the depth and the last sample is off the map; a wall hit reports that wall cell at distance steps × 0.1; a march over open cells only ends after 320 increments at exactly the depth |
| RayCast.CastRay | main.cpp:125-150 | the loop terminates and computes the reference march; it reads the map only at in-map cells; the distance is in [0.1, depth]; leaving the map gives the depth |
| Shading.Ceiling | main.cpp:177 | for any positive distance the last void row lies strictly above the middle row 20 |
| Shading.Floor | main.cpp:178 | the last wall row lies strictly below the middle row and mirrors the ceiling row |
| Shading.CeilingMonotone | main.cpp:177-178 | a further wall's ceiling row is never smaller and its floor row never larger, so its slab is never taller |
| Shading.CeilingOnScreen | main.cpp:177 | the ceiling row is on the screen (≥ 0) exactly when the distance exceeds 40/21; any closer wall fills the column |
| Shading.WallShade | main.cpp:181-187 | the wall glyph is █ up to D/4, ▓ below D/3, ▒ below D/2, ░ below D; it is blank exactly on a boundary column or at distance D and beyond |
| Shading.WallShadeMonotone | main.cpp:181-187 | with the boundary flag fixed, a larger distance never gives a denser wall glyph |
| Shading.FloorShade | main.cpp:199-204 | a floor glyph is visible (non-blank) exactly on rows 23 and further down |
| Shading.FloorShadeByRow | main.cpp:199-204 | the real-valued floor bands in whole rows: `#` from row 36, `x` on 31–35, `.` on 26–30, `-` on 23–25, blank on row 22 and above |
| Shading.FloorShadeMonotone | main.cpp:199-204 | lower rows get an equal or denser floor glyph |
| Shading.FloorRowWithinDepth | main.cpp:177-178 | for every distance up to the depth the floor row is at least 22, so floor glyphs start at row 23 at the earliest |
| Shading.Classify | main.cpp:192-196 | the rows split into three disjoint kinds: void exactly up to the ceiling row, wall exactly after it up to the floor row, floor exactly after both |
| Shading.CellGlyph | main.cpp:192-205 | a row gets blank above the slab, the wall glyph on the slab, and below it the floor glyph of its own row, which is blank exactly down to row 22 |
| Shading.ColumnLayout | main.cpp:190-206 | for any positive distance the middle row is a wall row; a non-wall row above it is void and a non-wall row below it is floor |
| Frame.ScreenIndex | main.cpp:193 | the buffer index y·120 + x of a screen cell is inside the buffer and decodes back to (x, y) |
| Frame.DrawColumn | main.cpp:190-207 | although the source reuses one shade variable for wall and floor glyphs, each row gets exactly its class's glyph: blank above the slab, the wall glyph on the slab, the row's floor glyph below; other columns are untouched |
| Frame.RenderScene | main.cpp:119-208 | every cell of the buffer is overwritten with the glyph its column's ray, slab and shade give, so nothing of the previous frame survives |
| Frame.DrawMinimap | main.cpp:215-219 | map cell (ny, nx) is copied to screen column nx of row ny + 1; all writes land in rows 1–32 and columns 0–31; every other cell is untouched |
| Frame.MarkerIndex | main.cpp:220 | for a player inside the map, the unchecked marker index lies in the buffer, at row (int)x + 1, column (int)y |
| Frame.MarkerOnPlayersCell | main.cpp:220 | for a player inside the map, the marker index is in the buffer and inside the minimap, on the cell that shows the player's own map cell |
| Frame.PlaceMarker | main.cpp:220 | writes `P` on the player's minimap cell and changes no other cell |
| Frame.DrawOverlay | main.cpp:214-220 | after the overlay, the minimap shows the map with `P` on the player's cell, and every cell outside the minimap keeps the scene's glyph |
| Frame.RenderFrame | main.cpp:118-220 | a frame drawn for a player in an open cell: `P` on the player's minimap cell, the map on the rest of the minimap, and the scene everywhere else |

## Left out

- Console creation, activation and output (main.cpp:36-39, 224): platform I/O. The model produces the buffer as a `seq<char>`.
- Keyboard polling (main.cpp:89-107): the four keys are the booleans of `Movement.Keys`.
- Frame timing and the endless loop (main.cpp:77-86, 80): the frame time `dt` is a parameter. `Frame.RenderFrame` draws for a player already moved by `Movement.UpdatePlayer`; the loop that chains the two is not modelled.
- `sin`/`cos`: the direction of an angle is an input (`Vec` or `dir`). Only the direction and length statements of `Movement.Stride` assume it is a unit vector.
- The stats line (main.cpp:211): float formatting through a library call. It writes only row 0, which the minimap (rows 1–32) does not touch.
- Boundary-corner detection (main.cpp:153-171): it needs `sqrt`, `acos` and a float threshold. The per-column boundary flag is an input (`boundary`) to the shading.
- IEEE float rounding: over reals the revert of a blocked step is exact, and 320 steps of 0.1 reach exactly 32. For C++ floats neither need hold: 320 float steps of 0.1f end near 32.00008, not 32. Likewise, in floats row 22 gives b = 0.9f, just below 0.9, so the source's floor glyph for row 22 is `-` where the model's is blank. This never shows: row 22 is never a floor row (`Shading.FloorRowWithinDepth`).
- The literal map (main.cpp:43-74): the map is any 32×32 string.
- Frame.PlaceMarker, Frame.DrawOverlay: require the player's cell to be inside the map. The source writes the marker unchecked; with the checked movement the player always stays in an open in-map cell.
- Frame.RenderFrame: requires the player to stand in an open cell (inside the map and not `#`), the invariant the checked movement keeps. The source draws for any position.
- World.WallAtFlat: a flat index that is negative or above the map size 1024 is read as "not a wall". In the source it is an out-of-bounds read with undefined behaviour. Index 1024 itself reads the string's terminator, which is not a wall.

## Findings

| source | as written | input that shows it | evidently intended | confidence | as-written member | corrected member |
|---|---|---|---|---|---|---|
| main.cpp:100 | the W/S collision test reads the map at the flat index `(int)x * 32 + (int)y`, with no bounds check | a 0.5 s frame holding W at angle 0 from (16, 30.5): the target y = 33 lies past the border wall cell (16, 31). Its flat index 545 is map cell (17, 1); when that cell is open the move is accepted and the player leaves the map | a target cell outside the map is blocked, as the ray march treats it | medium; not executed | Movement.AsWrittenMoveLeavesMap | Movement.TryMove |
| main.cpp:111 | the S collision test uses the same unchecked flat index | a 0.6 s frame holding S at angle 0 from (16, 1): the target y = −2 lies past the border wall cell (16, 0). Its flat index 510 is map cell (15, 30), which is open on the program's map (main.cpp:58), so the move is accepted and the player leaves the map | a target cell outside the map is blocked | medium; not executed | Movement.AsWrittenBackLeavesMap | Movement.TryMove |
