/** Projection of a wall distance onto a screen column, and the glyphs used
    for walls (by distance) and for the floor (by screen row). */
module Shading {
  import opened Config
  import opened Numeric

  /** Wall glyphs from densest to lightest, and the blank cell. */
  const Solid: char := '\U{2588}'
  const Dark: char := '\U{2593}'
  const Medium: char := '\U{2592}'
  const Light: char := '\U{2591}'
  const Blank: char := ' '

  /** Density rank of a wall glyph: 4 for the densest, 0 for anything else. */
  function WallDensity(g: char): nat
  {
    if g == Solid then 4
    else if g == Dark then 3
    else if g == Medium then 2
    else if g == Light then 1
    else 0
  }

  /** Density rank of a floor glyph: '#' > 'x' > '.' > '-' > anything else. */
  function FloorDensity(g: char): nat
  {
    if g == '#' then 4
    else if g == 'x' then 3
    else if g == '.' then 2
    else if g == '-' then 1
    else 0
  }

  /** Last blank row above the wall slab of a wall at distance d: the
      truncation of H/2 - H/d. Since d is positive it lies strictly above
      the middle row of the screen (it may be negative for a close wall). */
  function Ceiling(d: real): (c: int)
    requires 0.0 < d
    ensures c < ScreenHeight / 2
  {
    var q := ScreenHeight as real / d;
    assert q * d == ScreenHeight as real;
    Trunc(ScreenHeight as real / 2.0 - q)
  }

  /** Last wall row of the slab: the mirror image of the ceiling, so it lies
      strictly below the middle row. */
  function Floor(d: real): (f: int)
    requires 0.0 < d
    ensures f > ScreenHeight / 2
    ensures f + Ceiling(d) == ScreenHeight
  {
    ScreenHeight - Ceiling(d)
  }

  /** A further wall never has a lower ceiling, so its slab is never taller. */
  lemma CeilingMonotone(d1: real, d2: real)
    requires 0.0 < d1 <= d2
    ensures Ceiling(d1) <= Ceiling(d2)
    ensures Floor(d2) <= Floor(d1)
  {
    var q1, q2 := ScreenHeight as real / d1, ScreenHeight as real / d2;
    assert q1 * d1 == ScreenHeight as real && q2 * d2 == ScreenHeight as real;
    assert q2 <= q1;
    TruncMonotone(ScreenHeight as real / 2.0 - q1, ScreenHeight as real / 2.0 - q2);
  }

  /** The ceiling row lies on the screen exactly when the wall is further
      than 40/21 cells; any closer wall fills the whole column. */
  lemma CeilingOnScreen(d: real)
    requires 0.0 < d
    ensures 0 <= Ceiling(d) <==> d > 40.0 / 21.0
  {
    var q := ScreenHeight as real / d;
    assert q * d == 40.0;
    TruncInRange(20.0 - q, ScreenHeight);
    assert q < 21.0 <==> d > 40.0 / 21.0;
  }

  /** Wall glyph for a column: chosen by distance band against Depth/4,
      Depth/3, Depth/2 and Depth, then blanked out on a boundary column. The
      glyph is blank exactly on a boundary column or at Depth and beyond. */
  function WallShade(d: real, boundary: bool): (g: char)
    ensures boundary ==> g == Blank
    ensures g == Blank <==> boundary || d >= Depth
    ensures !boundary && d <= Depth / 4.0 ==> g == Solid
    ensures !boundary && Depth / 4.0 < d < Depth / 3.0 ==> g == Dark
    ensures !boundary && Depth / 3.0 <= d < Depth / 2.0 ==> g == Medium
    ensures !boundary && Depth / 2.0 <= d < Depth ==> g == Light
  {
    var shade :=
      if d <= Depth / 4.0 then Solid
      else if d < Depth / 3.0 then Dark
      else if d < Depth / 2.0 then Medium
      else if d < Depth then Light
      else Blank;
    if boundary then Blank else shade
  }

  /** With the boundary flag fixed, a further wall is never drawn denser. */
  lemma WallShadeMonotone(d1: real, d2: real, boundary: bool)
    requires d1 <= d2
    ensures WallDensity(WallShade(d2, boundary)) <= WallDensity(WallShade(d1, boundary))
  {
  }

  /** Floor glyph for screen row y, from b = 1 - (y - H/2) / (H/2) against
      the thresholds 0.25, 0.5, 0.75 and 0.9; independent of any distance. */
  function FloorShade(y: int): (g: char)
    ensures FloorDensity(g) > 0 <==> y > 22
  {
    var half := ScreenHeight as real / 2.0;
    var b := 1.0 - ((y as real - half) / half);
    if b < 0.25 then '#'
    else if b < 0.5 then 'x'
    else if b < 0.75 then '.'
    else if b < 0.9 then '-'
    else ' '
  }

  /** The floor bands in screen rows: '#' from row 36 on, 'x' on rows 31-35,
      '.' on 26-30, '-' on 23-25 and blank on row 22 and above. */
  lemma FloorShadeByRow(y: int)
    ensures FloorShade(y) == '#' <==> y >= 36
    ensures FloorShade(y) == 'x' <==> 31 <= y <= 35
    ensures FloorShade(y) == '.' <==> 26 <= y <= 30
    ensures FloorShade(y) == '-' <==> 23 <= y <= 25
    ensures FloorShade(y) == ' ' <==> y <= 22
  {
  }

  /** Lower rows get an equal or denser floor glyph. */
  lemma FloorShadeMonotone(y1: int, y2: int)
    requires y1 <= y2
    ensures FloorDensity(FloorShade(y1)) <= FloorDensity(FloorShade(y2))
  {
    FloorShadeByRow(y1);
    FloorShadeByRow(y2);
  }

  /** Within the rendering depth the floor row is at least 22, so the
      floor glyphs start at row 23 at the earliest and row 22, where the
      blank and '-' bands meet, is never drawn as floor. */
  lemma FloorRowWithinDepth(d: real)
    requires 0.0 < d <= Depth
    ensures Floor(d) >= 22
  {
    CeilingMonotone(d, Depth);
    assert Ceiling(Depth) == 18;
  }

  /** The three kinds of row in a column, top to bottom. */
  datatype RowKind = VoidRow | WallRow | FloorRow

  /** Row y is void up to and including the ceiling row, wall up to and
      including the floor row, and floor below: the three kinds partition
      the rows. */
  function Classify(y: int, ceiling: int, floor: int): (k: RowKind)
    ensures k == VoidRow <==> y <= ceiling
    ensures k == WallRow <==> ceiling < y <= floor
    ensures k == FloorRow <==> ceiling < y && floor < y
  {
    if y <= ceiling then VoidRow
    else if y <= floor then WallRow
    else FloorRow
  }

  /** Glyph of row y of a column with the given slab and wall glyph: blank
      above the slab, the wall glyph on it, and below it a floor glyph that
      depends on the row alone and is blank exactly down to row 22. */
  function CellGlyph(y: int, ceiling: int, floor: int, wallShade: char): (g: char)
    ensures y <= ceiling ==> g == Blank
    ensures ceiling < y <= floor ==> g == wallShade
    ensures ceiling < y && floor < y ==> g == FloorShade(y) && (g == Blank <==> y <= 22)
  {
    match Classify(y, ceiling, floor)
    case VoidRow => Blank
    case WallRow => wallShade
    case FloorRow => FloorShade(y)
  }

  /** For any positive distance the middle row of the screen is a wall row,
      every row above the slab is void and every row below it is floor: the
      slab is never empty and the column reads void, wall, floor from the top. */
  lemma ColumnLayout(d: real, y: int)
    requires 0.0 < d
    ensures Classify(ScreenHeight / 2, Ceiling(d), Floor(d)) == WallRow
    ensures y < ScreenHeight / 2 && Classify(y, Ceiling(d), Floor(d)) != WallRow
            ==> Classify(y, Ceiling(d), Floor(d)) == VoidRow
    ensures y > ScreenHeight / 2 && Classify(y, Ceiling(d), Floor(d)) != WallRow
            ==> Classify(y, Ceiling(d), Floor(d)) == FloorRow
  {
  }
}
