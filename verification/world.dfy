/** The world map: a row-major string of MapWidth x MapHeight cells, '#' for a
    wall. A cell is addressed by (cx, cy) and stored at cx * MapWidth + cy. */
module World {
  import opened Config
  import opened Numeric

  /** A map of the fixed size; its contents are arbitrary. */
  predicate ValidMap(m: seq<char>)
  {
    |m| == MapWidth * MapHeight
  }

  /** The cell (cx, cy) lies inside the map. */
  predicate InMap(cx: int, cy: int)
  {
    0 <= cx < MapWidth && 0 <= cy < MapHeight
  }

  /** Position of cell (cx, cy) in the map string. The index decodes back to
      the cell, so distinct cells never share a position. */
  function CellIndex(cx: int, cy: int): (k: nat)
    requires InMap(cx, cy)
    ensures k < MapWidth * MapHeight
    ensures k / MapWidth == cx && k % MapWidth == cy
  {
    cx * MapWidth + cy
  }

  /** Wall test with the out-of-map fallback: a cell outside the map is
      treated as blocked, as the ray march treats it. */
  predicate IsWall(m: seq<char>, cx: int, cy: int)
    requires ValidMap(m)
  {
    !InMap(cx, cy) || m[CellIndex(cx, cy)] == '#'
  }

  /** The real position (x, y) lies in an open cell of the map. */
  predicate OpenAt(m: seq<char>, x: real, y: real)
    requires ValidMap(m)
  {
    !IsWall(m, Trunc(x), Trunc(y))
  }

  /** The unchecked flat index the movement code computes from a position.
      For a position inside the map it lies in the map string and decodes
      back to the row and column of the position's cell. */
  function FlatIndex(x: real, y: real): (k: int)
    ensures InMap(Trunc(x), Trunc(y))
            ==> 0 <= k < MapWidth * MapHeight && k / MapWidth == Trunc(x) && k % MapWidth == Trunc(y)
  {
    Trunc(x) * MapWidth + Trunc(y)
  }

  /** The movement code's wall test on a flat index. Index |m| reads the
      string's terminator, which is not '#'. Any other index outside the
      string, negative or above |m|, is undefined behaviour in the source and
      is read here as not a wall. Inside the string the test is the checked
      wall test of the cell the index decodes to; outside it the flat test
      never blocks, while the checked test always does. */
  predicate WallAtFlat(m: seq<char>, k: int)
    ensures ValidMap(m) && 0 <= k < |m| ==> (WallAtFlat(m, k) <==> IsWall(m, k / MapWidth, k % MapWidth))
    ensures !(0 <= k < |m|) ==> !WallAtFlat(m, k)
  {
    0 <= k < |m| && m[k] == '#'
  }

  /** Inside the map the unchecked lookup and the checked one agree. */
  lemma FlatLookupAgreesInMap(m: seq<char>, x: real, y: real)
    requires ValidMap(m)
    requires InMap(Trunc(x), Trunc(y))
    ensures WallAtFlat(m, FlatIndex(x, y)) <==> IsWall(m, Trunc(x), Trunc(y))
  {
  }

  /** Outside the map the unchecked lookup can alias another cell: column
      MapHeight + j of row cx, which lies off the map, has the index of cell
      (cx + 1, j) of the next row. */
  lemma FlatLookupAliases(cx: int, j: int)
    requires 0 <= cx < MapWidth - 1
    requires 0 <= j < MapHeight
    ensures !InMap(cx, MapHeight + j)
    ensures FlatIndex(cx as real, (MapHeight + j) as real) == CellIndex(cx + 1, j)
  {
  }
}
