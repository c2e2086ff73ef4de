/**
 * The immutable level grid (src/tron/Level.java): a rectangular map of
 * characters, two start cells and a display name.
 */
module Levels {
  import opened Geometry

  const WALL: char := '#'
  const DEFAULT_NAME: string := "Classic Arena"

  /**
   * `cells` is indexed cells[y][x]. Height and width are derived from the map as
   * the Java constructor computes them from its map (rows, and the length of row 0).
   */
  datatype Level = Level(cells: seq<seq<char>>, player1Start: Point, player2Start: Point, name: string)
  {
    /** A non-empty map whose rows all have the length of row 0. */
    predicate Valid() {
      |cells| > 0 && forall y :: 0 <= y < |cells| ==> |cells[y]| == |cells[0]|
    }

    function Height(): nat {
      |cells|
    }

    function Width(): nat
      requires Valid()
    {
      |cells[0]|
    }

    predicate InBounds(x: int, y: int)
      requires Valid()
    {
      0 <= x < Width() && 0 <= y < Height()
    }

    /** An in-bounds cell marked as a wall in the cells. */
    predicate IsWallCell(p: Point)
      requires Valid()
    {
      InBounds(p.0, p.1) && cells[p.1][p.0] == WALL
    }

    /** Total wall test: everything outside the grid counts as wall. */
    predicate IsWall(x: int, y: int)
      requires Valid()
      ensures !InBounds(x, y) ==> IsWall(x, y)
      ensures InBounds(x, y) ==> (IsWall(x, y) <==> cells[y][x] == WALL)
    {
      if x < 0 || y < 0 || x >= Width() || y >= Height() then true
      else cells[y][x] == WALL
    }

    /**
     * The interior wall cells, scanned row by row and left to right.
     */
    method GetWalls() returns (walls: seq<Point>)
      requires Valid()
      ensures forall p :: p in walls <==> IsWallCell(p)
      ensures forall i, j :: 0 <= i < j < |walls| ==> RowMajorBefore(walls[i], walls[j])
      ensures forall i, j :: 0 <= i < j < |walls| ==> walls[i] != walls[j]
      ensures forall p :: p in walls ==> IsWall(p.0, p.1)
      ensures |walls| <= Width() * Height()
    {
      walls := [];
      var y := 0;
      while y < Height()
        invariant 0 <= y <= Height()
        invariant forall p :: p in walls <==> IsWallCell(p) && p.1 < y
        invariant forall i, j :: 0 <= i < j < |walls| ==> RowMajorBefore(walls[i], walls[j])
        invariant |walls| <= y * Width()
      {
        var x := 0;
        while x < Width()
          invariant 0 <= x <= Width()
          invariant forall p :: p in walls <==> IsWallCell(p) && RowMajorBefore(p, (x, y))
          invariant forall i, j :: 0 <= i < j < |walls| ==> RowMajorBefore(walls[i], walls[j])
          invariant |walls| <= y * Width() + x
        {
          if cells[y][x] == WALL {
            walls := walls + [(x, y)];
          }
          x := x + 1;
        }
        assert y * Width() + Width() == (y + 1) * Width();
        y := y + 1;
      }
    }
  }

  /** The three-argument constructor: the level gets the default name. */
  function NewLevel(cells: seq<seq<char>>, p1Start: Point, p2Start: Point): (lv: Level)
    requires |cells| > 0 && forall y :: 0 <= y < |cells| ==> |cells[y]| == |cells[0]|
    ensures lv.Valid()
    ensures lv.Height() == |cells| && lv.Width() == |cells[0]|
    ensures lv.name == DEFAULT_NAME
    ensures lv.player1Start == p1Start && lv.player2Start == p2Start
    ensures forall x, y :: lv.InBounds(x, y) ==> (lv.IsWall(x, y) <==> cells[y][x] == WALL)
  {
    Level(cells, p1Start, p2Start, DEFAULT_NAME)
  }

  /** The four-argument constructor: as the three-argument one, then the name is replaced. */
  function NewNamedLevel(cells: seq<seq<char>>, p1Start: Point, p2Start: Point, name: string): (lv: Level)
    requires |cells| > 0 && forall y :: 0 <= y < |cells| ==> |cells[y]| == |cells[0]|
    ensures lv.Valid()
    ensures lv == NewLevel(cells, p1Start, p2Start).(name := name)
    ensures lv.name == name
  {
    NewLevel(cells, p1Start, p2Start).(name := name)
  }
}
