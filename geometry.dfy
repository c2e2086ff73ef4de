/**
 * Grid coordinates and the four movement directions of the light-cycle game
 * (java.awt.Point and src/tron/Direction.java).
 */
module Geometry {

  /** A cell (x, y) in grid units; nothing bounds it, bounds are the level's business. */
  type Point = (int, int)

  datatype Direction = Up | Down | Left | Right

  predicate Horizontal(d: Direction) {
    d == Left || d == Right
  }

  /** The direction that would reverse a cycle onto the cell it just left. */
  function Opposite(d: Direction): (o: Direction)
    ensures o != d
    ensures Horizontal(o) == Horizontal(d)
  {
    match d
    case Up => Down
    case Down => Up
    case Left => Right
    case Right => Left
  }

  function Abs(n: int): nat {
    if n < 0 then -n else n
  }

  /** Number of unit moves between two cells. */
  function Manhattan(p: Point, q: Point): nat {
    Abs(q.0 - p.0) + Abs(q.1 - p.1)
  }

  /** The cell one move away from p in direction d (screen coordinates: Up decreases y). */
  function Step(p: Point, d: Direction): (q: Point)
    ensures Manhattan(p, q) == 1
    ensures q.1 == p.1 <==> Horizontal(d)
    ensures q.1 < p.1 <==> d == Up
    ensures q.0 < p.0 <==> d == Left
  {
    match d
    case Up => (p.0, p.1 - 1)
    case Down => (p.0, p.1 + 1)
    case Left => (p.0 - 1, p.1)
    case Right => (p.0 + 1, p.1)
  }

  /** Stepping back the opposite way returns to the start cell. */
  lemma StepOppositeUndoes(p: Point, d: Direction)
    ensures Step(Step(p, d), Opposite(d)) == p
  {
  }

  /** Strict row-major order: earlier row, or same row and earlier column. */
  predicate RowMajorBefore(p: Point, q: Point) {
    p.1 < q.1 || (p.1 == q.1 && p.0 < q.0)
  }
}
