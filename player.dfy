/**
 * A light-cycle rider (src/tron/Player.java): a name and colour fixed at
 * construction, and a position, previous position and direction that the
 * game updates in place.
 */
module Players {
  import opened Geometry

  /** java.awt.Color; carried along, never consulted by the game rules. */
  datatype Color = Color(red: int, green: int, blue: int)

  class Player {
    const name: string
    const color: Color
    var position: Point
    /** Points are values here, so this is always a copy, never an alias of position. */
    var previousPosition: Point
    var direction: Direction

    constructor (name: string, color: Color, start: Point, dir: Direction)
      ensures this.name == name && this.color == color
      ensures position == start && previousPosition == start
      ensures direction == dir
    {
      this.name := name;
      this.color := color;
      position := start;
      previousPosition := start;
      direction := dir;
    }

    /** Changes the heading and nothing else. */
    method SetDirection(d: Direction)
      modifies this`direction
      ensures direction == d
    {
      direction := d;
    }

    /** Moves to p, remembering the cell it leaves. Heading, name and colour stay. */
    method SetPosition(p: Point)
      modifies this`position, this`previousPosition
      ensures previousPosition == old(position)
      ensures position == p
    {
      previousPosition := position;
      position := p;
    }
  }
}
