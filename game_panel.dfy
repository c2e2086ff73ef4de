/**
 * The simulation part of src/tron/GamePanel.java: two riders, two trails,
 * the tick that moves both and then judges collisions, and the key handler.
 * Rendering, the Swing timer, the clock and endGame's dialogs are not here.
 */
module Engine {
  import opened Wrappers
  import opened Geometry
  import opened Levels
  import opened Players

  /** The literal that checkCollisions writes into `winner` for a draw. */
  const DRAW: string := "Draw"

  // ---------------------------------------------------------------------------
  // Keys

  /** The eight control keys, and any other key. */
  datatype Key = KeyW | KeyA | KeyS | KeyD | ArrowUp | ArrowDown | ArrowLeft | ArrowRight | OtherKey

  datatype Seat = First | Second

  datatype Binding = Binding(seat: Seat, dir: Direction)

  /** WASD steers the first player, the arrow keys the second. */
  function KeyBinding(k: Key): (b: Option<Binding>)
    ensures b.None? <==> k == OtherKey
    ensures b.Some? && b.value.seat == First <==> k in {KeyW, KeyA, KeyS, KeyD}
  {
    match k
    case KeyW => Some(Binding(First, Up))
    case KeyS => Some(Binding(First, Down))
    case KeyA => Some(Binding(First, Left))
    case KeyD => Some(Binding(First, Right))
    case ArrowUp => Some(Binding(Second, Up))
    case ArrowDown => Some(Binding(Second, Down))
    case ArrowLeft => Some(Binding(Second, Left))
    case ArrowRight => Some(Binding(Second, Right))
    case OtherKey => None
  }

  /**
   * The heading of the rider in `seat` after key k is pressed while it heads
   * `current`: the key's direction if the key is this rider's and does not
   * reverse it, otherwise unchanged.
   */
  function Steered(seat: Seat, current: Direction, k: Key): (d: Direction)
    ensures d != Opposite(current)
    ensures d == current || KeyBinding(k) == Some(Binding(seat, d))
    ensures (KeyBinding(k).Some? && KeyBinding(k).value.seat == seat &&
             KeyBinding(k).value.dir != Opposite(current)) ==> d == KeyBinding(k).value.dir
  {
    match KeyBinding(k)
    case Some(Binding(s, want)) => if s == seat && want != Opposite(current) then want else current
    case None => current
  }

  // ---------------------------------------------------------------------------
  // Collision verdict

  /**
   * The winner checkCollisions leaves, given both post-move positions and
   * both already-extended trails; None when nobody crashed. Each check
   * overwrites the previous one: wall of rider 1, wall of rider 2, trail
   * hits, head-on.
   */
  function Verdict(lv: Level, name1: string, name2: string, pos1: Point, pos2: Point,
                   trail1: set<Point>, trail2: set<Point>): (w: Option<string>)
    requires lv.Valid()
    // head-on beats everything
    ensures pos1 == pos2 ==> w == Some(DRAW)
    // then trail hits, overriding any wall verdict
    ensures pos1 != pos2 && pos2 in trail1 && pos1 in trail2 ==> w == Some(DRAW)
    ensures pos1 != pos2 && pos2 in trail1 && pos1 !in trail2 ==> w == Some(name1)
    ensures pos1 != pos2 && pos2 !in trail1 && pos1 in trail2 ==> w == Some(name2)
    // then walls, rider 2's wall written last
    ensures pos1 != pos2 && pos2 !in trail1 && pos1 !in trail2 ==>
      w == (if lv.IsWall(pos2.0, pos2.1) then Some(name1)
            else if lv.IsWall(pos1.0, pos1.1) then Some(name2)
            else None)
    ensures w.None? <==>
      pos1 != pos2 && pos2 !in trail1 && pos1 !in trail2 &&
      !lv.IsWall(pos1.0, pos1.1) && !lv.IsWall(pos2.0, pos2.1)
  {
    var afterWall1 := if lv.IsWall(pos1.0, pos1.1) then Some(name2) else None;
    var afterWall2 := if lv.IsWall(pos2.0, pos2.1) then Some(name1) else afterWall1;
    var afterTrails :=
      if pos2 in trail1 || pos1 in trail2 then
        if pos2 in trail1 && pos1 in trail2 then Some(DRAW)
        else if pos2 in trail1 then Some(name1)
        else Some(name2)
      else afterWall2;
    if pos1 == pos2 then Some(DRAW) else afterTrails
  }

  /** Rider 1 is out this tick: wall, rider 2's trail, or head-on. */
  predicate FirstEliminated(lv: Level, pos1: Point, pos2: Point, trail2: set<Point>)
    requires lv.Valid()
  {
    lv.IsWall(pos1.0, pos1.1) || pos1 in trail2 || pos1 == pos2
  }

  /** Rider 2 is out this tick: wall, rider 1's trail, or head-on. */
  predicate SecondEliminated(lv: Level, pos1: Point, pos2: Point, trail1: set<Point>)
    requires lv.Valid()
  {
    lv.IsWall(pos2.0, pos2.1) || pos2 in trail1 || pos1 == pos2
  }

  /**
   * The symmetric rule, for comparison: both out is a draw,
   * one out makes the other the winner.
   */
  function SymmetricVerdict(lv: Level, name1: string, name2: string, pos1: Point, pos2: Point,
                         trail1: set<Point>, trail2: set<Point>): (w: Option<string>)
    requires lv.Valid()
    ensures w.None? <==> Verdict(lv, name1, name2, pos1, pos2, trail1, trail2).None?
  {
    var out1 := FirstEliminated(lv, pos1, pos2, trail2);
    var out2 := SecondEliminated(lv, pos1, pos2, trail1);
    if out1 && out2 then Some(DRAW)
    else if out1 then Some(name2)
    else if out2 then Some(name1)
    else None
  }

  /**
   * The code's verdict and the symmetric rule agree exactly when at most one
   * rider is out, or the crash is head-on, or both riders hit the other's
   * trail. Otherwise (both into walls, or one into a wall while the other hits
   * a trail) the code names a winner where the symmetric rule calls a draw.
   */
  lemma VerdictDiffersFromSymmetric(lv: Level, name1: string, name2: string, pos1: Point, pos2: Point,
                                 trail1: set<Point>, trail2: set<Point>)
    requires lv.Valid()
    requires name1 != DRAW && name2 != DRAW
    ensures Verdict(lv, name1, name2, pos1, pos2, trail1, trail2)
              == SymmetricVerdict(lv, name1, name2, pos1, pos2, trail1, trail2)
            <==>
            !(FirstEliminated(lv, pos1, pos2, trail2) && SecondEliminated(lv, pos1, pos2, trail1))
            || pos1 == pos2
            || (pos2 in trail1 && pos1 in trail2)
  {
  }

  /** Both riders into walls on the same tick: rider 1 is named, not a draw. */
  lemma BothWallsNameFirst(lv: Level, name1: string, name2: string, pos1: Point, pos2: Point,
                           trail1: set<Point>, trail2: set<Point>)
    requires lv.Valid()
    requires lv.IsWall(pos1.0, pos1.1) && lv.IsWall(pos2.0, pos2.1)
    requires pos1 != pos2 && pos2 !in trail1 && pos1 !in trail2
    ensures Verdict(lv, name1, name2, pos1, pos2, trail1, trail2) == Some(name1)
  {
  }

  /**
   * No rider is ever judged against its own trail: adding each rider's own
   * new cell to its own trail never changes the verdict.
   */
  lemma OwnTrailIgnored(lv: Level, name1: string, name2: string, pos1: Point, pos2: Point,
                        trail1: set<Point>, trail2: set<Point>)
    requires lv.Valid()
    ensures Verdict(lv, name1, name2, pos1, pos2, trail1 + {pos1}, trail2 + {pos2})
            == Verdict(lv, name1, name2, pos1, pos2, trail1, trail2)
  {
  }

  // ---------------------------------------------------------------------------
  // The game state

  class Game {
    var level: Level
    var player1: Player
    var player2: Player
    var trail1: set<Point>
    var trail2: set<Point>
    var gameOver: bool
    /** null until the game ends */
    var winner: Option<string>

    /** Two distinct riders on a well-formed level; a winner exactly when over. */
    ghost predicate Valid()
      reads this
    {
      player1 != player2 && level.Valid() && (gameOver <==> winner.Some?)
    }

    /** The state resetGame leaves: both riders on their starts, no trails, not over. */
    ghost predicate IsNewRound(name1: string, color1: Color, name2: string, color2: Color, lv: Level)
      reads this, player1, player2
    {
      && level == lv
      && player1.name == name1 && player1.color == color1
      && player1.position == lv.player1Start && player1.previousPosition == lv.player1Start
      && player1.direction == Right
      && player2.name == name2 && player2.color == color2
      && player2.position == lv.player2Start && player2.previousPosition == lv.player2Start
      && player2.direction == Left
      && trail1 == {} && trail2 == {}
      && !gameOver && winner == None
    }

    /** The panel's constructor, which starts with a reset. */
    constructor (name1: string, color1: Color, name2: string, color2: Color, lv: Level)
      requires lv.Valid()
      ensures Valid() && IsNewRound(name1, color1, name2, color2, lv)
      ensures fresh(player1) && fresh(player2)
    {
      level := lv;
      player1 := new Player(name1, color1, lv.player1Start, Right);
      player2 := new Player(name2, color2, lv.player2Start, Left);
      trail1, trail2 := {}, {};
      gameOver, winner := false, None;
    }

    /** Starts a new round on newLevel with fresh riders; nothing of the old round survives. */
    method ResetGame(name1: string, color1: Color, name2: string, color2: Color, newLevel: Level)
      requires newLevel.Valid()
      modifies this
      ensures Valid() && IsNewRound(name1, color1, name2, color2, newLevel)
      ensures fresh(player1) && fresh(player2)
    {
      level := newLevel;
      player1 := new Player(name1, color1, level.player1Start, Right);
      player2 := new Player(name2, color2, level.player2Start, Left);
      trail1 := {};
      trail2 := {};
      gameOver := false;
      winner := None;
    }

    /**
     * handleKeyPress: ignored once the game is over; otherwise each rider
     * takes the heading Steered gives for its own seat.
     */
    method HandleKeyPress(k: Key)
      requires Valid()
      modifies player1`direction, player2`direction
      ensures gameOver ==> player1.direction == old(player1.direction)
      ensures gameOver ==> player2.direction == old(player2.direction)
      ensures !gameOver ==> player1.direction == Steered(First, old(player1.direction), k)
      ensures !gameOver ==> player2.direction == Steered(Second, old(player2.direction), k)
    {
      if gameOver {
        return;
      }
      if k == KeyW && player1.direction != Down {
        player1.SetDirection(Up);
      }
      if k == KeyS && player1.direction != Up {
        player1.SetDirection(Down);
      }
      if k == KeyA && player1.direction != Right {
        player1.SetDirection(Left);
      }
      if k == KeyD && player1.direction != Left {
        player1.SetDirection(Right);
      }
      if k == ArrowUp && player2.direction != Down {
        player2.SetDirection(Up);
      }
      if k == ArrowDown && player2.direction != Up {
        player2.SetDirection(Down);
      }
      if k == ArrowLeft && player2.direction != Right {
        player2.SetDirection(Left);
      }
      if k == ArrowRight && player2.direction != Left {
        player2.SetDirection(Right);
      }
    }

    /**
     * movePlayer: one cell in the rider's heading; the cell it leaves joins
     * the trail, which loses nothing. The trail is handed back for the
     * caller to store, where Java adds to the set in place.
     */
    static method MovePlayer(player: Player, trail: set<Point>) returns (extended: set<Point>)
      modifies player`position, player`previousPosition
      ensures player.position == Step(old(player.position), player.direction)
      ensures player.previousPosition == old(player.position)
      ensures extended == trail + {old(player.position)}
    {
      var oldPos := player.position;
      var newPos := Step(oldPos, player.direction);
      player.SetPosition(newPos);
      extended := trail + {oldPos};
    }

    /** The verdict for the riders' current positions and trails. */
    ghost function CurrentVerdict(): Option<string>
      reads this, player1, player2
      requires Valid()
    {
      Verdict(level, player1.name, player2.name, player1.position, player2.position, trail1, trail2)
    }

    /**
     * checkCollisions: the checks in the Java order, each overwriting the
     * winner; a game already over stays over.
     */
    method CheckCollisions()
      requires Valid()
      modifies this`gameOver, this`winner
      ensures Valid()
      ensures old(CurrentVerdict()).Some? ==> gameOver && winner == old(CurrentVerdict())
      ensures old(CurrentVerdict()).None? ==> gameOver == old(gameOver) && winner == old(winner)
    {
      var p1Pos := player1.position;
      var p2Pos := player2.position;

      if level.IsWall(p1Pos.0, p1Pos.1) {
        gameOver := true;
        winner := Some(player2.name);
      }
      if level.IsWall(p2Pos.0, p2Pos.1) {
        gameOver := true;
        winner := Some(player1.name);
      }

      if p2Pos in trail1 || p1Pos in trail2 {
        gameOver := true;
        if p2Pos in trail1 && p1Pos in trail2 {
          winner := Some(DRAW);
        } else if p2Pos in trail1 {
          winner := Some(player1.name);
        } else {
          winner := Some(player2.name);
        }
      }

      if p1Pos == p2Pos {
        gameOver := true;
        winner := Some(DRAW);
      }
    }

    /**
     * actionPerformed: one tick. A finished game is frozen. Otherwise rider 1
     * moves, then rider 2, and only then are collisions judged, on both new
     * positions and both extended trails.
     */
    method ActionPerformed()
      requires Valid()
      modifies this, player1, player2
      ensures Valid()
      ensures player1 == old(player1) && player2 == old(player2) && level == old(level)
      ensures player1.direction == old(player1.direction)
      ensures player2.direction == old(player2.direction)
      ensures old(gameOver) ==>
        && gameOver && winner == old(winner)
        && trail1 == old(trail1) && trail2 == old(trail2)
        && player1.position == old(player1.position)
        && player2.position == old(player2.position)
        && player1.previousPosition == old(player1.previousPosition)
        && player2.previousPosition == old(player2.previousPosition)
      ensures !old(gameOver) ==>
        && player1.position == Step(old(player1.position), player1.direction)
        && player2.position == Step(old(player2.position), player2.direction)
        && player1.previousPosition == old(player1.position)
        && player2.previousPosition == old(player2.position)
        && trail1 == old(trail1) + {old(player1.position)}
        && trail2 == old(trail2) + {old(player2.position)}
        && winner == Verdict(level, player1.name, player2.name,
                             player1.position, player2.position, trail1, trail2)
        && gameOver == winner.Some?
    {
      if gameOver {
        return;
      }
      trail1 := MovePlayer(player1, trail1);
      trail2 := MovePlayer(player2, trail2);
      CheckCollisions();
    }
  }
}
