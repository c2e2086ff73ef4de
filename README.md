# Light-cycle game engine, modelled in Dafny

A model of the simulation core of a two-player light-cycle ("Tron") game
written in Java with Swing. Two riders move one cell per timer tick in one
of four directions, each leaving a permanent trail; a rider crashes into a
wall (everything outside the grid counts as wall), into the other rider's
trail, or head-on into the other rider. The model covers:

- `geometry.dfy` (module `Geometry`): cells as integer pairs, the four
  directions, their opposites, the one-cell step, row-major order.
- `level.dfy` (module `Levels`): the immutable level (`src/tron/Level.java`)
  as a datatype: its rectangular character map, the total wall test, the
  enumeration of wall cells (a loop, as in the Java code) and the two
  constructors.
- `level_loader.dfy` (module `LevelLoading`): `loadLevel` from the moment the
  file's lines are in hand (nested loops that copy the map, clear the start
  markers `'1'`/`'2'` and remember the last marker of each rider), and the
  level-name derivation from the file path (a loop over the `_`/`-`
  separated pieces of the base name).
- `player.dfy` (module `Players`): the rider as a class whose position,
  previous position and heading are updated in place.
- `game_panel.dfy` (module `Engine`): the game state of `GamePanel` as a
  class: reset, the key handler with its no-reversal rule, the per-rider
  move, the collision check and the tick.
- `wrappers.dfy`: `Option` (Java's `null`) and `Result` (an exception).

The collision check writes `gameOver`/`winner` in a sequence of `if`s, each
overwriting the previous verdict: rider 1's wall, rider 2's wall, the trail
hits, head-on. `Engine.Verdict` is that sequence; its postconditions give the
resulting priority (head-on, then trail hits, then rider 2's wall, then
rider 1's wall). The model follows the code. It states the symmetric rule
(both riders out is a draw) separately as `Engine.SymmetricVerdict`, and
`Engine.VerdictDiffersFromSymmetric` proves exactly when the two disagree: both riders
out, not head-on, and not both on the other's trail (for example both into
walls, where the code names rider 1). Likewise, since a rider is never judged
against its own trail (`Engine.OwnTrailIgnored`), a rider can run back over
its own trail, so after N quiet ticks a trail holds at most N cells, not
always N; `Engine.Game.ActionPerformed` states the exact growth per tick.

The winner is a string, with the literal `"Draw"` as the draw marker, as in
the Java code: a rider who is named `Draw` is indistinguishable from a draw.
A level is a datatype value, so nothing can change it after construction,
as in `Level.java`, whose methods only read its fields.
`Player` positions are values (integer pairs), so the Java code's defensive
`new Point(...)` copies are implied: a previous position is never an alias of
the current one.

## Model

| member | source | states |
|---|---|---|
| `Geometry.Opposite` | src/tron/GamePanel.java:135-160 | the blocked direction of each key is a different direction on the same axis |
| `Geometry.Step` | src/tron/GamePanel.java:163-172 | a move covers exactly one cell; it keeps the row exactly for Left/Right; y decreases only for Up and x only for Left |
| `Geometry.StepOppositeUndoes` | src/tron/GamePanel.java:167-172 | stepping the opposite way returns to the cell just left |
| `Levels.Level.IsWall` | src/tron/Level.java:65-68 | every cell outside [0,width)×[0,height) is a wall whatever the map holds; inside, a wall exactly when the cell is `'#'` |
| `Levels.Level.GetWalls` | src/tron/Level.java:95-105 | the result holds exactly the in-bounds `'#'` cells, in strict row-major order, each once, each satisfying `IsWall`, at most width×height of them |
| `Levels.NewLevel` | src/tron/Level.java:25-32 | height is the number of rows, width the length of row 0, the starts are the given ones, the name is "Classic Arena", walls are the `'#'` cells |
| `Levels.NewNamedLevel` | src/tron/Level.java:42-45 | the same level as the three-argument constructor except for the given name |
| `LevelLoading.Player2Default` | src/tron/LevelLoader.java:62 | rider 2's fallback start is rider 1's fallback (5,5) mirrored through the centre of the grid |
| `LevelLoading.StartOr` | src/tron/LevelLoader.java:61-62 | a start that was found is kept; a missing one (`null`) becomes the fallback |
| `LevelLoading.Unmark` | src/tron/LevelLoader.java:47-56 | a start marker becomes open floor `' '`, so a copied cell is never a marker, and every other character is copied unchanged |
| `LevelLoading.LoadLevel` | src/tron/LevelLoader.java:37-66 | no lines fails; a line shorter than the first fails; a file name without `'.'` fails; otherwise the level has one row per line, width of the first line, each cell the line's character with markers cleared, each start at its rider's last marker in row-major order (never a wall) or else (5,5) resp. (width-6, height-6), and the name derived from the path |
| `LevelLoading.ScanLines` | src/tron/LevelLoader.java:43-58 | the outer loop fails exactly when some line is shorter than the first; otherwise every line is copied and every marker has been seen |
| `LevelLoading.GridCopiedIsLevel` | src/tron/LevelLoader.java:37-47 | the fully copied grid has one row per line, each exactly as wide as the first line, so every line was long enough |
| `LevelLoading.ScanRow` | src/tron/LevelLoader.java:44-57 | one row of the scan: fails exactly when the row is shorter than the first line; otherwise copies its first width characters with markers cleared and extends the last-marker knowledge to the whole row |
| `LevelLoading.ScanStep` | src/tron/LevelLoader.java:46-56 | visiting one cell makes it the latest marker seen when it holds the marker, and keeps the record otherwise |
| `LevelLoading.RowDone` | src/tron/LevelLoader.java:45-57 | having scanned to the end of a row is having scanned every cell before the next row |
| `LevelLoading.MarkScanComplete` | src/tron/LevelLoader.java:43-62 | after the last row, no marker found means the map has none, and the marker found is the last one |
| `LevelLoading.ScanGivesParse` | src/tron/LevelLoader.java:43-66 | the copied grid with the found or fallback starts is the parse of the lines |
| `LevelLoading.MarkedCellIsOpen` | src/tron/LevelLoader.java:48-56 | a cell that held a start marker is not a wall in the loaded level |
| `LevelLoading.FileName` | src/tron/LevelLoader.java:78 | the file name is a suffix of the path that holds no `'/'` and is either the whole path or preceded by a `'/'`, so it starts right after the last `'/'` |
| `LevelLoading.LastIndexOf` | src/tron/LevelLoader.java:79 | the index holds the character and no later index does; -1 when absent |
| `LevelLoading.Split` | src/tron/LevelLoader.java:82 | there is at least one piece, and no piece holds `'_'` or `'-'` |
| `LevelLoading.SplitCountsSeparators` | src/tron/LevelLoader.java:82 | there is one more piece than there are separators |
| `LevelLoading.SplitWithoutSeparator` | src/tron/LevelLoader.java:82 | a text without separators is a single piece, the text itself |
| `LevelLoading.SplitAtSeparator` | src/tron/LevelLoader.java:82 | every separator is a cut: the pieces of `a + [c] + b` are the pieces of `a` followed by the pieces of `b`, which with the single-piece case fixes every cut |
| `LevelLoading.SplitLosesOnlySeparators` | src/tron/LevelLoader.java:82 | the pieces put back together give the text with only its separators removed |
| `LevelLoading.DropTrailingEmpty` | src/tron/LevelLoader.java:82 | a prefix of the pieces, everything dropped is empty, and the last piece kept is not empty |
| `LevelLoading.SplitPieces` | src/tron/LevelLoader.java:82 | `split("[_-]")`: a text without separators comes back whole; otherwise the pieces between separators with the empty ones at the end dropped, so none is left there; no piece holds a separator |
| `LevelLoading.JoinedIgnoresTrailingEmpty` | src/tron/LevelLoader.java:82-90 | dropping empty pieces at the end does not change the builder's text |
| `LevelLoading.LowerCase` | src/tron/LevelLoader.java:87 | same length, each character lower-cased |
| `LevelLoading.TrimStart` | src/tron/LevelLoader.java:91 | a suffix of the text, everything dropped is at most U+0020, and it starts with a character above U+0020 unless empty |
| `LevelLoading.Trim` | src/tron/LevelLoader.java:91 | at most as long as the text, and neither starts nor ends with a character at or below U+0020 |
| `LevelLoading.TrimIsMiddle` | src/tron/LevelLoader.java:91 | the trimmed text is the slice of the text that starts where the leading blanks end, and everything removed before and after that slice is at or below U+0020, so only leading and trailing blanks go |
| `LevelLoading.SliceOfSuffix` | src/tron/LevelLoader.java:91 | cutting blanks off the front and then off the back leaves a middle slice of the original text |
| `LevelLoading.TrimKeepsTrimmed` | src/tron/LevelLoader.java:91 | a text that already starts and ends above U+0020 is returned unchanged |
| `LevelLoading.TrimEnd` | src/tron/LevelLoader.java:91 | a prefix of the text, everything dropped is at most U+0020, and it ends with a character above U+0020 unless empty |
| `LevelLoading.ToUpper` | src/tron/LevelLoader.java:86 | the result is never a lower-case ASCII letter: `a`-`z` go to the letter at the same place in `A`-`Z` and every other character is kept, so a separator stays one and nothing else becomes one |
| `LevelLoading.ToLower` | src/tron/LevelLoader.java:87 | the result is never an upper-case ASCII letter: `A`-`Z` go to the letter at the same place in `a`-`z` and every other character is kept, so a separator stays one and nothing else becomes one |
| `LevelLoading.Piece` | src/tron/LevelLoader.java:85-89 | an empty piece adds nothing; otherwise one character more than the piece: its first character upper-cased, the others lower-cased, then a space |
| `LevelLoading.Joined` | src/tron/LevelLoader.java:83-90 | the builder's text is empty exactly when every piece is empty, and otherwise ends with a space |
| `LevelLoading.BuildName` | src/tron/LevelLoader.java:83-90 | the builder loop's text is the concatenation, in order, of each non-empty piece with its first character upper-cased, the rest lower-cased, and a space; empty pieces add nothing |
| `LevelLoading.JoinedStep` | src/tron/LevelLoader.java:84-90 | one more piece through the builder appends exactly that piece's text |
| `LevelLoading.NameFromPath` | src/tron/LevelLoader.java:76-92 | deriving a name fails, with the missing-extension error, exactly when the file name has no `'.'` |
| `LevelLoading.LevelNameFromPath` | src/tron/LevelLoader.java:76-92 | the name is the trimmed builder text for the pieces of the file name cut at its last `'.'`, or the failure when there is no `'.'` |
| `LevelLoading.NameHasNoSeparators` | src/tron/LevelLoader.java:82-91 | a derived name never contains `'_'` or `'-'` |
| `LevelLoading.JoinedHasNoSeparators` | src/tron/LevelLoader.java:84-90 | appending capitalised separator-free pieces never introduces a separator |
| `LevelLoading.PieceHasNoSeparator` | src/tron/LevelLoader.java:86-88 | a capitalised separator-free piece with its space holds no separator |
| `LevelLoading.AppendKeepsNoSeparator` | src/tron/LevelLoader.java:86-88 | appending two separator-free texts gives a separator-free text |
| `LevelLoading.SliceKeepsNoSeparator` | src/tron/LevelLoader.java:91 | any slice of a separator-free text is separator-free |
| `LevelLoading.TrimKeepsNoSeparator` | src/tron/LevelLoader.java:91 | trimming a separator-free text leaves it separator-free |
| `LevelLoading.NameIsTrimmed` | src/tron/LevelLoader.java:91 | a derived name neither starts nor ends with a blank |
| `Players.Player.constructor` | src/tron/Player.java:25-31 | name, colour and heading as given; position and previous position both the start |
| `Players.Player.SetDirection` | src/tron/Player.java:62 | only the heading changes, to the given one |
| `Players.Player.SetPosition` | src/tron/Player.java:68-71 | the previous position becomes the old position and the position the given one; nothing else changes |
| `Engine.KeyBinding` | src/tron/GamePanel.java:134-160 | WASD are exactly the first rider's keys, the arrows the second's, other keys steer nobody |
| `Engine.Steered` | src/tron/GamePanel.java:135-160 | a key never turns a rider into its opposite heading; a rider's heading changes only to its own key's direction, and always does when that is not a reversal |
| `Engine.Verdict` | src/tron/GamePanel.java:178-209 | head-on is always "Draw"; otherwise both on the other's trail is "Draw", one on the other's trail names the trail's owner over any wall; otherwise rider 2 into a wall names rider 1 even if rider 1 also hit a wall, then rider 1 into a wall names rider 2; no verdict exactly when no wall, trail or head-on hit |
| `Engine.SymmetricVerdict` | src/tron/GamePanel.java:178-209 | the symmetric rule ends the game in exactly the same situations as the code |
| `Engine.VerdictDiffersFromSymmetric` | src/tron/GamePanel.java:183-209 | the code's verdict equals the symmetric rule exactly when at most one rider is out, or head-on, or both hit the other's trail |
| `Engine.BothWallsNameFirst` | src/tron/GamePanel.java:183-190 | both riders into walls, with no trail or head-on hit, names rider 1 |
| `Engine.OwnTrailIgnored` | src/tron/GamePanel.java:192-203 | adding a rider's own new cell to its own trail never changes the verdict |
| `Engine.Game.constructor` | src/tron/GamePanel.java:42-52 | a new panel is in the reset state |
| `Engine.Game.ResetGame` | src/tron/GamePanel.java:73-83 | fresh riders on the level's starts, rider 1 heading Right and rider 2 Left, both trails empty, not over, no winner |
| `Engine.Game.HandleKeyPress` | src/tron/GamePanel.java:129-161 | once over, no heading changes; otherwise each rider's heading becomes `Steered` for its seat |
| `Engine.Game.MovePlayer` | src/tron/GamePanel.java:163-176 | the rider steps one cell in its heading, remembers the old cell, and the trail gains the old cell and loses nothing |
| `Engine.Game.CheckCollisions` | src/tron/GamePanel.java:178-211 | a verdict ends the game with that winner; no verdict leaves `gameOver` and `winner` as they were |
| `Engine.Game.ActionPerformed` | src/tron/GamePanel.java:222-234 | a finished game is frozen (positions, trails, winner); otherwise both riders move one cell, each trail gains exactly its rider's old cell, headings stay, and the winner is `Verdict` of both new positions and both extended trails, with `gameOver` set exactly when there is one |

## Left out

- Rendering and UI plumbing in `GamePanel` (`paintComponent`, `drawTrail`, `drawPlayer`, the Swing timer, `repaint`, focus and key listeners): presentation only. Raw key events become the `Key` datatype.
- `endGame`: the modal dialogs, the score update, `System.exit` and reloading a level; the model ends with `gameOver` and `winner` set.
- Elapsed time (`System.currentTimeMillis`): cosmetic, not part of the rules.
- Score storage (`DatabaseManager`): SQL I/O. Its `updateScore` ignores a null, blank or `"Draw"` winner, so a rider named `Draw` never gets a win recorded.
- Dialogs and the window (`GameOverDialog`, `StartDialog`, `HighScoreDialog`, `GameFrame`): UI.
- Reading the level file: `LevelLoading.LoadLevel` takes the file's lines as input; `Paths.get(...).getFileName()` is modelled as the text after the last `'/'`.
- `LevelLoading.FileName`: a path that ends in `'/'` gives the empty file name here, so deriving a name from it fails. `Paths.get` first drops trailing and repeated `'/'`, so the Java code names `a/b.txt/` "B". Only `'/'` is a separator, as on Unix.
- Strings are sequences of Unicode scalar values. Java's `length()`, `charAt`, `lastIndexOf` and `trim` count UTF-16 code units. A level line or file name that holds a character outside the Basic Multilingual Plane therefore gets a different width, different column indices and different cut points in the Java code (LevelLoader.java:38, 46, 79).
- `LevelLoading.ToUpper`: maps ASCII letters only (Java's `Character.toUpperCase` also maps other alphabets); other characters are left as they are.
- `LevelLoading.ToLower`: maps ASCII letters only, for the same reason. `String.toLowerCase` also depends on the default locale: under a Turkish or Azeri locale the Java code turns `'I'` into `'ı'` (U+0131), which the model does not.
- `LevelLoading.LoadLevel`: the error records which exception kind was thrown, not the message or the offending row.
- `Levels.NewLevel`: requires a non-empty rectangular map. Java throws on an empty map (`map[0]`), and it accepts ragged rows, on which `isWall` could throw; the loader never builds either.
- `Levels.NewNamedLevel`: requires a non-empty rectangular map, for the same reason.
- Getters of `Player` and `Level`: fields are read directly (`name`, `color`, `position`, `previousPosition`, `direction`, `player1Start`, `player2Start`, `name`), with `Width()` and `Height()` computed from the map; reading a field has no side effect.
- Colours: carried as a `Color` value and never consulted.
- Concurrency: the key handler and the timer both run on Swing's event thread; the model is sequential.
- Integer width: coordinates are unbounded integers; a Java `int` cannot overflow in play, since the first step outside the grid ends the game.
