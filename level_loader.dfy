/**
 * Turning the lines of a level file into a Level (src/tron/LevelLoader.java).
 * The file is not read here: its lines and its path are the inputs.
 */
module LevelLoading {
  import opened Wrappers
  import opened Geometry
  import opened Levels

  /** The exceptions loadLevel can throw once the lines are in hand. */
  datatype LoadError =
    | NoLines      // lines.get(0) on an empty file
    | RowTooShort  // row.charAt(x) past the end of a row shorter than row 0
    | NoExtension  // substring(0, -1) when the file name has no '.'

  const PLAYER1_MARK: char := '1'
  const PLAYER2_MARK: char := '2'
  const OPEN: char := ' '
  const PLAYER1_DEFAULT: Point := (5, 5)

  /** Player 2's fallback start: player 1's fallback mirrored through the centre of the grid. */
  function Player2Default(width: int, height: int): (p: Point)
    ensures p.0 + PLAYER1_DEFAULT.0 == width - 1
    ensures p.1 + PLAYER1_DEFAULT.1 == height - 1
  {
    (width - 6, height - 6)
  }

  // ---------------------------------------------------------------------------
  // The grid

  /** Every line is at least as long as the first one. */
  predicate RowsLongEnough(lines: seq<string>)
    requires |lines| > 0
  {
    forall y :: 0 <= y < |lines| ==> |lines[y]| >= |lines[0]|
  }

  /** What the map keeps of a character: start markers become open floor. */
  function Unmark(c: char): (m: char)
    ensures m != PLAYER1_MARK && m != PLAYER2_MARK
    ensures c == PLAYER1_MARK || c == PLAYER2_MARK ==> m == OPEN
    ensures c != PLAYER1_MARK && c != PLAYER2_MARK ==> m == c
  {
    if c == PLAYER1_MARK || c == PLAYER2_MARK then OPEN else c
  }

  /** Cell (x, y) lies in the first `width` columns of the lines and holds c. */
  predicate Marked(lines: seq<string>, width: nat, c: char, p: Point) {
    0 <= p.1 < |lines| && 0 <= p.0 < width && p.0 < |lines[p.1]| && lines[p.1][p.0] == c
  }

  /** Some cell within the first `width` columns holds c. */
  ghost predicate HasMark(lines: seq<string>, width: nat, c: char) {
    exists p: Point :: Marked(lines, width, c, p)
  }

  /** p is the last cell holding c in row-major order. */
  ghost predicate IsLastMark(lines: seq<string>, width: nat, c: char, p: Point) {
    Marked(lines, width, c, p) &&
    forall q: Point :: Marked(lines, width, c, q) ==> q == p || RowMajorBefore(q, p)
  }

  /**
   * What the scan knows about the marker c after visiting every cell before
   * `upTo` in row-major order: the last one seen so far, or none.
   */
  ghost predicate ScannedMark(lines: seq<string>, width: nat, c: char, found: Option<Point>, upTo: Point) {
    match found
    case None =>
      forall q: Point :: Marked(lines, width, c, q) && RowMajorBefore(q, upTo) ==> false
    case Some(p) =>
      Marked(lines, width, c, p) && RowMajorBefore(p, upTo) &&
      forall q: Point :: Marked(lines, width, c, q) && RowMajorBefore(q, upTo) ==> q == p || RowMajorBefore(q, p)
  }

  /** The start a scan settles on: the marker found, or the fallback. */
  function StartOr(found: Option<Point>, fallback: Point): (s: Point)
    ensures found.Some? ==> s == found.value
    ensures found.None? ==> s == fallback
  {
    match found
    case Some(p) => p
    case None => fallback
  }

  /**
   * lv is what loadLevel builds from the lines: the first `width` characters
   * of every line with the markers cleared, and each player's start at its
   * last marker (never a wall), or at the fallback when there is none.
   */
  ghost predicate IsParse(lines: seq<string>, lv: Level) {
    && lv.Valid()
    && lv.Height() == |lines|
    && lv.Width() == |lines[0]|
    && RowsLongEnough(lines)
    && (forall x, y :: lv.InBounds(x, y) ==> lv.cells[y][x] == Unmark(lines[y][x]))
    && (HasMark(lines, lv.Width(), PLAYER1_MARK) ==>
          IsLastMark(lines, lv.Width(), PLAYER1_MARK, lv.player1Start) &&
          !lv.IsWall(lv.player1Start.0, lv.player1Start.1))
    && (!HasMark(lines, lv.Width(), PLAYER1_MARK) ==> lv.player1Start == PLAYER1_DEFAULT)
    && (HasMark(lines, lv.Width(), PLAYER2_MARK) ==>
          IsLastMark(lines, lv.Width(), PLAYER2_MARK, lv.player2Start) &&
          !lv.IsWall(lv.player2Start.0, lv.player2Start.1))
    && (!HasMark(lines, lv.Width(), PLAYER2_MARK) ==>
          lv.player2Start == Player2Default(lv.Width(), lv.Height()))
  }

  /**
   * loadLevel from the point where the lines have been read: copy the first
   * `width` characters of every line into the map, turn the markers into
   * open cells, keep the last marker of each player as its start, fall back
   * to the default starts, and name the level after its file.
   */
  method LoadLevel(filePath: string, lines: seq<string>) returns (r: Result<Level, LoadError>)
    ensures |lines| == 0 ==> r == Failure(NoLines)
    ensures |lines| > 0 && !RowsLongEnough(lines) ==> r == Failure(RowTooShort)
    ensures |lines| > 0 && RowsLongEnough(lines) && NameFromPath(filePath).Failure? ==>
      r == Failure(NoExtension)
    ensures |lines| > 0 && RowsLongEnough(lines) && NameFromPath(filePath).Success? ==> r.Success?
    ensures r.Success? ==> IsParse(lines, r.value) && r.value.name == NameFromPath(filePath).value
  {
    if |lines| == 0 {
      return Failure(NoLines);
    }
    var grid, p1Start, p2Start := ScanLines(lines);
    if grid.None? {
      return Failure(RowTooShort);
    }
    var name := LevelNameFromPath(filePath);
    if name.Failure? {
      return Failure(name.error);
    }
    var width, height := |lines[0]|, |lines|;
    GridCopiedIsLevel(lines, width, grid.value);
    var lv := NewNamedLevel(grid.value, StartOr(p1Start, PLAYER1_DEFAULT),
                            StartOr(p2Start, Player2Default(width, height)), name.value);
    ScanGivesParse(lines, lv, p1Start, p2Start);
    return Success(lv);
  }

  /**
   * The nested loops of loadLevel: every row in turn, stopping at the first
   * row too short to read (None).
   */
  method ScanLines(lines: seq<string>) returns (grid: Option<seq<seq<char>>>, p1Start: Option<Point>, p2Start: Option<Point>)
    requires |lines| > 0
    ensures grid.None? <==> !RowsLongEnough(lines)
    ensures grid.Some? ==>
      && GridCopied(lines, |lines[0]|, grid.value) && |grid.value| == |lines|
      && ScannedMark(lines, |lines[0]|, PLAYER1_MARK, p1Start, (0, |lines|))
      && ScannedMark(lines, |lines[0]|, PLAYER2_MARK, p2Start, (0, |lines|))
  {
    var height := |lines|;
    var width := |lines[0]|;
    var rows: seq<seq<char>> := [];
    p1Start, p2Start := None, None;
    var y := 0;
    while y < height
      invariant 0 <= y <= height
      invariant GridCopied(lines, width, rows)
      invariant |rows| == y
      invariant ScannedMark(lines, width, PLAYER1_MARK, p1Start, (0, y))
      invariant ScannedMark(lines, width, PLAYER2_MARK, p2Start, (0, y))
    {
      var cells;
      cells, p1Start, p2Start := ScanRow(lines, width, y, p1Start, p2Start);
      if cells.None? {
        return None, p1Start, p2Start;
      }
      rows := rows + [cells.value];
      y := y + 1;
    }
    assert RowsLongEnough(lines) by {
      assert forall j :: 0 <= j < |rows| ==> |lines[j]| >= width;
    }
    grid := Some(rows);
  }

  /** The rows copied so far: each line's first `width` characters, markers cleared. */
  ghost predicate GridCopied(lines: seq<string>, width: nat, grid: seq<seq<char>>) {
    |grid| <= |lines| &&
    forall j :: 0 <= j < |grid| ==>
      |lines[j]| >= width && |grid[j]| == width &&
      forall i :: 0 <= i < width ==> grid[j][i] == Unmark(lines[j][i])
  }

  /** Once every line is copied, the grid is a well-formed level map matching the lines. */
  lemma GridCopiedIsLevel(lines: seq<string>, width: nat, grid: seq<seq<char>>)
    requires |lines| > 0 && width == |lines[0]|
    requires GridCopied(lines, width, grid) && |grid| == |lines|
    ensures RowsLongEnough(lines)
    ensures |grid| > 0 && forall y :: 0 <= y < |grid| ==> |grid[y]| == |grid[0]|
    ensures |grid[0]| == width
    ensures forall y, x :: 0 <= y < |grid| && 0 <= x < width ==> grid[y][x] == Unmark(lines[y][x])
  {
  }

  /** A complete scan of the lines, with the starts it found, is a parse. */
  lemma ScanGivesParse(lines: seq<string>, lv: Level, p1Start: Option<Point>, p2Start: Option<Point>)
    requires lv.Valid() && lv.Height() == |lines| && |lines| > 0 && lv.Width() == |lines[0]|
    requires RowsLongEnough(lines)
    requires forall x, y :: lv.InBounds(x, y) ==> lv.cells[y][x] == Unmark(lines[y][x])
    requires ScannedMark(lines, lv.Width(), PLAYER1_MARK, p1Start, (0, |lines|))
    requires ScannedMark(lines, lv.Width(), PLAYER2_MARK, p2Start, (0, |lines|))
    requires lv.player1Start == StartOr(p1Start, PLAYER1_DEFAULT)
    requires lv.player2Start == StartOr(p2Start, Player2Default(lv.Width(), lv.Height()))
    ensures IsParse(lines, lv)
  {
    MarkScanComplete(lines, lv.Width(), PLAYER1_MARK, p1Start);
    MarkScanComplete(lines, lv.Width(), PLAYER2_MARK, p2Start);
    if p1Start.Some? {
      MarkedCellIsOpen(lv, lines, PLAYER1_MARK, p1Start.value);
    }
    if p2Start.Some? {
      MarkedCellIsOpen(lv, lines, PLAYER2_MARK, p2Start.value);
    }
  }

  /** A cell that held a start marker is open floor in the parsed level. */
  lemma MarkedCellIsOpen(lv: Level, lines: seq<string>, c: char, p: Point)
    requires lv.Valid() && lv.Height() == |lines| && |lines| > 0 && lv.Width() == |lines[0]|
    requires RowsLongEnough(lines)
    requires forall x, y :: lv.InBounds(x, y) ==> lv.cells[y][x] == Unmark(lines[y][x])
    requires c == PLAYER1_MARK || c == PLAYER2_MARK
    requires Marked(lines, lv.Width(), c, p)
    ensures !lv.IsWall(p.0, p.1)
  {
    assert lv.InBounds(p.0, p.1);
    assert lv.cells[p.1][p.0] == OPEN;
  }

  /**
   * The inner loop of loadLevel over row y: copy its first `width`
   * characters with the markers cleared, and record the markers met.
   * None when the row is too short (charAt throws).
   */
  method ScanRow(lines: seq<string>, width: nat, y: nat, p1Start: Option<Point>, p2Start: Option<Point>)
    returns (cells: Option<seq<char>>, p1Next: Option<Point>, p2Next: Option<Point>)
    requires y < |lines| && width == |lines[0]|
    requires ScannedMark(lines, width, PLAYER1_MARK, p1Start, (0, y))
    requires ScannedMark(lines, width, PLAYER2_MARK, p2Start, (0, y))
    ensures cells.None? <==> |lines[y]| < width
    ensures cells.None? ==> !RowsLongEnough(lines)
    ensures cells.Some? ==>
      && |cells.value| == width
      && (forall i :: 0 <= i < width ==> cells.value[i] == Unmark(lines[y][i]))
      && ScannedMark(lines, width, PLAYER1_MARK, p1Next, (0, y + 1))
      && ScannedMark(lines, width, PLAYER2_MARK, p2Next, (0, y + 1))
  {
    var row := lines[y];
    var copied: seq<char> := [];
    p1Next, p2Next := p1Start, p2Start;
    var x := 0;
    while x < width
      invariant 0 <= x <= width
      invariant x <= |row|
      invariant |copied| == x
      invariant forall i :: 0 <= i < x ==> copied[i] == Unmark(row[i])
      invariant ScannedMark(lines, width, PLAYER1_MARK, p1Next, (x, y))
      invariant ScannedMark(lines, width, PLAYER2_MARK, p2Next, (x, y))
    {
      if x >= |row| {
        assert |lines[y]| < |lines[0]|;
        return None, p1Next, p2Next;
      }
      var c := row[x];
      ScanStep(lines, width, PLAYER1_MARK, p1Next, x, y);
      ScanStep(lines, width, PLAYER2_MARK, p2Next, x, y);
      if c == PLAYER1_MARK {
        p1Next := Some((x, y));
        copied := copied + [OPEN];
      } else if c == PLAYER2_MARK {
        p2Next := Some((x, y));
        copied := copied + [OPEN];
      } else {
        copied := copied + [c];
      }
      x := x + 1;
    }
    RowDone(lines, width, y, PLAYER1_MARK, p1Next);
    RowDone(lines, width, y, PLAYER2_MARK, p2Next);
    cells := Some(copied);
  }

  /** Visiting cell (x, y) either records it as the latest marker c or leaves the record. */
  lemma ScanStep(lines: seq<string>, width: nat, c: char, found: Option<Point>, x: int, y: int)
    requires 0 <= y < |lines| && 0 <= x < width && x < |lines[y]|
    requires ScannedMark(lines, width, c, found, (x, y))
    ensures ScannedMark(lines, width, c, if lines[y][x] == c then Some((x, y)) else found, (x + 1, y))
  {
  }

  /** Having scanned to the end of row y is having scanned up to row y + 1. */
  lemma RowDone(lines: seq<string>, width: nat, y: int, c: char, found: Option<Point>)
    requires ScannedMark(lines, width, c, found, (width, y))
    ensures ScannedMark(lines, width, c, found, (0, y + 1))
  {
  }

  /** A scan that has passed the last row has seen every marker. */
  lemma MarkScanComplete(lines: seq<string>, width: nat, c: char, found: Option<Point>)
    requires ScannedMark(lines, width, c, found, (0, |lines|))
    ensures found.None? ==> !HasMark(lines, width, c)
    ensures found.Some? ==> IsLastMark(lines, width, c, found.value)
  {
  }

  // ---------------------------------------------------------------------------
  // The level name

  /** The text after the last '/', as Paths.get(path).getFileName() gives it. */
  function FileName(path: string): (f: string)
    ensures '/' !in f
    ensures |f| <= |path| && f == path[|path| - |f|..]
    ensures |f| == |path| || path[|path| - |f| - 1] == '/'
  {
    if |path| == 0 then ""
    else if path[|path| - 1] == '/' then ""
    else FileName(path[..|path| - 1]) + [path[|path| - 1]]
  }

  /** String.lastIndexOf: the last index holding c, or -1. */
  function LastIndexOf(s: string, c: char): (i: int)
    ensures -1 <= i < |s|
    ensures i >= 0 ==> s[i] == c
    ensures forall k :: i < k < |s| ==> s[k] != c
  {
    if |s| == 0 then -1
    else if s[|s| - 1] == c then |s| - 1
    else LastIndexOf(s[..|s| - 1], c)
  }

  predicate IsSeparator(c: char) {
    c == '_' || c == '-'
  }

  predicate NoSeparator(s: string) {
    forall k :: 0 <= k < |s| ==> !IsSeparator(s[k])
  }

  function SeparatorCount(s: string): nat {
    if |s| == 0 then 0
    else (if IsSeparator(s[0]) then 1 else 0) + SeparatorCount(s[1..])
  }

  function WithoutSeparators(s: string): string {
    if |s| == 0 then ""
    else (if IsSeparator(s[0]) then "" else [s[0]]) + WithoutSeparators(s[1..])
  }

  function Concat(words: seq<string>): string {
    if |words| == 0 then "" else words[0] + Concat(words[1..])
  }

  /** The pieces between separators, every empty one included. */
  function Split(s: string): (words: seq<string>)
    ensures |words| > 0
    ensures forall k :: 0 <= k < |words| ==> NoSeparator(words[k])
  {
    if |s| == 0 then [""]
    else
      var rest := Split(s[1..]);
      if IsSeparator(s[0]) then [""] + rest
      else [[s[0]] + rest[0]] + rest[1..]
  }

  /** There is one more piece than there are separators. */
  lemma {:induction false} SplitCountsSeparators(s: string)
    ensures |Split(s)| == 1 + SeparatorCount(s)
  {
    if |s| > 0 {
      SplitCountsSeparators(s[1..]);
    }
  }

  /** Splitting loses only the separators: the pieces put together give the rest back. */
  lemma {:induction false} SplitLosesOnlySeparators(s: string)
    ensures Concat(Split(s)) == WithoutSeparators(s)
  {
    if |s| > 0 {
      var rest := Split(s[1..]);
      SplitLosesOnlySeparators(s[1..]);
      if IsSeparator(s[0]) {
        assert ([""] + rest)[1..] == rest;
      } else {
        var words := [[s[0]] + rest[0]] + rest[1..];
        assert words[1..] == rest[1..];
        assert Concat(rest) == rest[0] + Concat(rest[1..]);
      }
    }
  }

  /** A text without separators is a single piece. */
  lemma {:induction false} SplitWithoutSeparator(s: string)
    requires NoSeparator(s)
    ensures Split(s) == [s]
  {
    if |s| > 0 {
      assert NoSeparator(s[1..]) by {
        forall k | 0 <= k < |s[1..]| ensures !IsSeparator(s[1..][k]) {
          assert s[1..][k] == s[k + 1];
        }
      }
      SplitWithoutSeparator(s[1..]);
      assert [s[0]] + s[1..] == s;
    }
  }

  /** Split on a text with a known first character. */
  lemma SplitCons(x: char, t: string)
    ensures IsSeparator(x) ==> Split([x] + t) == [""] + Split(t)
    ensures !IsSeparator(x) ==> Split([x] + t) == [[x] + Split(t)[0]] + Split(t)[1..]
  {
    assert ([x] + t)[0] == x && ([x] + t)[1..] == t;
  }

  /** Each separator is a cut: the pieces before it and the pieces after it. */
  lemma {:induction false} SplitAtSeparator(a: string, c: char, b: string)
    requires IsSeparator(c)
    ensures Split(a + [c] + b) == Split(a) + Split(b)
  {
    if |a| == 0 {
      assert a + [c] + b == [c] + b;
      SplitCons(c, b);
    } else {
      var x, u := a[0], a[1..];
      assert a == [x] + u;
      assert a + [c] + b == [x] + (u + [c] + b);
      SplitAtSeparator(u, c, b);
      SplitPrepend(x, u, u + [c] + b, Split(b));
    }
  }

  /** A first character joins the first piece of two texts alike, given how the rest splits. */
  lemma SplitPrepend(x: char, u: string, t: string, right: seq<string>)
    requires Split(t) == Split(u) + right
    ensures Split([x] + t) == Split([x] + u) + right
  {
    var left := Split(u);
    if IsSeparator(x) {
      calc {
        Split([x] + t);
        { SplitCons(x, t); }
        [""] + (left + right);
        ([""] + left) + right;
        { SplitCons(x, u); }
        Split([x] + u) + right;
      }
    } else {
      calc {
        Split([x] + t);
        { SplitCons(x, t); }
        [[x] + (left + right)[0]] + (left + right)[1..];
        { GlueFirst([x], left, right); }
        ([[x] + left[0]] + left[1..]) + right;
        { SplitCons(x, u); }
        Split([x] + u) + right;
      }
    }
  }

  /** Gluing a prefix onto the first piece commutes with appending more pieces. */
  lemma GlueFirst(head: string, left: seq<string>, right: seq<string>)
    requires |left| > 0
    ensures [head + (left + right)[0]] + (left + right)[1..] == ([head + left[0]] + left[1..]) + right
  {
    assert (left + right)[0] == left[0];
    assert (left + right)[1..] == left[1..] + right;
  }

  /** The pieces with the empty ones at the end removed. */
  function DropTrailingEmpty(words: seq<string>): (r: seq<string>)
    ensures r <= words
    ensures forall k :: |r| <= k < |words| ==> words[k] == ""
    ensures |r| == 0 || r[|r| - 1] != ""
  {
    if |words| > 0 && words[|words| - 1] == "" then DropTrailingEmpty(words[..|words| - 1])
    else words
  }

  /**
   * split("[_-]"): a text without separators is returned whole; otherwise
   * the pieces between separators, with the empty ones at the end dropped.
   */
  function SplitPieces(s: string): (words: seq<string>)
    ensures forall k :: 0 <= k < |words| ==> NoSeparator(words[k])
    ensures NoSeparator(s) ==> words == [s]
    ensures words <= Split(s)
    ensures forall k :: |words| <= k < |Split(s)| ==> Split(s)[k] == ""
    ensures !NoSeparator(s) ==> |words| == 0 || words[|words| - 1] != ""
  {
    if NoSeparator(s) then SplitWithoutSeparator(s); [s]
    else DropTrailingEmpty(Split(s))
  }

  /** Empty pieces at the end add nothing to the builder's text. */
  lemma {:induction false} JoinedIgnoresTrailingEmpty(words: seq<string>)
    ensures Joined(DropTrailingEmpty(words)) == Joined(words)
  {
    if |words| > 0 && words[|words| - 1] == "" {
      JoinedIgnoresTrailingEmpty(words[..|words| - 1]);
    }
  }

  /** Character.toUpperCase, ASCII letters only. */
  function ToUpper(c: char): (u: char)
    ensures IsSeparator(u) <==> IsSeparator(c)
    ensures !('a' <= u <= 'z')
    ensures 'a' <= c <= 'z' ==> u as int - 'A' as int == c as int - 'a' as int
    ensures !('a' <= c <= 'z') ==> u == c
  {
    if 'a' <= c <= 'z' then c - 'a' + 'A' else c
  }

  /** String.toLowerCase, character by character, ASCII letters only. */
  function ToLower(c: char): (l: char)
    ensures IsSeparator(l) <==> IsSeparator(c)
    ensures !('A' <= l <= 'Z')
    ensures 'A' <= c <= 'Z' ==> l as int - 'a' as int == c as int - 'A' as int
    ensures !('A' <= c <= 'Z') ==> l == c
  {
    if 'A' <= c <= 'Z' then c - 'A' + 'a' else c
  }

  function LowerCase(s: string): (t: string)
    ensures |t| == |s|
    ensures forall k :: 0 <= k < |s| ==> t[k] == ToLower(s[k])
  {
    if |s| == 0 then "" else [ToLower(s[0])] + LowerCase(s[1..])
  }

  /** What the builder appends for one piece: nothing for an empty piece. */
  function Piece(word: string): (p: string)
    ensures |word| == 0 ==> p == ""
    ensures |word| > 0 ==> |p| == |word| + 1 && p[0] == ToUpper(word[0]) && p[|word|] == ' '
    ensures forall k :: 1 <= k < |word| ==> p[k] == ToLower(word[k])
  {
    if |word| == 0 then ""
    else [ToUpper(word[0])] + LowerCase(word[1..]) + " "
  }

  /** The builder's content after the given pieces. */
  function Joined(words: seq<string>): (j: string)
    ensures j == "" <==> forall k :: 0 <= k < |words| ==> words[k] == ""
    ensures j != "" ==> j[|j| - 1] == ' '
  {
    if |words| == 0 then ""
    else Joined(words[..|words| - 1]) + Piece(words[|words| - 1])
  }

  /** String.trim: characters up to U+0020 are stripped at the front. */
  function TrimStart(s: string): (t: string)
    ensures |t| <= |s| && t == s[|s| - |t|..]
    ensures forall k :: 0 <= k < |s| - |t| ==> s[k] <= ' '
    ensures |t| == 0 || t[0] > ' '
  {
    if |s| > 0 && s[0] <= ' ' then TrimStart(s[1..]) else s
  }

  /** String.trim: characters up to U+0020 are stripped at the end. */
  function TrimEnd(s: string): (t: string)
    ensures |t| <= |s| && t == s[..|t|]
    ensures forall k :: |t| <= k < |s| ==> s[k] <= ' '
    ensures |t| == 0 || t[|t| - 1] > ' '
  {
    if |s| > 0 && s[|s| - 1] <= ' ' then TrimEnd(s[..|s| - 1]) else s
  }

  /** String.trim: both ends stripped; a text with nothing to strip is kept. */
  function Trim(s: string): (t: string)
    ensures |t| <= |s|
    ensures |t| == 0 || (t[0] > ' ' && t[|t| - 1] > ' ')
  {
    var front := TrimStart(s);
    var t := TrimEnd(front);
    assert |t| > 0 ==> t[0] == front[0];
    t
  }

  /** A text that starts and ends above U+0020 is kept as it is. */
  lemma TrimKeepsTrimmed(s: string)
    requires |s| == 0 || (s[0] > ' ' && s[|s| - 1] > ' ')
    ensures Trim(s) == s
  {
    assert TrimStart(s) == s;
  }

  /**
   * t is the slice of s starting at i, and everything before and after it
   * is at most U+0020.
   */
  predicate IsMiddle(s: string, t: string, i: nat) {
    && i + |t| <= |s|
    && t == s[i..i + |t|]
    && (forall k :: 0 <= k < i ==> s[k] <= ' ')
    && (forall k :: i + |t| <= k < |s| ==> s[k] <= ' ')
  }

  /** Trimming removes only characters up to U+0020 before and after a middle slice. */
  lemma TrimIsMiddle(s: string)
    ensures IsMiddle(s, Trim(s), |s| - |TrimStart(s)|)
  {
    TrimUnfold(s);
    SliceOfSuffix(s, TrimStart(s), TrimEnd(TrimStart(s)));
  }

  lemma TrimUnfold(s: string)
    ensures Trim(s) == TrimEnd(TrimStart(s))
  {
  }

  /** A prefix of a suffix, with only blanks after it in the suffix, is a middle slice. */
  lemma SliceOfSuffix(s: string, front: string, t: string)
    requires |front| <= |s| && front == s[|s| - |front|..]
    requires forall k :: 0 <= k < |s| - |front| ==> s[k] <= ' '
    requires |t| <= |front| && t == front[..|t|]
    requires forall k :: |t| <= k < |front| ==> front[k] <= ' '
    ensures IsMiddle(s, t, |s| - |front|)
  {
    var i := |s| - |front|;
    assert s[i..][..|t|] == s[i..i + |t|];
    forall k | i + |t| <= k < |s|
      ensures s[k] <= ' '
    {
      assert s[k] == front[k - i];
    }
  }

  /**
   * getLevelNameFromPath as a value: it fails, with the exception of a missing
   * extension, exactly when the file name has no '.'.
   */
  function NameFromPath(path: string): (r: Result<string, LoadError>)
    ensures r.Failure? <==> '.' !in FileName(path)
    ensures r.Failure? ==> r.error == NoExtension
  {
    var fileName := FileName(path);
    var dot := LastIndexOf(fileName, '.');
    if dot < 0 then Failure(NoExtension)
    else
      assert fileName[dot] == '.';
      Success(Trim(Joined(SplitPieces(fileName[..dot]))))
  }

  /**
   * getLevelNameFromPath: cut the file name at its last '.', split on '_'
   * and '-', capitalise each non-empty piece followed by a space, trim.
   */
  method LevelNameFromPath(filePath: string) returns (r: Result<string, LoadError>)
    ensures r == NameFromPath(filePath)
  {
    var fileName := FileName(filePath);
    var dot := LastIndexOf(fileName, '.');
    if dot < 0 {
      return Failure(NoExtension);
    }
    var words := SplitPieces(fileName[..dot]);
    var name := BuildName(words);
    return Success(Trim(name));
  }

  /**
   * The StringBuilder loop: for each non-empty piece, its first character
   * upper-cased, the rest lower-cased, then a space.
   */
  method BuildName(words: seq<string>) returns (name: string)
    ensures name == Joined(words)
  {
    name := "";
    for i := 0 to |words|
      invariant name == Joined(words[..i])
    {
      var word := words[i];
      JoinedStep(words, i);
      if |word| > 0 {
        var piece := [ToUpper(word[0])] + LowerCase(word[1..]) + " ";
        assert piece == Piece(word);
        name := name + piece;
      }
    }
    assert words[..|words|] == words;
  }

  /** One more piece through the builder appends that piece's text. */
  lemma JoinedStep(words: seq<string>, i: nat)
    requires i < |words|
    ensures Joined(words[..i + 1]) == Joined(words[..i]) + Piece(words[i])
  {
    assert words[..i + 1][..i] == words[..i];
  }

  /** The derived name never contains '_' or '-'. */
  lemma NameHasNoSeparators(path: string)
    requires NameFromPath(path).Success?
    ensures NoSeparator(NameFromPath(path).value)
  {
    var fileName := FileName(path);
    var words := SplitPieces(fileName[..LastIndexOf(fileName, '.')]);
    JoinedHasNoSeparators(words);
    TrimKeepsNoSeparator(Joined(words));
  }

  /** The derived name has no leading or trailing blank. */
  lemma NameIsTrimmed(path: string)
    requires NameFromPath(path).Success?
    ensures var name := NameFromPath(path).value;
      |name| == 0 || (name[0] > ' ' && name[|name| - 1] > ' ')
  {
  }

  /** Trimming only drops characters, so it adds no separator. */
  lemma TrimKeepsNoSeparator(s: string)
    requires NoSeparator(s)
    ensures NoSeparator(Trim(s))
  {
    var front := TrimStart(s);
    assert front == s[|s| - |front|..|s|];
    SliceKeepsNoSeparator(s, |s| - |front|, |s|);
    var both := TrimEnd(front);
    assert both == front[0..|both|];
    SliceKeepsNoSeparator(front, 0, |both|);
  }

  lemma SliceKeepsNoSeparator(s: string, i: nat, j: nat)
    requires NoSeparator(s) && i <= j <= |s|
    ensures NoSeparator(s[i..j])
  {
    forall k | 0 <= k < j - i
      ensures !IsSeparator(s[i..j][k])
    {
      assert s[i..j][k] == s[i + k];
    }
  }

  /** Pieces without separators join to a text without separators. */
  lemma {:induction false} JoinedHasNoSeparators(words: seq<string>)
    requires forall k :: 0 <= k < |words| ==> NoSeparator(words[k])
    ensures NoSeparator(Joined(words))
  {
    if |words| > 0 {
      var init := words[..|words| - 1];
      JoinedHasNoSeparators(init);
      PieceHasNoSeparator(words[|words| - 1]);
      AppendKeepsNoSeparator(Joined(init), Piece(words[|words| - 1]));
    }
  }

  /** Capitalising a separator-free piece and adding a space adds no separator. */
  lemma PieceHasNoSeparator(word: string)
    requires NoSeparator(word)
    ensures NoSeparator(Piece(word))
  {
    if |word| > 0 {
      var rest := LowerCase(word[1..]);
      assert NoSeparator(rest);
      AppendKeepsNoSeparator([ToUpper(word[0])], rest);
      AppendKeepsNoSeparator([ToUpper(word[0])] + rest, " ");
    }
  }

  lemma AppendKeepsNoSeparator(a: string, b: string)
    requires NoSeparator(a) && NoSeparator(b)
    ensures NoSeparator(a + b)
  {
    forall k | 0 <= k < |a + b|
      ensures !IsSeparator((a + b)[k])
    {
      if k < |a| {
        assert (a + b)[k] == a[k];
      } else {
        assert (a + b)[k] == b[k - |a|];
      }
    }
  }
}
