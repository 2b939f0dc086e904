/**
 * Reading back a whole save: the [Board] block, whose rows the reader fills
 * through setEntry into the transpose of the board written, and then the
 * three blocks in order, from the text of pacman.game.GameWriter to the game
 * pacman.game.GameReader returns for it.
 */
module RoundTrip {
  import opened Wrappers
  import opened Text
  import opened Positions
  import opened BoardItems
  import opened Scores
  import Grids
  import GameRules
  import SaveFormat

  // ---------------------------------------------------------------------------
  // The [Board] block
  // ---------------------------------------------------------------------------

  /** Cell (y1, x1) is read before cell (y2, x2): rows in order, and left to right within a row. */
  predicate ReadBefore(y1: int, x1: int, y2: int, x2: int) {
    y1 < y2 || (y1 == y2 && x1 < x2)
  }

  /**
   * The spawns of a board read in survive setEntry: at most one of each, and
   * no ghost spawn read before the Pac-Man spawn, whose setEntry falls
   * through to clearing the ghost spawn.
   */
  predicate SpawnsSurvive(t: Grids.Grid)
    requires Grids.WellFormed(t)
  {
    Grids.AtMostOne(t, PacmanSpawn) && Grids.AtMostOne(t, GhostSpawn) &&
    forall y1, x1, y2, x2 ::
      (0 <= y1 < t.height && 0 <= x1 < t.width && 0 <= y2 < t.height && 0 <= x2 < t.width &&
       t.cells[y1][x1] == GhostSpawn && t.cells[y2][x2] == PacmanSpawn) ==> ReadBefore(y2, x2, y1, x1)
  }

  /** Row y of t as the reader expects it: the key of each cell, left to right. */
  function KeyRow(t: Grids.Grid, y: int): (row: string)
    requires Grids.WellFormed(t) && 0 <= y < t.height
    ensures |row| == t.width
  {
    seq(t.width, x requires 0 <= x < t.width => CharKey(t.cells[y][x]))
  }

  /**
   * The board being filled holds t's item in every cell read before (j, n)
   * and no spawn in any other.
   */
  predicate FilledTo(g: Grids.Grid, t: Grids.Grid, j: int, n: int)
    requires Grids.WellFormed(g) && Grids.WellFormed(t)
  {
    g.width == t.width && g.height == t.height &&
    (forall y, x :: 0 <= y < g.height && 0 <= x < g.width && ReadBefore(y, x, j, n) ==>
       g.cells[y][x] == t.cells[y][x]) &&
    (forall y, x :: 0 <= y < g.height && 0 <= x < g.width && !ReadBefore(y, x, j, n) ==>
       g.cells[y][x] != PacmanSpawn && g.cells[y][x] != GhostSpawn)
  }

  /** setEntry of the next cell's item clears nothing: it only puts the item there. */
  lemma FillStep(g: Grids.Grid, t: Grids.Grid, j: int, n: int)
    requires Grids.WellFormed(g) && Grids.WellFormed(t) && SpawnsSurvive(t)
    requires 0 <= j < t.height && 0 <= n < t.width && FilledTo(g, t, j, n)
    ensures Grids.Set(g, Position(n, j), t.cells[j][n]) == Ok(Grids.Put(g, Position(n, j), t.cells[j][n]))
    ensures FilledTo(Grids.Put(g, Position(n, j), t.cells[j][n]), t, j, n + 1)
  {
    var item := t.cells[j][n];
    if item == PacmanSpawn || item == GhostSpawn {
      forall y, x | 0 <= y < g.height && 0 <= x < g.width
        ensures g.cells[y][x] != item
      {
        if ReadBefore(y, x, j, n) {
          assert g.cells[y][x] == t.cells[y][x];
        }
      }
      assert Grids.ClearFirst(g, item) == g;
    }
    if item == PacmanSpawn {
      forall y, x | 0 <= y < g.height && 0 <= x < g.width
        ensures g.cells[y][x] != GhostSpawn
      {
        if ReadBefore(y, x, j, n) {
          assert g.cells[y][x] == t.cells[y][x];
        }
      }
      assert Grids.ClearFirst(g, GhostSpawn) == g;
    }
  }

  /** Filling row j of the board from t's key row fills the row's first n cells with t's items. */
  lemma {:induction false} FillRowBack(g: Grids.Grid, t: Grids.Grid, j: int, n: nat)
    requires Grids.WellFormed(g) && Grids.WellFormed(t) && SpawnsSurvive(t)
    requires 0 <= j < t.height && n <= t.width && FilledTo(g, t, j, 0)
    ensures SaveFormat.KeysUpTo(KeyRow(t, j), n)
    ensures FilledTo(SaveFormat.FillRow(g, KeyRow(t, j), j, n), t, j, n)
  {
    KeyRowKeys(t, j, n);
    if n > 0 {
      FillRowBack(g, t, j, n - 1);
      var before := SaveFormat.FillRow(g, KeyRow(t, j), j, n - 1);
      ItemOfCharKey(t.cells[j][n - 1]);
      FillStep(before, t, j, n - 1);
    }
  }

  /** Every character of a key row is a board item key. */
  lemma KeyRowKeys(t: Grids.Grid, j: int, n: nat)
    requires Grids.WellFormed(t) && 0 <= j < t.height && n <= t.width
    ensures SaveFormat.KeysUpTo(KeyRow(t, j), n)
  {
    forall k | 0 <= k < n
      ensures KeyRow(t, j)[k] in Keys
    {
      ItemOfCharKey(t.cells[j][k]);
    }
  }

  /** A key row has no blank at either end for trim to remove. */
  lemma TrimKeyRow(t: Grids.Grid, y: int)
    requires Grids.WellFormed(t) && 0 <= y < t.height
    ensures Trim(KeyRow(t, y)) == KeyRow(t, y)
  {
    var row := KeyRow(t, y);
    ItemOfCharKey(t.cells[y][0]);
    ItemOfCharKey(t.cells[y][t.width - 1]);
    assert row[0] in Keys && row[|row| - 1] in Keys;
  }

  /** The rows from row j on, each the key row of t, fill a board holding t's items up to row j into t. */
  lemma {:induction false} RowsBack(lines: seq<string>, base: nat, g: Grids.Grid, t: Grids.Grid, j: nat)
    requires Grids.WellFormed(g) && Grids.WellFormed(t) && SpawnsSurvive(t)
    requires j <= t.height && FilledTo(g, t, j, 0)
    requires base + t.height <= |lines| && forall y :: 0 <= y < t.height ==> lines[base + y] == KeyRow(t, y)
    ensures SaveFormat.Rows(lines, base + j, g, j) == Ok(t)
    decreases t.height - j
  {
    if j == t.height {
      Grids.Ext(g, t);
    } else {
      var row := KeyRow(t, j);
      assert lines[base + j] == row;
      RowFilled(g, t, j);
      RowsBack(lines, base, SaveFormat.FillRow(g, row, j, t.width), t, j + 1);
      RowsNext(lines, base + j, g, j);
    }
  }

  /** Row j read from t's key row: every key is read, trim keeps the row, and the board is filled to row j + 1. */
  lemma RowFilled(g: Grids.Grid, t: Grids.Grid, j: nat)
    requires Grids.WellFormed(g) && Grids.WellFormed(t) && SpawnsSurvive(t)
    requires j < t.height && FilledTo(g, t, j, 0)
    ensures Trim(KeyRow(t, j)) == KeyRow(t, j) && SaveFormat.KeysUpTo(KeyRow(t, j), t.width)
    ensures FilledTo(SaveFormat.FillRow(g, KeyRow(t, j), j, t.width), t, j + 1, 0)
  {
    TrimKeyRow(t, j);
    FillRowBack(g, t, j, t.width);
  }

  /** readBoard past a row of the right width made of keys: the rows below it, over the board with it filled in. */
  lemma RowsNext(lines: seq<string>, pos: nat, g: Grids.Grid, j: nat)
    requires Grids.WellFormed(g) && j < g.height && pos < |lines|
    requires |Trim(lines[pos])| == g.width && SaveFormat.KeysUpTo(Trim(lines[pos]), g.width)
    ensures SaveFormat.Rows(lines, pos, g, j) ==
            SaveFormat.Rows(lines, pos + 1, SaveFormat.FillRow(g, Trim(lines[pos]), j, g.width), j + 1)
  {
  }

  /** The dimension line written reads back as the width and the height. */
  lemma DimensionsBack(g: Grids.Grid)
    requires Grids.WellFormed(g) && g.width <= IntMax && g.height <= IntMax
    ensures SaveFormat.Dimensions(SaveFormat.DimensionLine(g)) == Ok((g.width, g.height))
  {
    IntToStringAvoids(g.width, ',');
    IntToStringAvoids(g.height, ',');
    IndexOfAvoiding(IntToString(g.height), ",");
    SplitPair(IntToString(g.width), ",", IntToString(g.height));
    ParseIntToString(g.width);
    ParseIntToString(g.height);
  }

  /** Line y of a square board's text is row y of its transpose. */
  lemma TextLineTransposed(g: Grids.Grid, y: int)
    requires Grids.WellFormed(g) && g.width == g.height && 0 <= y < g.height
    ensures Grids.TextLine(g, y) == KeyRow(Grids.Transpose(g), y)
  {
  }

  /**
   * readBoard on what write puts down for a square board: the dimension line
   * and the board's text read back as the transpose of the board, when its
   * spawns survive being read in.
   */
  lemma BoardBlockBack(lines: seq<string>, at: nat, g: Grids.Grid)
    requires Grids.WellFormed(g) && g.width == g.height && g.width <= IntMax
    requires SpawnsSurvive(Grids.Transpose(g))
    requires at + 1 + g.height <= |lines| && lines[at] == SaveFormat.DimensionLine(g)
    requires lines[at + 1..at + 1 + g.height] == Grids.TextLines(g)
    ensures var r := SaveFormat.BoardBlock(lines, at);
            r.Ok? && r.value.0 == Grids.Transpose(g) && r.value.1 == at + 1 + g.height
  {
    var t := Grids.Transpose(g);
    TextLinesTransposed(lines, at + 1, g);
    assert SaveFormat.DimensionLine(g) == SaveFormat.DimensionLine(t);
    BoardBlockRead(lines, at, t);
  }

  /** readBoard on the dimension line of t and t's key rows reads t. */
  lemma BoardBlockRead(lines: seq<string>, at: nat, t: Grids.Grid)
    requires Grids.WellFormed(t) && t.width <= IntMax && t.height <= IntMax && SpawnsSurvive(t)
    requires at + 1 + t.height <= |lines| && lines[at] == SaveFormat.DimensionLine(t)
    requires forall y :: 0 <= y < t.height ==> lines[at + 1 + y] == KeyRow(t, y)
    ensures var r := SaveFormat.BoardBlock(lines, at); r.Ok? && r.value.0 == t && r.value.1 == at + 1 + t.height
  {
    DimensionsBack(t);
    FreshFilled(t);
    RowsBack(lines, at + 1, Grids.Fresh(t.width, t.height).value, t, 0);
  }

  /** A new board of t's size holds no spawn, so it is filled to the first cell of t. */
  lemma FreshFilled(t: Grids.Grid)
    requires Grids.WellFormed(t)
    ensures FilledTo(Grids.Fresh(t.width, t.height).value, t, 0, 0)
  {
  }

  /** The text lines of a square board are the key rows of its transpose. */
  lemma TextLinesTransposed(lines: seq<string>, base: nat, g: Grids.Grid)
    requires Grids.WellFormed(g) && g.width == g.height
    requires base + g.height <= |lines| && lines[base..base + g.height] == Grids.TextLines(g)
    ensures forall y :: 0 <= y < g.height ==> lines[base + y] == KeyRow(Grids.Transpose(g), y)
  {
    forall y | 0 <= y < g.height
      ensures lines[base + y] == KeyRow(Grids.Transpose(g), y)
    {
      assert lines[base + y] == Grids.TextLines(g)[y];
      TextLineTransposed(g, y);
    }
  }

  // ---------------------------------------------------------------------------
  // The whole save
  // ---------------------------------------------------------------------------

  /**
   * A game whose save reads back: its [Game] block and its table read back,
   * its board is square, so that toString succeeds, and the spawns of the
   * board read in survive setEntry.
   */
  predicate Saveable(s: GameRules.GameState) {
    SaveFormat.SaveableGame(s) && s.board.width == s.board.height &&
    SpawnsSurvive(Grids.Transpose(s.board)) && SaveFormat.SaveableTable(s.table)
  }

  /** The game read back from a save of s: s restored on the transposed board, with s's high scores. */
  function ReadBack(s: GameRules.GameState): GameRules.GameState
    requires GameRules.Sane(s)
  {
    SaveFormat.Restored(s, Grids.Transpose(s.board)).(table := s.table)
  }

  /** The [Board] block of a square board g at the head of the lines, and the blank line after it. */
  predicate BoardLaidOut(lines: seq<string>, g: Grids.Grid)
    requires Grids.WellFormed(g) && g.width == g.height
  {
    2 + g.height < |lines| && lines[0] == "[Board]" && lines[1] == SaveFormat.DimensionLine(g) &&
    lines[2..2 + g.height] == Grids.TextLines(g) && lines[2 + g.height] == ""
  }

  /** The [Game] block of s from index pos, and the blank line after it. */
  predicate GameLaidOut(lines: seq<string>, pos: nat, s: GameRules.GameState)
    requires |s.ghosts| == 4
  {
    pos + 11 < |lines| && lines[pos] == "[Game]" &&
    lines[pos + 1..pos + 11] == SaveFormat.GameLines(s) && lines[pos + 11] == ""
  }

  /** The [Scores] block of table t from index pos to the end of the lines. */
  predicate ScoresLaidOut(lines: seq<string>, pos: nat, t: seq<Entry>) {
    pos < |lines| && lines[pos] == "[Scores]" && lines[pos + 1..] == EntriesByName(t)
  }

  /** Where each block of a save lies among its lines. */
  lemma SaveLinesLaid(s: GameRules.GameState)
    requires GameRules.Sane(s) && s.board.width == s.board.height
    ensures var lines, h := SaveFormat.SaveLines(s), s.board.height;
            BoardLaidOut(lines, s.board) && GameLaidOut(lines, 3 + h, s) && ScoresLaidOut(lines, 15 + h, s.table)
  {
    var a := ["[Board]", SaveFormat.DimensionLine(s.board)];
    var b := Grids.TextLines(s.board);
    var c := ["", "[Game]"] + SaveFormat.GameLines(s) + ["", "[Scores]"];
    var e := EntriesByName(s.table);
    var lines := SaveFormat.SaveLines(s);
    assert lines == a + b + c + e;
    assert lines[2..2 + |b|] == b;
    assert lines[2 + |b| + 2..2 + |b| + 12] == SaveFormat.GameLines(s);
    assert lines[2 + |b| + 14..] == e;
  }

  /** One pass of the block-level loop that succeeds leaves the rest of the loop from where it ends. */
  lemma Advance(lines: seq<string>, pos: nat, r: SaveFormat.Reading, next: SaveFormat.Reading, after: nat)
    requires pos < |lines| && SaveFormat.ReadingOk(r)
    requires var step := SaveFormat.Step(lines, pos, r); step.Ok? && step.value.0 == next && step.value.1 == after
    ensures after <= |lines| && SaveFormat.ReadingOk(next)
    ensures SaveFormat.Blocks(lines, pos, r) == SaveFormat.Blocks(lines, after, next)
  {
    SaveFormat.BlocksNext(lines, pos, r);
  }

  /** A blank line counts one stage. */
  lemma BlankStep(lines: seq<string>, pos: nat, r: SaveFormat.Reading)
    requires pos < |lines| && SaveFormat.ReadingOk(r) && lines[pos] == ""
    ensures var step := SaveFormat.Step(lines, pos, r);
            step.Ok? && step.value.0 == r.(stage := r.stage + 1) && step.value.1 == pos + 1
  {
  }

  /** The [Board] header on the first line, over a board block that reads t, gives t at stage 1. */
  lemma BoardStep(lines: seq<string>, t: Grids.Grid, after: nat)
    requires 0 < |lines| && lines[0] == "[Board]"
    requires var b := SaveFormat.BoardBlock(lines, 1); b.Ok? && b.value.0 == t && b.value.1 == after
    ensures var step := SaveFormat.Step(lines, 0, SaveFormat.Start());
            step.Ok? && step.value.0 == SaveFormat.Reading(1, t, SaveFormat.DefaultGame()) && step.value.1 == after
  {
  }

  /** The [Game] header at stage 2, over a game block that reads game, gives it and the next stage. */
  lemma GameStep(lines: seq<string>, pos: nat, r: SaveFormat.Reading, game: GameRules.GameState)
    requires pos < |lines| && SaveFormat.ReadingOk(r) && lines[pos] == "[Game]" && r.stage == 2
    requires SaveFormat.GameBlock(lines, pos + 1, r.board, SaveFormat.DefaultHunter()) == Ok(game)
    ensures var step := SaveFormat.Step(lines, pos, r);
            step.Ok? && step.value.0 == r.(stage := 3, game := game) && step.value.1 == pos + 1 + SaveFormat.GameLineCount
  {
  }

  /** The [Scores] header at stage 4, over a scores block that reads game, gives it and the last stage. */
  lemma ScoresStep(lines: seq<string>, pos: nat, r: SaveFormat.Reading, game: GameRules.GameState)
    requires pos < |lines| && SaveFormat.ReadingOk(r) && lines[pos] == "[Scores]" && r.stage == 4
    requires SaveFormat.ScoresBlock(lines, pos + 1, r.game) == Ok(game)
    ensures var step := SaveFormat.Step(lines, pos, r);
            step.Ok? && step.value.0 == r.(stage := 5, game := game) && step.value.1 == |lines|
  {
  }

  /**
   * read on the lines of a save: the [Board] block gives the transposed
   * board, the [Game] block the game restored on it and the [Scores] block
   * its high scores, and the loop ends at stage 5.
   */
  lemma SaveLinesRead(s: GameRules.GameState)
    requires Saveable(s)
    ensures SaveFormat.Read(SaveFormat.SaveLines(s)) == Ok(ReadBack(s))
  {
    var lines, h := SaveFormat.SaveLines(s), s.board.height;
    var t := Grids.Transpose(s.board);
    var game := SaveFormat.Restored(s, t);
    SaveLinesLaid(s);
    BoardLaidRead(lines, s.board);
    GameLaidRead(lines, 3 + h, s, t);
    ScoresLaidRead(lines, 15 + h, t, game, s.table);
    PassesRead(lines, 2 + h, t, game, ReadBack(s));
  }

  /** The [Board] block of a square board and the blank line after it: the transposed board read, at stage 2. */
  lemma BoardLaidRead(lines: seq<string>, g: Grids.Grid)
    requires Grids.WellFormed(g) && g.width == g.height && g.width <= IntMax
    requires SpawnsSurvive(Grids.Transpose(g)) && BoardLaidOut(lines, g)
    ensures var r2 := SaveFormat.Reading(2, Grids.Transpose(g), SaveFormat.DefaultGame());
            SaveFormat.ReadingOk(r2) && SaveFormat.Blocks(lines, 0, SaveFormat.Start()) == SaveFormat.Blocks(lines, 3 + g.height, r2)
  {
    BoardBlockBack(lines, 1, g);
    BoardPasses(lines, 2 + g.height, Grids.Transpose(g));
  }

  /** The [Game] block of s and the blank line after it, over a board t of s's size: s restored on t, at stage 4. */
  lemma GameLaidRead(lines: seq<string>, pos: nat, s: GameRules.GameState, t: Grids.Grid)
    requires SaveFormat.SaveableGame(s) && Grids.WellFormed(t)
    requires t.width == s.board.width && t.height == s.board.height && GameLaidOut(lines, pos, s)
    ensures var r2, r4 := SaveFormat.Reading(2, t, SaveFormat.DefaultGame()), SaveFormat.Reading(4, t, SaveFormat.Restored(s, t));
            SaveFormat.ReadingOk(r2) && SaveFormat.ReadingOk(r4) &&
            SaveFormat.Blocks(lines, pos, r2) == SaveFormat.Blocks(lines, pos + 12, r4)
  {
    SaveFormat.GameBlockBack(lines, pos + 1, s, t, SaveFormat.DefaultHunter());
    GamePasses(lines, pos, t, SaveFormat.Restored(s, t));
  }

  /** The [Scores] block of a table, read into a game with no high scores yet: the game with the table, at stage 5. */
  lemma ScoresLaidRead(lines: seq<string>, pos: nat, t: Grids.Grid, game: GameRules.GameState, table: seq<Entry>)
    requires SaveFormat.ReadingOk(SaveFormat.Reading(4, t, game)) && game.table == []
    requires SaveFormat.SaveableTable(table) && ScoresLaidOut(lines, pos, table)
    ensures var end := SaveFormat.Blocks(lines, pos, SaveFormat.Reading(4, t, game));
            end.Ok? && end.value == SaveFormat.Reading(5, t, game.(table := table))
  {
    SaveFormat.ScoresBlockBack(lines, pos + 1, game, table);
    ScoresPasses(lines, pos, t, game, game.(table := table));
  }

  /** The passes over the three blocks, chained: read gives the game the last one ends with. */
  lemma PassesRead(lines: seq<string>, at: nat, t: Grids.Grid, game: GameRules.GameState, final: GameRules.GameState)
    requires at + 13 < |lines|
    requires SaveFormat.ReadingOk(SaveFormat.Reading(2, t, SaveFormat.DefaultGame()))
    requires SaveFormat.ReadingOk(SaveFormat.Reading(4, t, game))
    requires SaveFormat.Blocks(lines, 0, SaveFormat.Start()) ==
             SaveFormat.Blocks(lines, at + 1, SaveFormat.Reading(2, t, SaveFormat.DefaultGame()))
    requires SaveFormat.Blocks(lines, at + 1, SaveFormat.Reading(2, t, SaveFormat.DefaultGame())) ==
             SaveFormat.Blocks(lines, at + 13, SaveFormat.Reading(4, t, game))
    requires var end := SaveFormat.Blocks(lines, at + 13, SaveFormat.Reading(4, t, game));
             end.Ok? && end.value == SaveFormat.Reading(5, t, final)
    ensures SaveFormat.Read(lines) == Ok(final)
  {
  }

  /** The [Board] block and a blank line: the loop goes on from the [Game] header at stage 2. */
  lemma BoardPasses(lines: seq<string>, at: nat, t: Grids.Grid)
    requires at < |lines| && lines[0] == "[Board]" && lines[at] == ""
    requires var b := SaveFormat.BoardBlock(lines, 1); b.Ok? && b.value.0 == t && b.value.1 == at
    ensures SaveFormat.ReadingOk(SaveFormat.Reading(2, t, SaveFormat.DefaultGame()))
    ensures SaveFormat.Blocks(lines, 0, SaveFormat.Start()) ==
            SaveFormat.Blocks(lines, at + 1, SaveFormat.Reading(2, t, SaveFormat.DefaultGame()))
  {
    var r1 := SaveFormat.Reading(1, t, SaveFormat.DefaultGame());
    BoardStep(lines, t, at);
    Advance(lines, 0, SaveFormat.Start(), r1, at);
    BlankStep(lines, at, r1);
    Advance(lines, at, r1, SaveFormat.Reading(2, t, SaveFormat.DefaultGame()), at + 1);
  }

  /** The [Game] block read at stage 2 and a blank line: the loop goes on from the line after at stage 4. */
  lemma GamePasses(lines: seq<string>, pos: nat, t: Grids.Grid, game: GameRules.GameState)
    requires pos + 12 <= |lines| && lines[pos] == "[Game]" && lines[pos + 11] == ""
    requires SaveFormat.ReadingOk(SaveFormat.Reading(2, t, SaveFormat.DefaultGame()))
    requires SaveFormat.GameBlock(lines, pos + 1, t, SaveFormat.DefaultHunter()) == Ok(game)
    ensures SaveFormat.ReadingOk(SaveFormat.Reading(4, t, game))
    ensures SaveFormat.Blocks(lines, pos, SaveFormat.Reading(2, t, SaveFormat.DefaultGame())) ==
            SaveFormat.Blocks(lines, pos + 12, SaveFormat.Reading(4, t, game))
  {
    var r2 := SaveFormat.Reading(2, t, SaveFormat.DefaultGame());
    var r3 := SaveFormat.Reading(3, t, game);
    GameStep(lines, pos, r2, game);
    Advance(lines, pos, r2, r3, pos + 11);
    BlankStep(lines, pos + 11, r3);
    Advance(lines, pos + 11, r3, SaveFormat.Reading(4, t, game), pos + 12);
  }

  /** The [Scores] block read at stage 4: the loop ends at stage 5 with the game the block gives. */
  lemma ScoresPasses(lines: seq<string>, pos: nat, t: Grids.Grid, game: GameRules.GameState, final: GameRules.GameState)
    requires pos < |lines| && lines[pos] == "[Scores]"
    requires SaveFormat.ReadingOk(SaveFormat.Reading(4, t, game))
    requires SaveFormat.ScoresBlock(lines, pos + 1, game) == Ok(final)
    ensures var end := SaveFormat.Blocks(lines, pos, SaveFormat.Reading(4, t, game));
            end.Ok? && end.value == SaveFormat.Reading(5, t, final)
  {
    var r4 := SaveFormat.Reading(4, t, game);
    ScoresStep(lines, pos, r4, final);
    Advance(lines, pos, r4, SaveFormat.Reading(5, t, final), |lines|);
  }

  /**
   * The round trip of a save: write succeeds on a square board, and read on
   * the lines of the text it writes gives the game back, restored on the
   * transposed board, with its high scores.
   */
  lemma WriteRead(s: GameRules.GameState)
    requires Saveable(s)
    ensures SaveFormat.Write(s).Ok?
    ensures SaveFormat.Read(Lines(SaveFormat.Write(s).value)) == Ok(ReadBack(s))
  {
    SaveFormat.WrittenLines(s);
    SaveLinesRead(s);
  }
}
