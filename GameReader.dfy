/**
 * pacman.game.GameReader: the reader run line by line over a BufferedReader,
 * with its stage counter, its counted loops and the board, hunter, ghosts
 * and game it builds as objects. Each method is proved against the function
 * of module SaveFormat that states the same step on the list of lines.
 */
module GameReader {
  import opened Wrappers
  import opened Text
  import opened Positions
  import opened BoardItems
  import opened Scores
  import Grids
  import GhostRules
  import HunterRules
  import Directions
  import Phases
  import SaveFormat
  import Boards
  import Hunters
  import Ghosts
  import Games
  import GameRules

  /** A BufferedReader over the lines of the input: readLine gives the next line, or null at the end. */
  class LineReader {
    const lines: seq<string>
    var pos: nat

    ghost predicate Valid()
      reads this
    {
      pos <= |lines|
    }

    constructor (lines: seq<string>)
      ensures Valid() && this.lines == lines && pos == 0
    {
      this.lines := lines;
      pos := 0;
    }

    /** readLine. */
    method ReadLine() returns (r: Option<string>)
      requires Valid()
      modifies this
      ensures Valid()
      ensures old(pos) < |lines| ==> r == Some(lines[old(pos)]) && pos == old(pos) + 1
      ensures old(pos) == |lines| ==> r == None && pos == old(pos)
    {
      if pos < |lines| {
        r := Some(lines[pos]);
        pos := pos + 1;
      } else {
        r := None;
      }
    }
  }

  /**
   * readBoard: the dimension line, then one trimmed row per line, each of
   * whose characters is set at Position(column, row) of a new board.
   */
  method ReadBoard(src: LineReader) returns (res: Result<Boards.PacmanBoard>)
    requires src.Valid()
    modifies src
    ensures src.Valid()
    ensures match SaveFormat.BoardBlock(src.lines, old(src.pos))
            case Err(e) => res == Err(e)
            case Ok(b) => res.Ok? && fresh(res.value) && fresh(res.value.board) && res.value.Valid() &&
                          res.value.Model() == b.0 && src.pos == b.1
  {
    ghost var at := src.pos;
    var dimension := src.ReadLine();
    if dimension.None? {
      return Err(NullPointer);
    }
    var dimensionArray := Split(dimension.value, ",");
    if |dimensionArray| != 2 {
      return Err(Unpackable);
    }
    var width :- SaveFormat.Int(dimensionArray[0]);
    if width < 1 {
      return Err(Unpackable);
    }
    var height :- SaveFormat.Int(dimensionArray[1]);
    if height < 1 {
      return Err(Unpackable);
    }
    var board := new Boards.PacmanBoard(width, height);
    var rows := ReadRows(src, board);
    if rows.Fail? {
      return Err(rows.error);
    }
    return Ok(board);
  }

  /** The row loop of readBoard: one trimmed line per row, of exactly the board's width. */
  method ReadRows(src: LineReader, board: Boards.PacmanBoard) returns (r: Outcome)
    requires src.Valid() && board.Valid()
    modifies src, board, board.board
    ensures src.Valid() && board.Valid()
    ensures match SaveFormat.Rows(src.lines, old(src.pos), old(board.Model()), 0)
            case Err(e) => r == Fail(e)
            case Ok(g) => r == Pass && board.Model() == g && src.pos == old(src.pos) + board.height
  {
    ghost var spec := SaveFormat.Rows(src.lines, src.pos, board.Model(), 0);
    for j := 0 to board.height
      invariant src.Valid() && src.pos == old(src.pos) + j
      invariant board.Valid()
      invariant spec == SaveFormat.Rows(src.lines, src.pos, board.Model(), j)
    {
      var line := src.ReadLine();
      if line.None? {
        return Fail(NullPointer);
      }
      var row := Trim(line.value);
      if |row| != board.width {
        return Fail(Unpackable);
      }
      var filled := FillRow(board, row, j);
      if filled.Fail? {
        return filled;
      }
    }
    return Pass;
  }

  /** The inner loop of readBoard: setEntry of each character's item along row j, failing at the first non-key. */
  method FillRow(board: Boards.PacmanBoard, row: string, j: int) returns (r: Outcome)
    requires board.Valid() && 0 <= j < board.height && |row| == board.width
    modifies board, board.board
    ensures board.Valid()
    ensures if SaveFormat.KeysUpTo(row, |row|)
            then r == Pass && board.Model() == SaveFormat.FillRow(old(board.Model()), row, j, |row|)
            else r == Fail(IllegalArgument)
  {
    for i := 0 to |row|
      invariant board.Valid()
      invariant SaveFormat.KeysUpTo(row, i) && board.Model() == SaveFormat.FillRow(old(board.Model()), row, j, i)
    {
      var item := ItemOf(row[i]);
      if item.Err? {
        return Fail(item.error);
      }
      var _ := board.SetEntry(Position(i, j), item.value);
    }
    return Pass;
  }

  /**
   * readHunter: the value's five comma fields give a new hunter of the type
   * named, moved to the position, turned to the direction, and with
   * activateSpecial applied to the duration.
   */
  method ReadHunter(value: string, board: Boards.PacmanBoard) returns (res: Result<Hunters.Hunter>)
    requires board.Valid()
    ensures match SaveFormat.ReadHunter(value, board.width, board.height)
            case Err(e) => res == Err(e)
            case Ok(h) => res.Ok? && fresh(res.value) && res.value.Valid() && res.value.Model() == h
  {
    var hunterArray := Split(value, ",");
    if |hunterArray| != 5 {
      return Err(Unpackable);
    }
    var x :- SaveFormat.Int(hunterArray[0]);
    if x >= board.width || x < 0 {
      return Err(Unpackable);
    }
    var y :- SaveFormat.Int(hunterArray[1]);
    if y >= board.height || y < 0 {
      return Err(Unpackable);
    }
    var direction :- Directions.ValueOf(hunterArray[2]);
    var duration :- SaveFormat.Int(hunterArray[3]);
    if duration < 0 {
      return Err(Unpackable);
    }
    var kind :- HunterRules.KindOf(hunterArray[4]);
    var hunter := new Hunters.Hunter(kind);
    hunter.SetPosition(Some(Position(x, y)));
    hunter.SetDirection(Some(direction));
    hunter.ActivateSpecial(duration);
    return Ok(hunter);
  }

  /**
   * readGhost: the value's four comma fields move the new ghost passed in to
   * the position, turn it to the direction and set the phase and duration
   * of its "PHASE:duration" field.
   */
  method ReadGhost(value: string, g: Ghosts.Ghost, board: Boards.PacmanBoard) returns (res: Result<Ghosts.Ghost>)
    requires board.Valid() && g.Model() == GhostRules.Initial(g.kind)
    modifies g
    ensures match SaveFormat.ReadGhost(value, g.kind, board.width, board.height)
            case Err(e) => res == Err(e)
            case Ok(s) => res == Ok(g) && g.Valid() && g.Model() == s
  {
    var ghostArray := Split(value, ",");
    if |ghostArray| != 4 {
      return Err(Unpackable);
    }
    var x :- SaveFormat.Int(ghostArray[0]);
    if x >= board.width || x < 0 {
      return Err(Unpackable);
    }
    var y :- SaveFormat.Int(ghostArray[1]);
    if y >= board.height || y < 0 {
      return Err(Unpackable);
    }
    g.SetPosition(Some(Position(x, y)));
    var direction :- Directions.ValueOf(ghostArray[2]);
    g.SetDirection(Some(direction));
    var ghostPhaseArray := Split(ghostArray[3], ":");
    var phaseName :- SaveFormat.Field(ghostPhaseArray, 0);
    var phase :- Phases.ValueOf(phaseName);
    var digits :- SaveFormat.Field(ghostPhaseArray, 1);
    var duration :- SaveFormat.Int(digits);
    if duration < 0 {
      return Err(Unpackable);
    }
    g.SetPhase(Some(phase), duration);
    return Ok(g);
  }

  /**
   * readGame's local variables: the title, author, lives, level and score
   * read so far, the hunter and the four ghosts they will go into the game
   * with, and gameCount, the running sum of the key codes.
   */
  datatype Locals = Locals(title: Option<string>, author: Option<string>, lives: int, level: int, score: int,
                           hunter: Hunters.Hunter, blinky: Ghosts.Ghost, inky: Ghosts.Ghost,
                           pinky: Ghosts.Ghost, clyde: Ghosts.Ghost, gameCount: int)

  /** The hunter and ghosts are valid, the ghosts of their slots' kinds and four distinct objects. */
  ghost predicate LocalsOk(l: Locals)
    reads l.hunter, l.blinky, l.inky, l.pinky, l.clyde
  {
    l.hunter.Valid() && l.blinky.Valid() && l.inky.Valid() && l.pinky.Valid() && l.clyde.Valid() &&
    l.blinky.kind == GhostRules.Blinky && l.inky.kind == GhostRules.Inky &&
    l.pinky.kind == GhostRules.Pinky && l.clyde.kind == GhostRules.Clyde &&
    Games.Distinct(l.blinky, l.inky, l.pinky, l.clyde)
  }

  /** The locals as the assignments they stand for. */
  ghost function Gathered(l: Locals): (a: SaveFormat.Assignments)
    reads l.hunter, l.blinky, l.inky, l.pinky, l.clyde
    ensures |a.ghosts| == 4
  {
    SaveFormat.Assignments(l.title, l.author, l.lives, l.level, l.score, l.hunter.Model(),
                           [l.blinky.Model(), l.inky.Model(), l.pinky.Model(), l.clyde.Model()], l.gameCount)
  }

  /**
   * One pass of readGame's loop on the line read: the switch on its key,
   * each case storing the value field and adding its code to gameCount.
   */
  method Assignment(line: string, board: Boards.PacmanBoard, l: Locals) returns (res: Result<Locals>)
    requires board.Valid() && LocalsOk(l)
    ensures match SaveFormat.Assign(Gathered(l), line, board.width, board.height)
            case Err(e) => res == Err(e)
            case Ok(a) => res.Ok? && LocalsOk(res.value) && Gathered(res.value) == a
  {
    var valueArray := Split(line, " = ");
    if |valueArray| == 0 {
      return Err(IndexOutOfBounds);
    }
    var code := SaveFormat.KeyCode(valueArray[0]);
    if code.None? {
      return Ok(l);
    }
    if |valueArray| < 2 {
      return Err(IndexOutOfBounds);
    }
    var value := valueArray[1];
    var next := l.(gameCount := l.gameCount + code.value);
    if code.value == 1 {
      next := next.(title := Some(value));
    } else if code.value == 2 {
      next := next.(author := Some(value));
    } else if code.value <= 5 {
      var n :- SaveFormat.Int(value);
      if n < 0 {
        return Err(Unpackable);
      }
      next := if code.value == 3 then next.(lives := n) else if code.value == 4 then next.(level := n)
              else next.(score := n);
    } else if code.value == 6 {
      var hunter :- ReadHunter(value, board);
      next := next.(hunter := hunter);
    } else {
      next :- AssignGhost(value, code.value - 7, board, next);
    }
    return Ok(next);
  }

  /** The four ghost cases of readGame's switch: a new ghost of the slot's kind, read from the value. */
  method AssignGhost(value: string, slot: nat, board: Boards.PacmanBoard, l: Locals) returns (res: Result<Locals>)
    requires board.Valid() && LocalsOk(l) && slot < 4
    ensures match SaveFormat.ReadGhost(value, GameRules.Slots[slot], board.width, board.height)
            case Err(e) => res == Err(e)
            case Ok(g) => res.Ok? && LocalsOk(res.value) &&
                          Gathered(res.value) == Gathered(l).(ghosts := Gathered(l).ghosts[slot := g])
  {
    var created := new Ghosts.Ghost(GameRules.Slots[slot]);
    var read :- ReadGhost(value, created, board);
    WithGhostGathered(l, slot, read);
    return Ok(WithGhost(l, slot, read));
  }

  /** The locals with the variable of the given slot set to g. */
  function WithGhost(l: Locals, slot: nat, g: Ghosts.Ghost): Locals
    requires slot < 4
  {
    if slot == 0 then l.(blinky := g)
    else if slot == 1 then l.(inky := g)
    else if slot == 2 then l.(pinky := g)
    else l.(clyde := g)
  }

  /** Setting one slot's variable to a new ghost of its kind changes that ghost of the assignments only. */
  lemma WithGhostGathered(l: Locals, slot: nat, g: Ghosts.Ghost)
    requires LocalsOk(l) && slot < 4 && g.Valid() && g.kind == GameRules.Slots[slot]
    requires g != l.blinky && g != l.inky && g != l.pinky && g != l.clyde
    ensures LocalsOk(WithGhost(l, slot, g))
    ensures Gathered(WithGhost(l, slot, g)) == Gathered(l).(ghosts := Gathered(l).ghosts[slot := g.Model()])
  {
  }

  /** One pass of readGame's loop: the next line read, and its assignment applied to the locals. */
  method AssignNext(src: LineReader, board: Boards.PacmanBoard, l: Locals, ghost k: nat) returns (res: Result<Locals>)
    requires src.Valid() && board.Valid() && LocalsOk(l) && k < SaveFormat.GameLineCount
    modifies src
    ensures src.Valid()
    ensures res.Err? ==>
              SaveFormat.Assigned(src.lines, old(src.pos), k, old(Gathered(l)), board.width, board.height) == Err(res.error)
    ensures res.Ok? ==>
              LocalsOk(res.value) && src.pos == old(src.pos) + 1 &&
              SaveFormat.Assigned(src.lines, old(src.pos), k, old(Gathered(l)), board.width, board.height) ==
              SaveFormat.Assigned(src.lines, src.pos, k + 1, Gathered(res.value), board.width, board.height)
  {
    ghost var at, before := src.pos, Gathered(l);
    SaveFormat.AssignedStops(src.lines, at, k, before, board.width, board.height);
    var assignments := src.ReadLine();
    if assignments.None? {
      return Err(NullPointer);
    }
    assert Gathered(l) == before;
    res := Assignment(assignments.value, board, l);
    if res.Ok? {
      SaveFormat.AssignedStep(src.lines, at, k, before, Gathered(res.value), board.width, board.height);
    }
  }

  /** The loop of readGame: ten lines read, each one's assignment applied to the locals. */
  method ReadAssignments(src: LineReader, board: Boards.PacmanBoard, start: Locals) returns (res: Result<Locals>)
    requires src.Valid() && board.Valid() && LocalsOk(start)
    modifies src
    ensures src.Valid()
    ensures match SaveFormat.Assigned(src.lines, old(src.pos), 0, Gathered(start), board.width, board.height)
            case Err(e) => res == Err(e)
            case Ok(a) => res.Ok? && LocalsOk(res.value) && Gathered(res.value) == a &&
                          src.pos == old(src.pos) + SaveFormat.GameLineCount
  {
    var l := start;
    ghost var spec := SaveFormat.Assigned(src.lines, src.pos, 0, Gathered(start), board.width, board.height);
    for i := 0 to SaveFormat.GameLineCount
      invariant src.Valid() && src.pos == old(src.pos) + i
      invariant LocalsOk(l)
      invariant spec == SaveFormat.Assigned(src.lines, src.pos, i, Gathered(l), board.width, board.height)
    {
      l :- AssignNext(src, board, l, i);
    }
    return Ok(l);
  }

  /**
   * readGame: ten "key = value" lines, each switched on its key, whose key
   * codes must add up to 55; then a new game on the board with the title,
   * author, hunter, level, lives and score read, and the four ghosts read
   * put into the slots of its ghost list.
   */
  method ReadGame(src: LineReader, board: Boards.PacmanBoard, hunter: Hunters.Hunter)
    returns (res: Result<Games.PacmanGame>)
    requires src.Valid() && board.Valid() && hunter.Valid()
    modifies src
    ensures src.Valid()
    ensures match SaveFormat.GameBlock(src.lines, old(src.pos), board.Model(), hunter.Model())
            case Err(e) => res == Err(e)
            case Ok(s) => res.Ok? && fresh(res.value) && fresh(res.value.scores) && res.value.Valid() &&
                          res.value.Model() == s && res.value.board == board &&
                          src.pos == old(src.pos) + SaveFormat.GameLineCount
  {
    var blinky := new Ghosts.Ghost(GhostRules.Blinky);
    var inky := new Ghosts.Ghost(GhostRules.Inky);
    var pinky := new Ghosts.Ghost(GhostRules.Pinky);
    var clyde := new Ghosts.Ghost(GhostRules.Clyde);
    var l := Locals(None, None, 4, 0, 0, hunter, blinky, inky, pinky, clyde, 0);
    l :- ReadAssignments(src, board, l);
    if l.gameCount != SaveFormat.Checksum {
      return Err(Unpackable);
    }
    var game := NewGame(l.title, l.author, l.hunter, board, l.lives, l.level, l.score,
                        l.blinky, l.inky, l.pinky, l.clyde);
    return Ok(game);
  }

  /**
   * The end of readGame: a new game with the values read, its level and
   * lives set, the score added to its score board, and the four ghosts
   * written into the slots of the list getGhosts returns.
   */
  method NewGame(title: Option<string>, author: Option<string>, hunter: Hunters.Hunter, board: Boards.PacmanBoard,
                 lives: int, level: int, score: int,
                 blinky: Ghosts.Ghost, inky: Ghosts.Ghost, pinky: Ghosts.Ghost, clyde: Ghosts.Ghost)
    returns (game: Games.PacmanGame)
    requires hunter.Valid() && board.Valid() && Games.Distinct(blinky, inky, pinky, clyde)
    ensures fresh(game) && fresh(game.scores) && game.Valid() && game.board == board
    ensures var s := GameRules.NewGame(title, author, hunter.Model(), board.Model());
            var s := GameRules.SetLives(GameRules.SetLevel(s, level), lives);
            game.Model() == s.(score := HunterRules.IncreaseScore(s.score, score),
                               ghosts := [blinky.Model(), inky.Model(), pinky.Model(), clyde.Model()])
  {
    game := new Games.PacmanGame(title, author, hunter, board);
    game.SetLevel(level);
    game.SetLives(lives);
    label counted:
    game.scores.IncreaseScore(score);
    game.EntitiesFrame@counted();
    var ghostList := game.GetGhosts();
    SetGhosts(game, ghostList, blinky, inky, pinky, clyde);
  }

  /** The four ghostList.set calls that close readGame, through the list getGhosts returned. */
  method SetGhosts(game: Games.PacmanGame, ghostList: array<Ghosts.Ghost>,
                   blinky: Ghosts.Ghost, inky: Ghosts.Ghost, pinky: Ghosts.Ghost, clyde: Ghosts.Ghost)
    requires game.Valid() && ghostList == game.ghosts && Games.Distinct(blinky, inky, pinky, clyde)
    modifies ghostList
    ensures game.Valid()
    ensures game.Model() == old(game.Model()).(ghosts := [blinky.Model(), inky.Model(), pinky.Model(), clyde.Model()])
  {
    ghostList[0] := blinky;
    ghostList[1] := inky;
    ghostList[2] := pinky;
    ghostList[3] := clyde;
  }

  /**
   * readScores: every remaining line is a "name : value" entry put into a
   * map, a name seen before being unpackable; the map goes through
   * setScores, and the lines read must then be the first entries of
   * getEntriesByName, in order.
   */
  method ReadScores(src: LineReader, game: Games.PacmanGame) returns (r: Outcome)
    requires src.Valid() && game.Valid()
    modifies src, game.scores
    ensures src.Valid()
    ensures match SaveFormat.ScoresBlock(src.lines, old(src.pos), old(game.Model()))
            case Err(e) => r == Fail(e)
            case Ok(s) => r == Pass && game.Valid() && game.Model() == s && src.pos == |src.lines|
  {
    ghost var start, before := src.pos, game.Model();
    var read, scoreList, myList, entries := ReadEntries(src);
    if read.Fail? {
      return read;
    }
    assert game.Model() == before;
    StoreScores(game, scoreList, entries);
    var orderedList := game.scores.GetEntriesByName();
    r := CheckOrder(myList, orderedList);
  }

  /** setScores with the map of the entries read: the table gains every valid entry, nothing else in the game changes. */
  method StoreScores(game: Games.PacmanGame, scoreList: map<string, int>, ghost entries: seq<Entry>)
    requires game.Valid() && SaveFormat.UniqueNames(entries) && scoreList == ToMap(entries)
    modifies game.scores
    ensures game.Valid()
    ensures game.Model() == old(game.Model()).(table := SaveFormat.StoreAll(old(game.scores.table), entries))
  {
    ghost var table := SaveFormat.StoreAll(game.scores.table, entries);
    SaveFormat.StoreAllTable(game.scores.table, entries);
    game.scores.SetScores(Some(scoreList));
    TableCanonical(game.scores.table, table);
  }

  /**
   * One line of readScores' loop: split into a name and an int value, the
   * name not yet in the map of the entries read.
   */
  method ReadEntry(line: string, scoreList: map<string, int>, ghost entries: seq<Entry>, ghost lines: seq<string>, ghost at: nat)
    returns (r: Result<Entry>, nextList: map<string, int>)
    requires scoreList == ToMap(entries) && SaveFormat.UniqueNames(entries) && at < |lines| && line == lines[at]
    ensures r.Err? ==> SaveFormat.ScoreEntries(lines, at, entries) == Err(r.error)
    ensures r.Ok? ==>
              SaveFormat.UniqueNames(entries + [r.value]) && nextList == ToMap(entries + [r.value]) &&
              SaveFormat.ScoreEntries(lines, at, entries) == SaveFormat.ScoreEntries(lines, at + 1, entries + [r.value])
  {
    nextList := scoreList;
    var scoreArray := Split(line, " : ");
    if |scoreArray| == 0 {
      return Err(IndexOutOfBounds), nextList;
    }
    if scoreArray[0] in scoreList {
      return Err(Unpackable), nextList;
    }
    if |scoreArray| < 2 {
      return Err(IndexOutOfBounds), nextList;
    }
    var v :- SaveFormat.Int(scoreArray[1]);
    r := Ok(Entry(scoreArray[0], v));
    SaveFormat.NewNameUnique(entries, r.value.name, r.value.value);
    SaveFormat.ToMapSnoc(entries, r.value);
    nextList := scoreList[r.value.name := r.value.value];
  }

  /**
   * The read loop of readScores: each line split into a name and an int
   * value, put into the map unless the name is already there, and kept in
   * the list of lines read.
   */
  method ReadEntries(src: LineReader)
    returns (r: Outcome, scoreList: map<string, int>, myList: seq<string>, ghost entries: seq<Entry>)
    requires src.Valid()
    modifies src
    ensures src.Valid()
    ensures match SaveFormat.ScoreEntries(src.lines, old(src.pos), [])
            case Err(e) => r == Fail(e)
            case Ok(es) => r == Pass && entries == es && SaveFormat.UniqueNames(es) && scoreList == ToMap(es) &&
                           myList == src.lines[old(src.pos)..] && src.pos == |src.lines|
  {
    ghost var start, lines := src.pos, src.lines;
    ghost var spec := SaveFormat.ScoreEntries(lines, start, []);
    entries := [];
    scoreList := map[];
    myList := [];
    var line := src.ReadLine();
    ghost var at := start;
    while line.Some?
      invariant src.Valid() && src.lines == lines && start <= at <= |lines|
      invariant line.Some? ==> src.pos == at + 1 && line.value == lines[at]
      invariant line.None? ==> src.pos == at == |lines|
      invariant myList == lines[start..at] && SaveFormat.UniqueNames(entries) && scoreList == ToMap(entries)
      invariant spec == SaveFormat.ScoreEntries(lines, at, entries)
      decreases |lines| - at
    {
      var e;
      e, scoreList := ReadEntry(line.value, scoreList, entries, lines, at);
      if e.Err? {
        return Fail(e.error), scoreList, myList, entries;
      }
      entries := entries + [e.value];
      assert lines[start..at + 1] == lines[start..at] + [line.value];
      myList := myList + [line.value];
      at := at + 1;
      line := src.ReadLine();
    }
    r := Pass;
  }

  /** The check that closes readScores: each line read equals the entry of the ordered list at its index. */
  method CheckOrder(myList: seq<string>, orderedList: seq<string>) returns (r: Outcome)
    ensures r == Pass <==> |myList| <= |orderedList| && myList == orderedList[..|myList|]
    ensures r == SaveFormat.Matches(myList, orderedList, 0)
  {
    SaveFormat.MatchesPrefix(myList, orderedList);
    for i := 0 to |myList|
      invariant SaveFormat.Matches(myList, orderedList, 0) == SaveFormat.Matches(myList, orderedList, i)
    {
      if i >= |orderedList| {
        return Fail(IndexOutOfBounds);
      }
      if myList[i] != orderedList[i] {
        return Fail(Unpackable);
      }
    }
    return Pass;
  }

  /**
   * The body of read's loop, on the line just read: a blank line counts as
   * a stage, a comment is skipped, and each block header reads its block
   * when the stage is the one it must come at.
   */
  method Dispatch(r2: LineReader, line: string, currentStage: int, board: Boards.PacmanBoard,
               game: Games.PacmanGame, hunter: Hunters.Hunter)
    returns (r: Outcome, stage: int, nextBoard: Boards.PacmanBoard, nextGame: Games.PacmanGame)
    requires r2.Valid() && 0 < r2.pos && line == r2.lines[r2.pos - 1]
    requires board.Valid() && game.Valid() && hunter.Valid() && hunter.Model() == SaveFormat.DefaultHunter()
    modifies r2, game.scores
    ensures r2.Valid()
    ensures match SaveFormat.Step(r2.lines, old(r2.pos) - 1,
                                  SaveFormat.Reading(currentStage, old(board.Model()), old(game.Model())))
            case Err(_) => r.Fail?
            case Ok(next) => r == Pass && r2.pos == next.1 && nextBoard.Valid() && nextGame.Valid() &&
                             next.0 == SaveFormat.Reading(stage, nextBoard.Model(), nextGame.Model())
    ensures nextGame == game || (fresh(nextGame) && fresh(nextGame.scores))
  {
    stage, nextBoard, nextGame := currentStage, board, game;
    if line == "" {
      stage := currentStage + 1;
    } else if line[0] == ';' {
    } else if line == "[Board]" && currentStage == 0 {
      var read := ReadBoard(r2);
      if read.Err? {
        return Fail(read.error), stage, nextBoard, nextGame;
      }
      nextBoard := read.value;
      stage := currentStage + 1;
    } else if line == "[Game]" && currentStage == 2 {
      var read := ReadGame(r2, board, hunter);
      if read.Err? {
        return Fail(read.error), stage, nextBoard, nextGame;
      }
      nextGame := read.value;
      stage := currentStage + 1;
    } else if line == "[Scores]" && currentStage == 4 {
      r := ReadScores(r2, game);
      if r.Fail? {
        return;
      }
      stage := currentStage + 1;
    } else {
      return Fail(Unpackable), stage, nextBoard, nextGame;
    }
    r := Pass;
  }

  /** read's placeholders: a 1 by 1 board, a Hungry hunter and a game titled "title" by "author". */
  method Placeholders() returns (board: Boards.PacmanBoard, hunter: Hunters.Hunter, game: Games.PacmanGame)
    ensures fresh(board) && fresh(hunter) && fresh(game) && fresh(game.scores)
    ensures board.Valid() && game.Valid() && hunter.Valid() && hunter.Model() == SaveFormat.DefaultHunter()
    ensures SaveFormat.Reading(0, board.Model(), game.Model()) == SaveFormat.Start()
  {
    board := new Boards.PacmanBoard(1, 1);
    hunter := new Hunters.Hunter(HunterRules.Hungry);
    game := new Games.PacmanGame(Some("title"), Some("author"), hunter, board);
    SaveFormat.DefaultsAreNew();
  }

  /**
   * One pass of read's loop: the next line read, and handled unless the
   * input has ended. Passing on means the rest of the input reads as it did
   * before the pass.
   */
  method Block(r2: LineReader, currentStage: int, board: Boards.PacmanBoard,
               game: Games.PacmanGame, hunter: Hunters.Hunter)
    returns (done: bool, r: Outcome, stage: int, nextBoard: Boards.PacmanBoard, nextGame: Games.PacmanGame)
    requires r2.Valid() && board.Valid() && game.Valid() && hunter.Valid()
    requires hunter.Model() == SaveFormat.DefaultHunter()
    modifies r2, game.scores
    ensures r2.Valid() && hunter.Valid() && hunter.Model() == SaveFormat.DefaultHunter()
    ensures r.Fail? ==>
              SaveFormat.Blocks(r2.lines, old(r2.pos),
                                SaveFormat.Reading(currentStage, old(board.Model()), old(game.Model()))).Err?
    ensures r.Pass? ==>
              nextBoard.Valid() && nextGame.Valid() &&
              (done ==> old(r2.pos) == r2.pos == |r2.lines|) &&
              (!done ==> old(r2.pos) < r2.pos) &&
              SaveFormat.Blocks(r2.lines, old(r2.pos),
                                SaveFormat.Reading(currentStage, old(board.Model()), old(game.Model()))) ==
              SaveFormat.Blocks(r2.lines, r2.pos, SaveFormat.Reading(stage, nextBoard.Model(), nextGame.Model()))
    ensures nextGame == game || (fresh(nextGame) && fresh(nextGame.scores))
  {
    ghost var at, before := r2.pos, SaveFormat.Reading(currentStage, board.Model(), game.Model());
    var line := r2.ReadLine();
    if line.None? {
      return true, Pass, currentStage, board, game;
    }
    SaveFormat.BlocksNext(r2.lines, at, before);
    done := false;
    r, stage, nextBoard, nextGame := Dispatch(r2, line.value, currentStage, board, game, hunter);
  }

  /**
   * read: a 1 by 1 board, a Hungry hunter and a game titled "title" by
   * "author" to start from; then the block-level loop over the lines, with
   * its stage counter, and the check that it ends at stage 5. Every failure
   * becomes an UnpackableException.
   */
  method Read(lines: seq<string>) returns (res: Result<Games.PacmanGame>)
    ensures match SaveFormat.Read(lines)
            case Err(e) => res == Err(e)
            case Ok(s) => res.Ok? && res.value.Valid() && res.value.Model() == s
  {
    var board, hunter, game := Placeholders();
    var r2 := new LineReader(lines);
    var currentStage := 0;
    ghost var spec := SaveFormat.Blocks(lines, 0, SaveFormat.Start());
    var done := false;
    while !done
      invariant r2.Valid() && r2.lines == lines && fresh(r2)
      invariant hunter.Valid() && hunter.Model() == SaveFormat.DefaultHunter()
      invariant board.Valid() && game.Valid() && fresh(game.scores)
      invariant done ==> r2.pos == |lines|
      invariant spec == SaveFormat.Blocks(lines, r2.pos, SaveFormat.Reading(currentStage, board.Model(), game.Model()))
      decreases if done then 0 else |lines| - r2.pos + 1
    {
      var passed;
      done, passed, currentStage, board, game := Block(r2, currentStage, board, game, hunter);
      if passed.Fail? {
        return Err(Unpackable);
      }
    }
    if currentStage != 5 {
      return Err(Unpackable);
    }
    return Ok(game);
  }
}
