/**
 * The save format of pacman.game.GameReader and pacman.game.GameWriter,
 * stated on values. The input is the list of lines that successive readLine
 * calls return; each block of the reader is a function of those lines and of
 * the index of its first line, written as a fold over the lines read so far
 * so that the loops of module GameReader can be proved against it. A failed
 * step carries the Java exception it throws; read turns every one of them
 * into UnpackableException.
 */
module SaveFormat {
  import opened Wrappers
  import opened Text
  import opened Positions
  import opened Directions
  import opened BoardItems
  import opened Phases
  import opened Entities
  import opened Scores
  import Grids
  import GhostRules
  import HunterRules
  import GameRules

  // ---------------------------------------------------------------------------
  // Reading lines and fields
  // ---------------------------------------------------------------------------

  /** The line at index pos, which the reader dereferences: null past the end throws NullPointerException. */
  function Line(lines: seq<string>, pos: nat): (r: Result<string>)
    ensures r.Ok? <==> pos < |lines|
    ensures r.Ok? ==> r.value == lines[pos]
    ensures r.Err? ==> r.error == NullPointer
  {
    if pos < |lines| then Ok(lines[pos]) else Err(NullPointer)
  }

  /** Element i of the array split returns: ArrayIndexOutOfBoundsException past its end. */
  function Field(fields: seq<string>, i: nat): (r: Result<string>)
    ensures r.Ok? <==> i < |fields|
    ensures r.Ok? ==> r.value == fields[i]
    ensures r.Err? ==> r.error == IndexOutOfBounds
  {
    if i < |fields| then Ok(fields[i]) else Err(IndexOutOfBounds)
  }

  /** Integer.parseInt: NumberFormatException, an IllegalArgumentException, on anything but an int. */
  function Int(s: string): (r: Result<int>)
    ensures r.Ok? <==> ParseInt(s).Some?
    ensures r.Ok? ==> Some(r.value) == ParseInt(s) && InIntRange(r.value)
    ensures r.Err? ==> r.error == IllegalArgument
  {
    match ParseInt(s)
    case None => Err(IllegalArgument)
    case Some(v) => Ok(v)
  }

  // ---------------------------------------------------------------------------
  // [Board]
  // ---------------------------------------------------------------------------

  /** The dimension line: exactly two comma fields, a width and a height of at least one. */
  function Dimensions(line: string): (r: Result<(int, int)>)
    ensures r.Ok? ==> r.value.0 >= 1 && r.value.1 >= 1
    ensures r.Ok? ==> var f := Split(line, ",");
                      |f| == 2 && ParseInt(f[0]) == Some(r.value.0) && ParseInt(f[1]) == Some(r.value.1)
  {
    var f := Split(line, ",");
    if |f| != 2 then Err(Unpackable)
    else
      var width :- Int(f[0]);
      if width < 1 then Err(Unpackable)
      else
        var height :- Int(f[1]);
        if height < 1 then Err(Unpackable) else Ok((width, height))
  }

  /** The first n characters of the row are board item keys. */
  predicate KeysUpTo(row: string, n: nat)
    requires n <= |row|
  {
    forall k :: 0 <= k < n ==> row[k] in Keys
  }

  /** The board after setEntry(Position(i, j), getItem(row[i])) for i = 0 .. n-1, in that order. */
  function FillRow(g: Grids.Grid, row: string, j: int, n: nat): (r: Grids.Grid)
    requires Grids.WellFormed(g) && 0 <= j < g.height && n <= |row| == g.width && KeysUpTo(row, n)
    ensures Grids.WellFormed(r) && r.width == g.width && r.height == g.height
  {
    if n == 0 then g
    else Grids.Set(FillRow(g, row, j, n - 1), Position(n - 1, j), ItemOf(row[n - 1]).value).value
  }

  /**
   * The rows of the block from row j on, row j being the line at index pos
   * with surrounding blanks trimmed, filled into the board g: a missing line
   * throws NullPointerException, a row of the wrong length is unpackable and
   * a character that is no item key throws IllegalArgumentException.
   */
  function Rows(lines: seq<string>, pos: nat, g: Grids.Grid, j: nat): (r: Result<Grids.Grid>)
    requires Grids.WellFormed(g) && j <= g.height
    ensures r.Ok? ==> Grids.WellFormed(r.value) && r.value.width == g.width && r.value.height == g.height
    ensures r.Ok? && j < g.height ==> pos + (g.height - j) <= |lines|
    decreases g.height - j
  {
    if j == g.height then Ok(g)
    else
      var line :- Line(lines, pos);
      var row := Trim(line);
      if |row| != g.width then Err(Unpackable)
      else if !KeysUpTo(row, |row|) then Err(IllegalArgument)
      else Rows(lines, pos + 1, FillRow(g, row, j, g.width), j + 1)
  }

  /**
   * readBoard, whose dimension line is at index at: the board and the index
   * of the line after its last row.
   */
  function BoardBlock(lines: seq<string>, at: nat): (r: Result<(Grids.Grid, nat)>)
    ensures r.Ok? ==> Grids.WellFormed(r.value.0) && r.value.1 == at + 1 + r.value.0.height <= |lines|
  {
    var dimension :- Line(lines, at);
    var size :- Dimensions(dimension);
    var g :- Rows(lines, at + 1, Grids.Fresh(size.0, size.1).value, 0);
    Ok((g, at + 1 + size.1))
  }

  // ---------------------------------------------------------------------------
  // [Game]
  // ---------------------------------------------------------------------------

  /** The position field pair of an entity: integers inside a board of the given size. */
  function Coordinates(xs: string, ys: string, width: int, height: int): (r: Result<Position>)
    ensures r.Ok? ==> 0 <= r.value.x < width && 0 <= r.value.y < height
    ensures r.Ok? ==> ParseInt(xs) == Some(r.value.x) && ParseInt(ys) == Some(r.value.y)
  {
    var x :- Int(xs);
    if x >= width || x < 0 then Err(Unpackable)
    else
      var y :- Int(ys);
      if y >= height || y < 0 then Err(Unpackable) else Ok(Position(x, y))
  }

  /**
   * readHunter: "x,y,DIRECTION,duration,TYPE" gives a new hunter of that type
   * at that position and direction, with activateSpecial(duration) applied.
   */
  function ReadHunter(value: string, width: int, height: int): (r: Result<HunterRules.HunterState>)
    ensures r.Ok? ==> var f := Split(value, ",");
                      |f| == 5 && !r.value.dead && r.value.duration >= 0 &&
                      0 <= r.value.entity.position.x < width && 0 <= r.value.entity.position.y < height &&
                      HunterRules.TypeName(r.value.kind) == f[4] && Directions.Name(r.value.entity.direction) == f[2] &&
                      r.value.used == (r.value.duration > 0) && ParseInt(f[3]) == Some(r.value.duration)
  {
    var f := Split(value, ",");
    if |f| != 5 then Err(Unpackable)
    else
      var p :- Coordinates(f[0], f[1], width, height);
      var direction :- Directions.ValueOf(f[2]);
      var duration :- Int(f[3]);
      if duration < 0 then Err(Unpackable)
      else
        var kind :- HunterRules.KindOf(f[4]);
        var h := HunterRules.Initial(kind);
        var placed := h.(entity := WithDirection(WithPosition(h.entity, Some(p)), Some(direction)));
        Ok(HunterRules.ActivateSpecial(placed, duration))
  }

  /**
   * readGhost: "x,y,DIRECTION,PHASE:duration" gives a new ghost of the given
   * kind at that position and direction, in that phase for that long.
   */
  function ReadGhost(value: string, kind: GhostRules.GhostKind, width: int, height: int): (r: Result<GhostRules.GhostState>)
    ensures r.Ok? ==> var f := Split(value, ",");
                      |f| == 4 && r.value.kind == kind && !r.value.dead && r.value.duration >= 0 &&
                      0 <= r.value.entity.position.x < width && 0 <= r.value.entity.position.y < height &&
                      Directions.Name(r.value.entity.direction) == f[2] && GhostRules.Sane(r.value)
  {
    var f := Split(value, ",");
    if |f| != 4 then Err(Unpackable)
    else
      var p :- Coordinates(f[0], f[1], width, height);
      var direction :- Directions.ValueOf(f[2]);
      var phaseInfo := Split(f[3], ":");
      var phaseName :- Field(phaseInfo, 0);
      var phase :- Phases.ValueOf(phaseName);
      var digits :- Field(phaseInfo, 1);
      var duration :- Int(digits);
      if duration < 0 then Err(Unpackable)
      else
        var g := GhostRules.Initial(kind);
        var placed := g.(entity := WithDirection(WithPosition(g.entity, Some(p)), Some(direction)));
        Ok(GhostRules.SetPhase(placed, Some(phase), duration))
  }

  /** What readGame has gathered from its assignment lines, and the running sum of their key codes. */
  datatype Assignments = Assignments(
    title: Option<string>, author: Option<string>, lives: int, level: int, score: int,
    hunter: HunterRules.HunterState, ghosts: seq<GhostRules.GhostState>, count: int)

  /** Before the first line: no title or author, four lives, level and score zero, a new ghost per slot. */
  function Unassigned(hunter: HunterRules.HunterState): Assignments {
    Assignments(None, None, GameRules.StartLives, 0, 0, hunter,
                [GhostRules.Initial(GhostRules.Blinky), GhostRules.Initial(GhostRules.Inky),
                 GhostRules.Initial(GhostRules.Pinky), GhostRules.Initial(GhostRules.Clyde)], 0)
  }

  /**
   * The keys readGame knows, in the order of its switch, which is also the
   * order the writer emits them in.
   */
  const GameKeys: seq<string> := ["title", "author", "lives", "level", "score",
                                  "hunter", "blinky", "inky", "pinky", "clyde"]

  /**
   * The code a known key adds to the running sum: title 1, author 2, ...
   * clyde 10; None for a key the switch ignores.
   */
  function KeyCode(key: string): (r: Option<nat>)
    ensures r.Some? ==> 1 <= r.value <= 10 && GameKeys[r.value - 1] == key
  {
    if key == "title" then Some(1)
    else if key == "author" then Some(2)
    else if key == "lives" then Some(3)
    else if key == "level" then Some(4)
    else if key == "score" then Some(5)
    else if key == "hunter" then Some(6)
    else if key == "blinky" then Some(7)
    else if key == "inky" then Some(8)
    else if key == "pinky" then Some(9)
    else if key == "clyde" then Some(10)
    else None
  }

  /** A count of lives, a level or a score: an int of at least zero. */
  function Counter(value: string): (r: Result<int>)
    ensures r.Ok? ==> r.value >= 0 && ParseInt(value) == Some(r.value)
  {
    var n :- Int(value);
    if n < 0 then Err(Unpackable) else Ok(n)
  }

  /**
   * The value of the known key with the given code stored: the counters must
   * be ints of at least zero, the hunter and the ghosts are read from their
   * text forms; the code is added to the running sum.
   */
  function StoreValue(a: Assignments, code: nat, v: string, width: int, height: int): (r: Result<Assignments>)
    requires |a.ghosts| == 4 && 1 <= code <= 10
    ensures r.Ok? ==> |r.value.ghosts| == 4 && r.value.count == a.count + code
  {
    if code == 1 then Ok(a.(title := Some(v), count := a.count + 1))
    else if code == 2 then Ok(a.(author := Some(v), count := a.count + 2))
    else if code == 3 then
      var n :- Counter(v);
      Ok(a.(lives := n, count := a.count + 3))
    else if code == 4 then
      var n :- Counter(v);
      Ok(a.(level := n, count := a.count + 4))
    else if code == 5 then
      var n :- Counter(v);
      Ok(a.(score := n, count := a.count + 5))
    else if code == 6 then
      var h :- ReadHunter(v, width, height);
      Ok(a.(hunter := h, count := a.count + 6))
    else
      var i := code - 7;
      var g :- ReadGhost(v, GameRules.Slots[i], width, height);
      Ok(a.(ghosts := a.ghosts[i := g], count := a.count + code))
  }

  /**
   * One "key = value" line of the [Game] block: a known key reads the value
   * field, which throws ArrayIndexOutOfBoundsException when it is missing,
   * and stores it; any other key is ignored and adds nothing.
   */
  function Assign(a: Assignments, line: string, width: int, height: int): (r: Result<Assignments>)
    requires |a.ghosts| == 4
    ensures r.Ok? ==> |r.value.ghosts| == 4
  {
    var f := Split(line, " = ");
    var key :- Field(f, 0);
    match KeyCode(key)
    case None => Ok(a)
    case Some(code) =>
      var v :- Field(f, 1);
      StoreValue(a, code, v, width, height)
  }

  /** The number of assignment lines the [Game] block holds. */
  const GameLineCount := 10

  /** The sum of the ten key codes, 1 + 2 + ... + 10. */
  const Checksum := 55

  /** The assignments once the lines of the block from line k on, the one at index pos first, are read. */
  function Assigned(lines: seq<string>, pos: nat, k: nat, a: Assignments, width: int, height: int)
    : (r: Result<Assignments>)
    requires |a.ghosts| == 4 && k <= GameLineCount
    ensures r.Ok? ==> |r.value.ghosts| == 4
    ensures r.Ok? && k < GameLineCount ==> pos + (GameLineCount - k) <= |lines|
    decreases GameLineCount - k, 2
  {
    if k == GameLineCount then Ok(a) else AssignedFrom(lines, pos, k, a, width, height)
  }

  /** The assignments once the line at pos, the k-th of the block, has been read. */
  function AssignedFrom(lines: seq<string>, pos: nat, k: nat, a: Assignments, width: int, height: int)
    : (r: Result<Assignments>)
    requires |a.ghosts| == 4 && k < GameLineCount
    ensures r.Ok? ==> |r.value.ghosts| == 4 && pos + (GameLineCount - k) <= |lines|
    decreases GameLineCount - k, 1
  {
    var line :- Line(lines, pos);
    AssignedLine(lines, pos, k, a, line, width, height)
  }

  /** The assignments once line, read at pos, has been applied to a. */
  function AssignedLine(lines: seq<string>, pos: nat, k: nat, a: Assignments, line: string, width: int, height: int)
    : (r: Result<Assignments>)
    requires |a.ghosts| == 4 && k < GameLineCount && pos < |lines|
    ensures r.Ok? ==> |r.value.ghosts| == 4 && pos + (GameLineCount - k) <= |lines|
    decreases GameLineCount - k, 0
  {
    var next :- Assign(a, line, width, height);
    Assigned(lines, pos + 1, k + 1, next, width, height)
  }

  /**
   * readGame with its first assignment line at index start: ten lines whose
   * key codes add up to 55, then a new game on the board with the hunter,
   * level, lives and score read, and the ghosts read in its four slots.
   */
  function GameBlock(lines: seq<string>, start: nat, board: Grids.Grid, hunter: HunterRules.HunterState)
    : (r: Result<GameRules.GameState>)
    requires Grids.WellFormed(board)
    ensures r.Ok? ==> GameRules.Sane(r.value) && r.value.board == board && r.value.table == [] &&
                      r.value.tick == 0 && r.value.lives >= 0 && r.value.level >= 0 && r.value.score >= 0
    ensures r.Ok? ==> start + GameLineCount <= |lines|
  {
    var a :- Assigned(lines, start, 0, Unassigned(hunter), board.width, board.height);
    if a.count != Checksum then Err(Unpackable)
    else
      var s := GameRules.NewGame(a.title, a.author, a.hunter, board);
      var s := GameRules.SetLives(GameRules.SetLevel(s, a.level), a.lives);
      Ok(s.(score := HunterRules.IncreaseScore(s.score, a.score), ghosts := a.ghosts))
  }

  // ---------------------------------------------------------------------------
  // [Scores]
  // ---------------------------------------------------------------------------

  /** No two entries share a name. */
  predicate UniqueNames(es: seq<Entry>) {
    forall i, j :: 0 <= i < j < |es| ==> es[i].name != es[j].name
  }

  /**
   * One "name : value" line of the [Scores] block after the entries es: a
   * line without a name field or without a value field throws
   * ArrayIndexOutOfBoundsException, a name seen before is unpackable and a
   * value that is no int throws NumberFormatException.
   */
  function ScoreEntry(line: string, es: seq<Entry>): (r: Result<Entry>)
    ensures r.Ok? ==> r.value.name !in ToMap(es)
  {
    var f := Split(line, " : ");
    var name :- Field(f, 0);
    if name in ToMap(es) then Err(Unpackable)
    else
      var digits :- Field(f, 1);
      var v :- Int(digits);
      Ok(Entry(name, v))
  }

  /** The entries es read so far, followed by the lines from index pos to the end, in the order read. */
  function ScoreEntries(lines: seq<string>, pos: nat, es: seq<Entry>): (r: Result<seq<Entry>>)
    requires pos <= |lines|
    ensures r.Ok? ==> |r.value| == |es| + (|lines| - pos)
    decreases |lines| - pos, 1
  {
    if pos == |lines| then Ok(es) else ScoreEntriesAfter(lines, pos, es, ScoreEntry(lines[pos], es))
  }

  /** The entries once the line at pos has been read as entry: its error, or the entries read on from the next line. */
  function ScoreEntriesAfter(lines: seq<string>, pos: nat, es: seq<Entry>, entry: Result<Entry>): (r: Result<seq<Entry>>)
    requires pos < |lines|
    ensures r.Ok? ==> |r.value| == |es| + (|lines| - pos)
    decreases |lines| - pos, 0
  {
    var e :- entry;
    ScoreEntries(lines, pos + 1, es + [e])
  }

  /** The entries after one more line: the error of that line, or the entries read on from the next. */
  lemma ScoreEntriesNext(lines: seq<string>, pos: nat, es: seq<Entry>)
    requires pos < |lines|
    ensures ScoreEntry(lines[pos], es).Err? ==> ScoreEntries(lines, pos, es) == Err(ScoreEntry(lines[pos], es).error)
    ensures ScoreEntry(lines[pos], es).Ok? ==>
              ScoreEntries(lines, pos, es) == ScoreEntries(lines, pos + 1, es + [ScoreEntry(lines[pos], es).value])
  {
  }

  /** Reading entries never repeats a name: each line's name is checked against the map of those before. */
  lemma {:induction false} ScoreEntriesUnique(lines: seq<string>, pos: nat, es: seq<Entry>)
    requires pos <= |lines| && UniqueNames(es)
    ensures ScoreEntries(lines, pos, es).Ok? ==> UniqueNames(ScoreEntries(lines, pos, es).value)
    decreases |lines| - pos
  {
    if pos < |lines| && ScoreEntry(lines[pos], es).Ok? {
      var e := ScoreEntry(lines[pos], es).value;
      NewNameUnique(es, e.name, e.value);
      ScoreEntriesUnique(lines, pos + 1, es + [e]);
    }
  }

  lemma NewNameUnique(es: seq<Entry>, name: string, v: int)
    requires UniqueNames(es) && name !in ToMap(es)
    ensures UniqueNames(es + [Entry(name, v)])
  {
    forall k | 0 <= k < |es|
      ensures es[k].name != name
    {
      NameIsKey(es, k);
    }
  }
  lemma {:induction false} ToMapSnoc(es: seq<Entry>, e: Entry)
    requires e.name !in ToMap(es)
    ensures ToMap(es + [e]) == ToMap(es)[e.name := e.value]
    decreases |es|
  {
    if es == [] {
      assert [] + [e] == [e];
    } else {
      assert (es + [e])[1..] == es[1..] + [e];
      assert ToMap(es) == ToMap(es[1..])[es[0].name := es[0].value];
      if e.name in ToMap(es[1..]) {
        assert false;
      }
      ToMapSnoc(es[1..], e);
    }
  }

  /** setScore of one entry: stored when its name is valid and its value at least zero. */
  function Store(t: seq<Entry>, e: Entry): seq<Entry> {
    if Acceptable(e) then Put(t, e.name, e.value) else t
  }

  /** setScore of every entry in turn, which is what setScores does with the entries of its map. */
  function StoreAll(t: seq<Entry>, es: seq<Entry>): seq<Entry>
    decreases |es|
  {
    if es == [] then t else StoreAll(Store(t, es[0]), es[1..])
  }

  /** Whether setScore accepts an entry: a valid name and a value of at least zero. */
  predicate Acceptable(e: Entry) {
    ValidName(e.name) && e.value >= 0
  }

  /** Storing one entry keeps a valid table and adds the entry to its map when it is acceptable. */
  lemma StoreOne(t: seq<Entry>, e: Entry)
    requires Table(t)
    ensures Table(Store(t, e)) && |Store(t, e)| <= |t| + 1
    ensures ToMap(Store(t, e)) == if Acceptable(e) then ToMap(t)[e.name := e.value] else ToMap(t)
  {
    if Acceptable(e) {
      PutSorted(t, e.name, e.value);
      PutValid(t, e.name, e.value);
      PutContent(t, e.name, e.value);
      PutLength(t, e.name, e.value);
    }
  }

  /** The acceptable part of the map of distinct entries, taken apart at its first entry. */
  lemma AcceptedFirst(es: seq<Entry>)
    requires es != [] && UniqueNames(es)
    ensures es[0].name !in Accepted(ToMap(es[1..]))
    ensures Accepted(ToMap(es)) ==
            if Acceptable(es[0]) then Accepted(ToMap(es[1..]))[es[0].name := es[0].value]
            else Accepted(ToMap(es[1..]))
  {
    var e := es[0];
    if e.name in ToMap(es[1..]) {
      var k := KeyIndex(es[1..], e.name);
      assert false;
    }
    assert ToMap(es) == ToMap(es[1..])[e.name := e.value];
  }

  /**
   * Storing entries with distinct names keeps a valid table and adds exactly
   * the acceptable ones to its map, whatever order they come in; so it is
   * the table setScores leaves, which module Scores proves has that map.
   */
  lemma {:induction false} StoreAllTable(t: seq<Entry>, es: seq<Entry>)
    requires Table(t) && UniqueNames(es)
    ensures Table(StoreAll(t, es))
    ensures ToMap(StoreAll(t, es)) == ToMap(t) + Accepted(ToMap(es))
    ensures |StoreAll(t, es)| <= |t| + |es|
    decreases |es|
  {
    if es == [] {
      assert Accepted(map[]) == map[];
    } else {
      var e := es[0];
      StoreOne(t, e);
      StoreAllTable(Store(t, e), es[1..]);
      AcceptedFirst(es);
      if Acceptable(e) {
        UpdateThenUnion(ToMap(t), Accepted(ToMap(es[1..])), e.name, e.value);
      }
    }
  }

  lemma UpdateThenUnion(m: map<string, int>, a: map<string, int>, k: string, v: int)
    requires k !in a
    ensures m[k := v] + a == m + a[k := v]
  {
  }

  lemma {:induction false} PutLength(t: seq<Entry>, name: string, v: int)
    ensures |Put(t, name, v)| <= |t| + 1
    decreases |t|
  {
    if t != [] && t[0].name != name && !Below(name, t[0].name) {
      PutLength(t[1..], name, v);
    }
  }

  /**
   * The check that closes readScores, from index i on: every line read must
   * equal the entry of getEntriesByName at its index, and an index past the
   * end of that list throws IndexOutOfBoundsException.
   */
  function Matches(read: seq<string>, ordered: seq<string>, i: nat): (r: Outcome)
    requires i <= |read|
    ensures r == Pass <==>
            i == |read| || (|read| <= |ordered| && forall k :: i <= k < |read| ==> read[k] == ordered[k])
    decreases |read| - i
  {
    if i == |read| then Pass
    else if i >= |ordered| then Fail(IndexOutOfBounds)
    else if read[i] != ordered[i] then Fail(Unpackable)
    else Matches(read, ordered, i + 1)
  }

  /** The check passes exactly when the lines read are the first entries of the listing. */
  lemma MatchesPrefix(read: seq<string>, ordered: seq<string>)
    ensures Matches(read, ordered, 0) == Pass <==> |read| <= |ordered| && read == ordered[..|read|]
  {
    if Matches(read, ordered, 0) == Pass && read != [] {
      var last := |read| - 1;
      assert read[last] == ordered[last];
    }
  }

  /**
   * readScores with its first score line at index start: every remaining
   * line is read as an entry, the entries go through setScores, and the
   * lines must be exactly the table's getEntriesByName.
   */
  function ScoresBlock(lines: seq<string>, start: nat, s: GameRules.GameState): (r: Result<GameRules.GameState>)
    requires start <= |lines| && Table(s.table)
    ensures r.Ok? ==> r.value == s.(table := r.value.table) && Table(r.value.table)
  {
    var es :- ScoreEntries(lines, start, []);
    ScoreEntriesUnique(lines, start, []);
    StoreAllTable(s.table, es);
    var t := StoreAll(s.table, es);
    match Matches(lines[start..], EntriesByName(t), 0)
    case Fail(e) => Err(e)
    case Pass => Ok(s.(table := t))
  }

  // ---------------------------------------------------------------------------
  // The blocks in order
  // ---------------------------------------------------------------------------

  /** Where the block-level loop of read stands: the stage counter, the board read and the game so far. */
  datatype Reading = Reading(stage: int, board: Grids.Grid, game: GameRules.GameState)

  predicate ReadingOk(r: Reading) {
    Grids.WellFormed(r.board) && GameRules.Sane(r.game) && Table(r.game.table)
  }

  /** read's placeholders: a 1 by 1 board, a Hungry hunter and a game titled "title" by "author". */
  function DefaultBoard(): (g: Grids.Grid)
    ensures Grids.WellFormed(g)
  {
    Grids.Grid(1, 1, [[Wall]])
  }

  function DefaultHunter(): HunterRules.HunterState {
    HunterRules.Initial(HunterRules.Hungry)
  }

  function DefaultGame(): GameRules.GameState {
    GameRules.GameState(Some("title"), Some("author"), DefaultHunter(),
      [GhostRules.Initial(GhostRules.Blinky), GhostRules.Initial(GhostRules.Inky), GhostRules.Initial(GhostRules.Pinky), GhostRules.Initial(GhostRules.Clyde)],
      DefaultBoard(), 0, [], 0, GameRules.StartLives, 0)
  }

  /** The placeholders spelt out are what new PacmanBoard(1, 1) and new PacmanGame give. */
  lemma DefaultsAreNew()
    ensures DefaultBoard() == Grids.Fresh(1, 1).value
    ensures DefaultGame() == GameRules.NewGame(Some("title"), Some("author"), DefaultHunter(), DefaultBoard())
  {
    var g := Grids.Fresh(1, 1).value;
    assert |g.cells| == 1 && |g.cells[0]| == 1 && g.cells[0][0] == Wall;
    assert g.cells[0] == [Wall];
    assert Grids.FirstMatch(DefaultBoard(), GhostSpawn).None?;
  }

  function Start(): (r: Reading)
    ensures ReadingOk(r)
  {
    Reading(0, DefaultBoard(), DefaultGame())
  }

  /**
   * One pass of the block-level loop, on the line at index pos: a blank line
   * counts as a stage, a line starting with ';' is skipped, [Board] is read
   * at stage 0, [Game] at stage 2 and [Scores], which reads to the end, at
   * stage 4; any other line is unpackable. The result is the reading after
   * it and the index of the next line the loop reads.
   */
  function Step(lines: seq<string>, pos: nat, r: Reading): (res: Result<(Reading, nat)>)
    requires pos < |lines| && ReadingOk(r)
    ensures res.Ok? ==> ReadingOk(res.value.0) && pos < res.value.1 <= |lines|
  {
    var line := lines[pos];
    if line == "" then Ok((r.(stage := r.stage + 1), pos + 1))
    else if line[0] == ';' then Ok((r, pos + 1))
    else if line == "[Board]" && r.stage == 0 then
      var b :- BoardBlock(lines, pos + 1);
      Ok((r.(stage := r.stage + 1, board := b.0), b.1))
    else if line == "[Game]" && r.stage == 2 then
      var s :- GameBlock(lines, pos + 1, r.board, DefaultHunter());
      Ok((r.(stage := r.stage + 1, game := s), pos + 1 + GameLineCount))
    else if line == "[Scores]" && r.stage == 4 then
      var s :- ScoresBlock(lines, pos + 1, r.game);
      Ok((r.(stage := r.stage + 1, game := s), |lines|))
    else Err(Unpackable)
  }

  /** The block-level loop from the line at index pos to the end of the input. */
  function Blocks(lines: seq<string>, pos: nat, r: Reading): (res: Result<Reading>)
    requires pos <= |lines| && ReadingOk(r)
    ensures res.Ok? ==> ReadingOk(res.value)
    decreases |lines| - pos, 1
  {
    if pos == |lines| then Ok(r) else BlocksFrom(lines, pos, r)
  }

  /** The block-level loop from a line that is not past the end: the pass on it, then the rest. */
  function BlocksFrom(lines: seq<string>, pos: nat, r: Reading): (res: Result<Reading>)
    requires pos < |lines| && ReadingOk(r)
    ensures res.Ok? ==> ReadingOk(res.value)
    decreases |lines| - pos, 0
  {
    var next :- Step(lines, pos, r);
    Blocks(lines, next.1, next.0)
  }

  /** The block-level loop after one pass: it fails with the pass, or goes on from where the pass ends. */
  lemma BlocksNext(lines: seq<string>, pos: nat, r: Reading)
    requires pos < |lines| && ReadingOk(r)
    ensures Step(lines, pos, r).Err? ==> Blocks(lines, pos, r).Err?
    ensures Step(lines, pos, r).Ok? ==>
              Blocks(lines, pos, r) == Blocks(lines, Step(lines, pos, r).value.1, Step(lines, pos, r).value.0)
  {
  }

  /** read: the game, when the blocks end at stage 5; every failure is an UnpackableException. */
  function Read(lines: seq<string>): (r: Result<GameRules.GameState>)
    ensures r.Err? ==> r.error == Unpackable
    ensures r.Ok? ==> GameRules.Sane(r.value) && Table(r.value.table)
  {
    match Blocks(lines, 0, Start())
    case Err(_) => Err(Unpackable)
    case Ok(end) => if end.stage != 5 then Err(Unpackable) else Ok(end.game)
  }

  // ---------------------------------------------------------------------------
  // The writer
  // ---------------------------------------------------------------------------

  /** A string appended to a StringBuilder: null is printed as "null". */
  function Printed(s: Option<string>): string {
    match s
    case None => "null"
    case Some(v) => v
  }

  /** One "key = value" line. */
  function Assignment(key: string, value: string): string {
    key + " = " + value
  }

  /** The value the writer gives the k-th key; the ghosts go by slot. */
  function GameValue(s: GameRules.GameState, k: nat): string
    requires |s.ghosts| == 4 && k < GameLineCount
  {
    if k == 0 then Printed(s.title)
    else if k == 1 then Printed(s.author)
    else if k == 2 then IntToString(s.lives)
    else if k == 3 then IntToString(s.level)
    else if k == 4 then IntToString(s.score)
    else if k == 5 then HunterRules.ToString(s.hunter)
    else GhostRules.ToString(s.ghosts[k - 6])
  }

  /** The values the writer gives the ten keys, in key order. */
  function GameValues(s: GameRules.GameState): (r: seq<string>)
    requires |s.ghosts| == 4
    ensures |r| == GameLineCount
  {
    seq(GameLineCount, k requires 0 <= k < GameLineCount => GameValue(s, k))
  }

  /** The ten values, spelt out. */
  lemma GameValuesListed(s: GameRules.GameState)
    requires |s.ghosts| == 4
    ensures GameValues(s) ==
            [Printed(s.title), Printed(s.author), IntToString(s.lives), IntToString(s.level), IntToString(s.score),
             HunterRules.ToString(s.hunter), GhostRules.ToString(s.ghosts[0]), GhostRules.ToString(s.ghosts[1]),
             GhostRules.ToString(s.ghosts[2]), GhostRules.ToString(s.ghosts[3])]
  {
    var v := GameValues(s);
    assert v[0] == GameValue(s, 0) && v[1] == GameValue(s, 1) && v[2] == GameValue(s, 2);
    assert v[3] == GameValue(s, 3) && v[4] == GameValue(s, 4) && v[5] == GameValue(s, 5);
    assert v[6] == GameValue(s, 6) && v[7] == GameValue(s, 7) && v[8] == GameValue(s, 8) && v[9] == GameValue(s, 9);
  }

  /** The ten assignments of the [Game] block. */
  function GameLines(s: GameRules.GameState): (r: seq<string>)
    requires |s.ghosts| == 4
    ensures |r| == GameLineCount
  {
    seq(GameLineCount, k requires 0 <= k < GameLineCount => Assignment(GameKeys[k], GameValue(s, k)))
  }

  /** The "W,H" line. */
  function DimensionLine(g: Grids.Grid): string {
    IntToString(g.width) + "," + IntToString(g.height)
  }

  /**
   * write: the text handed to the Writer, with "\n" as the line separator,
   * or the exception the board's toString throws when it is not square.
   */
  function Write(s: GameRules.GameState): (r: Result<string>)
    requires GameRules.Sane(s)
    ensures r.Err? <==> s.board.width != s.board.height
    ensures r.Err? ==> r.error == IndexOutOfBounds
  {
    var board :- Grids.ToString(s.board);
    Ok(Terminated(["[Board]", DimensionLine(s.board)]) + board + "\n" +
       Terminated(["", "[Game]"] + GameLines(s) + ["", "[Scores]"]) +
       Join(EntriesByName(s.table), "\n"))
  }

  /** The lines of a save before its score entries: the board and game blocks and the [Scores] header. */
  function HeadLines(s: GameRules.GameState): seq<string>
    requires GameRules.Sane(s) && s.board.width == s.board.height
  {
    ["[Board]", DimensionLine(s.board)] + Grids.TextLines(s.board) +
    (["", "[Game]"] + GameLines(s) + ["", "[Scores]"])
  }

  /** The lines of a save: the three blocks, each under its header, separated by one blank line. */
  function SaveLines(s: GameRules.GameState): seq<string>
    requires GameRules.Sane(s) && s.board.width == s.board.height
  {
    HeadLines(s) + EntriesByName(s.table)
  }

  lemma TerminatedAppend(a: seq<string>, b: seq<string>)
    ensures Terminated(a + b) == Terminated(a) + Terminated(b)
    decreases |a|
  {
    if a == [] {
      assert a + b == b;
    } else {
      assert (a + b)[1..] == a[1..] + b;
      TerminatedAppend(a[1..], b);
    }
  }

  lemma JoinThenBreak(a: seq<string>)
    requires a != []
    ensures Join(a, "\n") + "\n" == Terminated(a)
  {
    TerminatedThenJoined(a[..|a| - 1], [a[|a| - 1]]);
    assert a[..|a| - 1] + [a[|a| - 1]] == a;
    TerminatedSnoc(a[..|a| - 1], a[|a| - 1]);
  }

  predicate Unbroken(lines: seq<string>) {
    forall k :: 0 <= k < |lines| ==> NoLineBreak(lines[k])
  }

  lemma Concat2(a: string, b: string)
    requires NoLineBreak(a) && NoLineBreak(b)
    ensures NoLineBreak(a + b)
  {
    assert forall i :: |a| <= i < |a + b| ==> (a + b)[i] == b[i - |a|];
  }

  lemma Concat3(a: string, b: string, c: string)
    requires NoLineBreak(a) && NoLineBreak(b) && NoLineBreak(c)
    ensures NoLineBreak(a + b + c)
  {
    Concat2(a, b);
    Concat2(a + b, c);
  }

  lemma UnbrokenConcat(a: seq<string>, b: seq<string>)
    requires Unbroken(a) && Unbroken(b)
    ensures Unbroken(a + b)
  {
    assert forall k :: |a| <= k < |a + b| ==> (a + b)[k] == b[k - |a|];
  }

  lemma IntNoBreak(n: int)
    ensures NoLineBreak(IntToString(n)) && IntToString(n) != ""
  {
    var d := NatToString(if n < 0 then -n else n);
    assert NoLineBreak(d);
    if n < 0 {
      Concat2("-", d);
    }
  }

  lemma EntityNoBreak(e: Entity)
    ensures NoLineBreak(Entities.ToString(e))
  {
    IntNoBreak(e.position.x);
    IntNoBreak(e.position.y);
    Concat3(IntToString(e.position.x), ",", IntToString(e.position.y));
    Concat3(Positions.ToString(e.position), ",", Directions.Name(e.direction));
  }

  lemma GhostNoBreak(g: GhostRules.GhostState)
    ensures NoLineBreak(GhostRules.ToString(g))
  {
    EntityNoBreak(g.entity);
    IntNoBreak(g.duration);
    Concat3(Phases.Name(g.phase), ":", IntToString(g.duration));
    Concat3(Entities.ToString(g.entity), ",", GhostRules.PhaseInfo(g));
  }

  lemma HunterNoBreak(h: HunterRules.HunterState)
    ensures NoLineBreak(HunterRules.ToString(h))
  {
    EntityNoBreak(h.entity);
    IntNoBreak(h.duration);
    Concat3(Entities.ToString(h.entity), ",", IntToString(h.duration));
    Concat3(Entities.ToString(h.entity) + "," + IntToString(h.duration), ",", HunterRules.TypeName(h.kind));
  }

  lemma AssignmentNoBreak(key: string, value: string)
    requires NoLineBreak(key) && NoLineBreak(value)
    ensures NoLineBreak(Assignment(key, value))
  {
    Concat3(key, " = ", value);
  }

  lemma GameValueUnbroken(s: GameRules.GameState, k: nat)
    requires |s.ghosts| == 4 && k < GameLineCount
    requires NoLineBreak(Printed(s.title)) && NoLineBreak(Printed(s.author))
    ensures NoLineBreak(GameValue(s, k))
  {
    if k == 2 {
      IntNoBreak(s.lives);
    } else if k == 3 {
      IntNoBreak(s.level);
    } else if k == 4 {
      IntNoBreak(s.score);
    } else if k == 5 {
      HunterNoBreak(s.hunter);
    } else if k >= 6 {
      GhostNoBreak(s.ghosts[k - 6]);
    }
  }

  lemma GameLineUnbroken(s: GameRules.GameState, k: nat)
    requires |s.ghosts| == 4 && k < GameLineCount
    requires NoLineBreak(Printed(s.title)) && NoLineBreak(Printed(s.author))
    ensures NoLineBreak(GameLines(s)[k])
  {
    GameValueUnbroken(s, k);
    AssignmentNoBreak(GameKeys[k], GameValue(s, k));
  }

  lemma GameLinesUnbroken(s: GameRules.GameState)
    requires |s.ghosts| == 4
    requires NoLineBreak(Printed(s.title)) && NoLineBreak(Printed(s.author))
    ensures Unbroken(GameLines(s))
  {
    forall k | 0 <= k < GameLineCount
      ensures NoLineBreak(GameLines(s)[k])
    {
      GameLineUnbroken(s, k);
    }
  }

  lemma EntriesUnbroken(t: seq<Entry>)
    requires Table(t)
    ensures Unbroken(EntriesByName(t))
  {
    forall k | 0 <= k < |t|
      ensures NoLineBreak(EntryString(t[k]))
    {
      assert NoLineBreak(t[k].name);
      IntNoBreak(t[k].value);
      Concat3(t[k].name, " : ", IntToString(t[k].value));
    }
  }

  lemma TextLinesUnbroken(g: Grids.Grid)
    requires Grids.WellFormed(g) && g.width == g.height
    ensures Unbroken(Grids.TextLines(g))
  {
  }

  /** Every line of a save is free of line breaks when the title and the author are. */
  lemma SaveLinesUnbroken(s: GameRules.GameState)
    requires GameRules.Sane(s) && s.board.width == s.board.height && Table(s.table)
    requires NoLineBreak(Printed(s.title)) && NoLineBreak(Printed(s.author))
    ensures Unbroken(SaveLines(s))
  {
    var a := ["[Board]", DimensionLine(s.board)];
    IntNoBreak(s.board.width);
    IntNoBreak(s.board.height);
    Concat3(IntToString(s.board.width), ",", IntToString(s.board.height));
    assert Unbroken(a);
    TextLinesUnbroken(s.board);
    UnbrokenConcat(a, Grids.TextLines(s.board));
    var c := ["", "[Game]"] + GameLines(s) + ["", "[Scores]"];
    GameLinesUnbroken(s);
    UnbrokenConcat(["", "[Game]"], GameLines(s));
    UnbrokenConcat(["", "[Game]"] + GameLines(s), ["", "[Scores]"]);
    UnbrokenConcat(a + Grids.TextLines(s.board), c);
    EntriesUnbroken(s.table);
    UnbrokenConcat(HeadLines(s), EntriesByName(s.table));
  }

  /** The text written is the head lines, each with its line break, then the entries joined by line breaks. */
  lemma WriteSplits(s: GameRules.GameState)
    requires GameRules.Sane(s) && s.board.width == s.board.height
    ensures Write(s) == Ok(Terminated(HeadLines(s)) + Join(EntriesByName(s.table), "\n"))
  {
    var a := ["[Board]", DimensionLine(s.board)];
    var b := Grids.TextLines(s.board);
    var c := ["", "[Game]"] + GameLines(s) + ["", "[Scores]"];
    var board := Join(b, "\n");
    var rest := Join(EntriesByName(s.table), "\n");
    assert Write(s).value == Terminated(a) + board + "\n" + Terminated(c) + rest;
    JoinThenBreak(b);
    assert Terminated(a) + board + "\n" == Terminated(a) + Terminated(b);
    TerminatedAppend(a, b);
    TerminatedAppend(a + b, c);
  }

  /** Lines ended by line breaks followed by lines joined by them read back as all the lines. */
  lemma LinesOfTerminatedThenJoined(h: seq<string>, e: seq<string>)
    requires Unbroken(h + e)
    requires e == [] || e[|e| - 1] != ""
    ensures Lines(Terminated(h) + Join(e, "\n")) == h + e
  {
    if e == [] {
      assert h + e == h;
      assert Terminated(h) + Join(e, "\n") == Terminated(h);
      LinesOfTerminated(h);
    } else {
      TerminatedThenJoined(h, e);
      LinesOfJoined(h + e);
    }
  }

  /**
   * The text written reads back, line by line, as the header and dimension
   * lines, the board's text lines, a blank line, the [Game] header and its
   * ten assignments, a blank line, the [Scores] header and the entries by
   * name, with no line break after the last entry.
   */
  lemma {:induction false} WrittenLines(s: GameRules.GameState)
    requires GameRules.Sane(s) && s.board.width == s.board.height && Table(s.table)
    requires NoLineBreak(Printed(s.title)) && NoLineBreak(Printed(s.author))
    ensures Write(s).Ok? && Lines(Write(s).value) == SaveLines(s)
  {
    var e := EntriesByName(s.table);
    WriteSplits(s);
    SaveLinesUnbroken(s);
    assert e == [] || |e[|e| - 1]| >= 3;
    LinesOfTerminatedThenJoined(HeadLines(s), e);
  }

  // ---------------------------------------------------------------------------
  // Reading back what was written
  // ---------------------------------------------------------------------------

  /** A title or author that reads back whole: present, not empty, without " = " and without a line break. */
  predicate WholeText(o: Option<string>) {
    o.Some? && o.value != "" && !Contains(o.value, " = ") && NoLineBreak(o.value)
  }

  /** A cell of a board whose dimensions are Java ints. */
  predicate OnBoard(p: Position, width: int, height: int) {
    0 <= p.x < width <= IntMax && 0 <= p.y < height <= IntMax
  }

  /** A hunter whose text form reads back: on the board, with a duration of at least zero. */
  predicate SaveableHunter(h: HunterRules.HunterState, width: int, height: int) {
    OnBoard(h.entity.position, width, height) && 0 <= h.duration <= IntMax
  }

  /** A ghost whose text form reads back into the slot of its kind. */
  predicate SaveableGhost(g: GhostRules.GhostState, kind: GhostRules.GhostKind, width: int, height: int) {
    g.kind == kind && OnBoard(g.entity.position, width, height) && 0 <= g.duration <= IntMax
  }

  /** A game whose [Game] block reads back as it was written. */
  predicate SaveableGame(s: GameRules.GameState) {
    GameRules.Sane(s) && WholeText(s.title) && WholeText(s.author) &&
    0 <= s.lives <= IntMax && 0 <= s.level <= IntMax && 0 <= s.score <= IntMax &&
    SaveableHunter(s.hunter, s.board.width, s.board.height) &&
    forall i :: 0 <= i < 4 ==> SaveableGhost(s.ghosts[i], GameRules.Slots[i], s.board.width, s.board.height)
  }

  /** The hunter as read back: alive, and its special marked used exactly when time is left on it. */
  function Revived(h: HunterRules.HunterState): HunterRules.HunterState {
    h.(dead := false, used := h.duration > 0)
  }

  /**
   * The game as read back over a board: the title, author, counters and
   * entities of the game written, alive; no high scores and tick zero.
   */
  function Restored(s: GameRules.GameState, board: Grids.Grid): GameRules.GameState
    requires |s.ghosts| == 4
  {
    GameRules.GameState(s.title, s.author, Revived(s.hunter),
                        [s.ghosts[0].(dead := false), s.ghosts[1].(dead := false),
                         s.ghosts[2].(dead := false), s.ghosts[3].(dead := false)],
                        board, s.score, [], 0, s.lives, s.level)
  }

  lemma AvoidsConcat(a: string, b: string, sep: string)
    requires |sep| > 0 && Avoids(a, sep) && Avoids(b, sep)
    ensures Avoids(a + b, sep)
  {
    assert forall i :: |a| <= i < |a + b| ==> (a + b)[i] == b[i - |a|];
  }

  lemma EntityAvoidsSpace(e: Entity)
    ensures Avoids(Entities.ToString(e), " = ")
  {
    IntToStringAvoids(e.position.x, ' ');
    IntToStringAvoids(e.position.y, ' ');
    AvoidsConcat(IntToString(e.position.x), ",", " = ");
    AvoidsConcat(IntToString(e.position.x) + ",", IntToString(e.position.y), " = ");
    AvoidsConcat(Positions.ToString(e.position), ",", " = ");
    AvoidsConcat(Positions.ToString(e.position) + ",", Directions.Name(e.direction), " = ");
  }

  lemma HunterAvoidsSpace(h: HunterRules.HunterState)
    ensures Avoids(HunterRules.ToString(h), " = ")
  {
    EntityAvoidsSpace(h.entity);
    IntToStringAvoids(h.duration, ' ');
    AvoidsConcat(Entities.ToString(h.entity), ",", " = ");
    AvoidsConcat(Entities.ToString(h.entity) + ",", IntToString(h.duration), " = ");
    AvoidsConcat(Entities.ToString(h.entity) + "," + IntToString(h.duration), ",", " = ");
    AvoidsConcat(Entities.ToString(h.entity) + "," + IntToString(h.duration) + ",",
                 HunterRules.TypeName(h.kind), " = ");
  }

  lemma GhostAvoidsSpace(g: GhostRules.GhostState)
    ensures Avoids(GhostRules.ToString(g), " = ")
  {
    EntityAvoidsSpace(g.entity);
    IntToStringAvoids(g.duration, ' ');
    AvoidsConcat(Phases.Name(g.phase), ":", " = ");
    AvoidsConcat(Phases.Name(g.phase) + ":", IntToString(g.duration), " = ");
    AvoidsConcat(Entities.ToString(g.entity), ",", " = ");
    AvoidsConcat(Entities.ToString(g.entity) + ",", GhostRules.PhaseInfo(g), " = ");
  }

  /** Every value of a saveable game is a whole second field of its assignment. */
  lemma GameValueWhole(s: GameRules.GameState, k: nat)
    requires SaveableGame(s) && k < GameLineCount
    ensures GameValue(s, k) != "" && !Contains(GameValue(s, k), " = ")
  {
    if 2 <= k <= 4 {
      var n := if k == 2 then s.lives else if k == 3 then s.level else s.score;
      IntToStringAvoids(n, ' ');
      IndexOfAvoiding(IntToString(n), " = ");
    } else if k == 5 {
      HunterAvoidsSpace(s.hunter);
      IndexOfAvoiding(HunterRules.ToString(s.hunter), " = ");
    } else if k >= 6 {
      GhostAvoidsSpace(s.ghosts[k - 6]);
      IndexOfAvoiding(GhostRules.ToString(s.ghosts[k - 6]), " = ");
    }
  }

  /** Each line of a written [Game] block splits into its key and its value. */
  lemma GameLineSplits(s: GameRules.GameState, k: nat)
    requires SaveableGame(s) && k < GameLineCount
    ensures Split(GameLines(s)[k], " = ") == [GameKeys[k], GameValue(s, k)]
  {
    GameValueWhole(s, k);
    SplitPair(GameKeys[k], " = ", GameValue(s, k));
  }

  /** The assignments after the k-th line of a written [Game] block is read. */
  function Gathered(a: Assignments, s: GameRules.GameState, k: nat): (r: Assignments)
    requires |a.ghosts| == 4 && |s.ghosts| == 4 && k < GameLineCount
    ensures |r.ghosts| == 4
  {
    if k == 0 then a.(title := s.title, count := a.count + 1)
    else if k == 1 then a.(author := s.author, count := a.count + 2)
    else if k == 2 then a.(lives := s.lives, count := a.count + 3)
    else if k == 3 then a.(level := s.level, count := a.count + 4)
    else if k == 4 then a.(score := s.score, count := a.count + 5)
    else if k == 5 then a.(hunter := Revived(s.hunter), count := a.count + 6)
    else a.(ghosts := a.ghosts[k - 6 := s.ghosts[k - 6].(dead := false)], count := a.count + k + 1)
  }

  /** No two keys of GameKeys are the same: their first two letters already differ. */
  lemma KeysDistinct()
    ensures forall j, m :: 0 <= j < m < |GameKeys| ==> GameKeys[j] != GameKeys[m]
  {
    var heads := ["ti", "au", "li", "le", "sc", "hu", "bl", "in", "pi", "cl"];
    assert forall j :: 0 <= j < |GameKeys| ==> |GameKeys[j]| >= 2 && GameKeys[j][..2] == heads[j];
  }

  /** Each key the writer emits is known to the reader, with code one more than its place. */
  lemma KeyCodes(k: nat)
    requires k < GameLineCount
    ensures KeyCode(GameKeys[k]) == Some(k + 1)
  {
    KeysDistinct();
    assert GameKeys[k] in GameKeys;
  }

  lemma AssignTextBack(a: Assignments, s: GameRules.GameState, k: nat, line: string)
    requires |a.ghosts| == 4 && SaveableGame(s) && k < 2
    requires Split(line, " = ") == [GameKeys[k], GameValue(s, k)]
    ensures Assign(a, line, s.board.width, s.board.height) == Ok(Gathered(a, s, k))
  {
  }

  lemma AssignCounterBack(a: Assignments, s: GameRules.GameState, k: nat, line: string)
    requires |a.ghosts| == 4 && SaveableGame(s) && 2 <= k <= 4
    requires Split(line, " = ") == [GameKeys[k], GameValue(s, k)]
    ensures Assign(a, line, s.board.width, s.board.height) == Ok(Gathered(a, s, k))
  {
    var n := if k == 2 then s.lives else if k == 3 then s.level else s.score;
    ParseIntToString(n);
    assert Counter(GameValue(s, k)) == Ok(n);
  }

  /** A line whose key is known stores its value field. */
  lemma AssignKnown(a: Assignments, line: string, key: string, v: string, width: int, height: int)
    requires |a.ghosts| == 4 && Split(line, " = ") == [key, v] && KeyCode(key).Some?
    ensures Assign(a, line, width, height) == StoreValue(a, KeyCode(key).value, v, width, height)
  {
  }

  lemma StoreGhost(a: Assignments, i: nat, v: string, g: GhostRules.GhostState, width: int, height: int)
    requires |a.ghosts| == 4 && i < 4 && ReadGhost(v, GameRules.Slots[i], width, height) == Ok(g)
    ensures StoreValue(a, 7 + i, v, width, height) == Ok(a.(ghosts := a.ghosts[i := g], count := a.count + 7 + i))
  {
  }

  lemma AssignGhostLine(a: Assignments, line: string, key: string, i: nat, v: string, g: GhostRules.GhostState,
                        width: int, height: int)
    requires |a.ghosts| == 4 && i < 4
    requires Split(line, " = ") == [key, v] && KeyCode(key) == Some(7 + i)
    requires ReadGhost(v, GameRules.Slots[i], width, height) == Ok(g)
    ensures Assign(a, line, width, height) == Ok(a.(ghosts := a.ghosts[i := g], count := a.count + 7 + i))
  {
    AssignKnown(a, line, key, v, width, height);
    StoreGhost(a, i, v, g, width, height);
  }

  lemma StoreHunter(a: Assignments, v: string, h: HunterRules.HunterState, width: int, height: int)
    requires |a.ghosts| == 4 && ReadHunter(v, width, height) == Ok(h)
    ensures StoreValue(a, 6, v, width, height) == Ok(a.(hunter := h, count := a.count + 6))
  {
  }

  lemma HunterValueBack(s: GameRules.GameState)
    requires SaveableGame(s)
    ensures ReadHunter(GameValue(s, 5), s.board.width, s.board.height) == Ok(Revived(s.hunter))
  {
    assert GameValue(s, 5) == HunterRules.ToString(s.hunter);
    assert SaveableHunter(s.hunter, s.board.width, s.board.height);
    ReadHunterBack(s.hunter, s.board.width, s.board.height);
  }

  lemma AssignHunterBack(a: Assignments, s: GameRules.GameState, line: string)
    requires |a.ghosts| == 4 && SaveableGame(s)
    requires Split(line, " = ") == [GameKeys[5], GameValue(s, 5)]
    ensures Assign(a, line, s.board.width, s.board.height) == Ok(Gathered(a, s, 5))
  {
    KeyCodes(5);
    HunterValueBack(s);
    AssignKnown(a, line, GameKeys[5], GameValue(s, 5), s.board.width, s.board.height);
    StoreHunter(a, GameValue(s, 5), Revived(s.hunter), s.board.width, s.board.height);
  }

  lemma GhostValueBack(s: GameRules.GameState, k: nat)
    requires SaveableGame(s) && 6 <= k < GameLineCount
    ensures ReadGhost(GameValue(s, k), GameRules.Slots[k - 6], s.board.width, s.board.height) ==
            Ok(s.ghosts[k - 6].(dead := false))
  {
    var g := s.ghosts[k - 6];
    assert GameValue(s, k) == GhostRules.ToString(g);
    assert SaveableGhost(g, GameRules.Slots[k - 6], s.board.width, s.board.height);
    ReadGhostBack(g, GameRules.Slots[k - 6], s.board.width, s.board.height);
  }

  lemma AssignGhostBack(a: Assignments, s: GameRules.GameState, i: nat, line: string, key: string, v: string)
    requires |a.ghosts| == 4 && |s.ghosts| == 4 && i < 4
    requires Split(line, " = ") == [key, v] && KeyCode(key) == Some(7 + i)
    requires ReadGhost(v, GameRules.Slots[i], s.board.width, s.board.height) == Ok(s.ghosts[i].(dead := false))
    ensures Assign(a, line, s.board.width, s.board.height) == Ok(Gathered(a, s, 6 + i))
  {
    AssignGhostLine(a, line, key, i, v, s.ghosts[i].(dead := false), s.board.width, s.board.height);
    GatheredGhost(a, s, i);
  }

  lemma GatheredGhost(a: Assignments, s: GameRules.GameState, i: nat)
    requires |a.ghosts| == 4 && |s.ghosts| == 4 && i < 4
    ensures Gathered(a, s, 6 + i) == a.(ghosts := a.ghosts[i := s.ghosts[i].(dead := false)], count := a.count + 7 + i)
  {
  }

  /** Reading the k-th line of a written [Game] block stores what the writer put there. */
  lemma AssignBack(a: Assignments, s: GameRules.GameState, k: nat, line: string)
    requires |a.ghosts| == 4 && SaveableGame(s) && k < GameLineCount
    requires Split(line, " = ") == [GameKeys[k], GameValue(s, k)]
    ensures Assign(a, line, s.board.width, s.board.height) == Ok(Gathered(a, s, k))
  {
    KeyCodes(k);
    if k < 2 {
      AssignTextBack(a, s, k, line);
    } else if k < 5 {
      AssignCounterBack(a, s, k, line);
    } else if k == 5 {
      AssignHunterBack(a, s, line);
    } else {
      GhostValueBack(s, k);
      AssignGhostBack(a, s, k - 6, line, GameKeys[k], GameValue(s, k));
    }
  }

  /** The assignments after the first n lines of a written [Game] block. */
  function GatheredUpTo(s: GameRules.GameState, hunter: HunterRules.HunterState, n: nat): (r: Assignments)
    requires |s.ghosts| == 4 && n <= GameLineCount
    ensures |r.ghosts| == 4
  {
    if n == 0 then Unassigned(hunter) else Gathered(GatheredUpTo(s, hunter, n - 1), s, n - 1)
  }

  /** One line of readGame's loop: a line that assigns leaves the rest of the loop to the next one. */
  lemma AssignedStep(lines: seq<string>, pos: nat, k: nat, a: Assignments, next: Assignments, width: int, height: int)
    requires |a.ghosts| == 4 && |next.ghosts| == 4 && k < GameLineCount && pos < |lines|
    requires Assign(a, lines[pos], width, height) == Ok(next)
    ensures Assigned(lines, pos, k, a, width, height) == Assigned(lines, pos + 1, k + 1, next, width, height)
  {
    assert AssignedFrom(lines, pos, k, a, width, height) == AssignedLine(lines, pos, k, a, lines[pos], width, height);
  }

  /** readGame's loop stops with the line it cannot read or the assignment that fails. */
  lemma AssignedStops(lines: seq<string>, pos: nat, k: nat, a: Assignments, width: int, height: int)
    requires |a.ghosts| == 4 && k < GameLineCount
    ensures pos >= |lines| ==> Assigned(lines, pos, k, a, width, height) == Err(NullPointer)
    ensures pos < |lines| && Assign(a, lines[pos], width, height).Err? ==>
              Assigned(lines, pos, k, a, width, height) == Err(Assign(a, lines[pos], width, height).error)
  {
    if pos < |lines| {
      assert AssignedFrom(lines, pos, k, a, width, height) == AssignedLine(lines, pos, k, a, lines[pos], width, height);
    }
  }

  /** The k-th line of a written [Game] block takes the assignments one line further. */
  lemma LineBack(lines: seq<string>, start: nat, s: GameRules.GameState, hunter: HunterRules.HunterState, k: nat)
    requires SaveableGame(s) && k < GameLineCount
    requires start + GameLineCount <= |lines| && lines[start..start + GameLineCount] == GameLines(s)
    ensures Assign(GatheredUpTo(s, hunter, k), lines[start + k], s.board.width, s.board.height) ==
            Ok(GatheredUpTo(s, hunter, k + 1))
  {
    assert lines[start + k] == GameLines(s)[k];
    GameLineSplits(s, k);
    AssignBack(GatheredUpTo(s, hunter, k), s, k, lines[start + k]);
  }

  /** Line start + j assigns steps[j + 1] to what steps[j] held. */
  predicate Leads(lines: seq<string>, start: nat, steps: seq<Assignments>, j: nat, width: int, height: int)
    requires j + 1 < |steps| && start + j < |lines| && |steps[j].ghosts| == 4
  {
    Assign(steps[j], lines[start + j], width, height) == Ok(steps[j + 1])
  }

  /** readGame's loop runs through lines whose assignments each lead to the next of steps. */
  lemma {:induction false} AssignedChain(lines: seq<string>, start: nat, k: nat, steps: seq<Assignments>,
                                         width: int, height: int)
    requires |steps| == GameLineCount + 1 && k <= GameLineCount && start + GameLineCount <= |lines|
    requires forall j :: 0 <= j < |steps| ==> |steps[j].ghosts| == 4
    requires forall j :: k <= j < GameLineCount ==> Leads(lines, start, steps, j, width, height)
    ensures Assigned(lines, start + k, k, steps[k], width, height) == Ok(steps[GameLineCount])
    decreases GameLineCount - k
  {
    if k < GameLineCount {
      assert Leads(lines, start, steps, k, width, height);
      AssignedStep(lines, start + k, k, steps[k], steps[k + 1], width, height);
      AssignedChain(lines, start, k + 1, steps, width, height);
    }
  }

  lemma GatheredAll(s: GameRules.GameState, hunter: HunterRules.HunterState)
    requires |s.ghosts| == 4
    ensures GatheredUpTo(s, hunter, GameLineCount) ==
            Assignments(s.title, s.author, s.lives, s.level, s.score, Revived(s.hunter),
                        Restored(s, s.board).ghosts, Checksum)
  {
    var a := Unassigned(hunter);
    assert GatheredUpTo(s, hunter, 1) == a.(title := s.title, count := 1);
    assert GatheredUpTo(s, hunter, 2) == a.(title := s.title, author := s.author, count := 3);
    assert GatheredUpTo(s, hunter, 3) == a.(title := s.title, author := s.author, lives := s.lives, count := 6);
    var b := Assignments(s.title, s.author, s.lives, s.level, s.score, Revived(s.hunter), a.ghosts, 21);
    assert GatheredUpTo(s, hunter, 4) == b.(score := 0, hunter := hunter, count := 10);
    assert GatheredUpTo(s, hunter, 5) == b.(hunter := hunter, count := 15);
    assert GatheredUpTo(s, hunter, 6) == b;
    assert GatheredUpTo(s, hunter, 7) == b.(ghosts := b.ghosts[0 := s.ghosts[0].(dead := false)], count := 28);
    assert GatheredUpTo(s, hunter, 8) ==
           b.(ghosts := b.ghosts[0 := s.ghosts[0].(dead := false)][1 := s.ghosts[1].(dead := false)], count := 36);
    assert GatheredUpTo(s, hunter, 9) ==
           b.(ghosts := b.ghosts[0 := s.ghosts[0].(dead := false)][1 := s.ghosts[1].(dead := false)]
                                [2 := s.ghosts[2].(dead := false)], count := 45);
  }

  /**
   * The ten lines written for a game read back, over a board of the same
   * dimensions, as the game restored on that board, whatever hunter the
   * reader started from.
   */
  lemma GameBlockBack(lines: seq<string>, start: nat, s: GameRules.GameState, board: Grids.Grid,
                      hunter: HunterRules.HunterState)
    requires SaveableGame(s) && Grids.WellFormed(board)
    requires board.width == s.board.width && board.height == s.board.height
    requires start + GameLineCount <= |lines| && lines[start..start + GameLineCount] == GameLines(s)
    ensures GameBlock(lines, start, board, hunter) == Ok(Restored(s, board))
  {
    GameLinesAssign(lines, start, s, hunter);
    GatheredAll(s, hunter);
  }

  /** The ten lines written for a game take the reader's assignments from none to all of the game's values. */
  lemma GameLinesAssign(lines: seq<string>, start: nat, s: GameRules.GameState, hunter: HunterRules.HunterState)
    requires SaveableGame(s)
    requires start + GameLineCount <= |lines| && lines[start..start + GameLineCount] == GameLines(s)
    ensures Assigned(lines, start, 0, Unassigned(hunter), s.board.width, s.board.height) ==
            Ok(GatheredUpTo(s, hunter, GameLineCount))
  {
    var steps := seq(GameLineCount + 1, j requires 0 <= j <= GameLineCount => GatheredUpTo(s, hunter, j));
    forall j | 0 <= j < GameLineCount
      ensures Leads(lines, start, steps, j, s.board.width, s.board.height)
    {
      LineBack(lines, start, s, hunter, j);
    }
    AssignedChain(lines, start, 0, steps, s.board.width, s.board.height);
  }

  lemma CoordinatesBack(p: Position, width: int, height: int)
    requires OnBoard(p, width, height)
    ensures Coordinates(IntToString(p.x), IntToString(p.y), width, height) == Ok(p)
  {
    ParseIntToString(p.x);
    ParseIntToString(p.y);
  }

  /** The hunter's text form reads back as the hunter revived. */
  lemma ReadHunterBack(h: HunterRules.HunterState, width: int, height: int)
    requires SaveableHunter(h, width, height)
    ensures ReadHunter(HunterRules.ToString(h), width, height) == Ok(Revived(h))
  {
    var f := Split(HunterRules.ToString(h), ",");
    HunterRules.ToStringParses(h);
    assert f == HunterRules.Fields(h);
    CoordinatesBack(h.entity.position, width, height);
    Directions.ValueOfName(h.entity.direction);
    assert Int(f[3]) == Ok(h.duration);
    HunterRules.KindOfTypeName(h.kind);
    var start := HunterRules.Initial(h.kind);
    var placed := start.(entity := WithDirection(WithPosition(start.entity, Some(h.entity.position)),
                                                 Some(h.entity.direction)));
    assert placed.entity == h.entity;
  }

  /** A ghost's text form reads back, into the slot of its kind, as the ghost alive. */
  lemma ReadGhostBack(g: GhostRules.GhostState, kind: GhostRules.GhostKind, width: int, height: int)
    requires SaveableGhost(g, kind, width, height)
    ensures ReadGhost(GhostRules.ToString(g), kind, width, height) == Ok(g.(dead := false))
  {
    var f := Split(GhostRules.ToString(g), ",");
    GhostRules.ToStringParses(g);
    assert f == Entities.Fields(g.entity) + [GhostRules.PhaseInfo(g)];
    CoordinatesBack(g.entity.position, width, height);
    Directions.ValueOfName(g.entity.direction);
    var phaseInfo := Split(f[3], ":");
    GhostRules.PhaseInfoParses(g);
    assert Field(phaseInfo, 0) == Ok(phaseInfo[0]) && Phases.ValueOf(phaseInfo[0]) == Ok(g.phase);
    assert Field(phaseInfo, 1) == Ok(phaseInfo[1]) && Int(phaseInfo[1]) == Ok(g.duration);
    var start := GhostRules.Initial(kind);
    var placed := start.(entity := WithDirection(WithPosition(start.entity, Some(g.entity.position)),
                                                 Some(g.entity.direction)));
    assert placed.entity == g.entity;
  }

  // ---------------------------------------------------------------------------
  // Round trip of the [Scores] block
  // ---------------------------------------------------------------------------

  /** A table the score board may hold whose values also fit an int, as every value it was given does. */
  predicate SaveableTable(t: seq<Entry>) {
    Table(t) && forall i :: 0 <= i < |t| ==> t[i].value <= IntMax
  }

  /** A name-sorted table never repeats a name. */
  lemma SortedUnique(t: seq<Entry>)
    requires SortedByName(t)
    ensures UniqueNames(t)
  {
    forall i, j | 0 <= i < j < |t|
      ensures t[i].name != t[j].name
    {
      BelowIrreflexive(t[i].name);
    }
  }

  /** The name of the next entry of a sorted table is not among those read before it. */
  lemma NotYetRead(t: seq<Entry>, n: nat)
    requires SortedByName(t) && n < |t|
    ensures t[n].name !in ToMap(t[..n])
  {
    if t[n].name in ToMap(t[..n]) {
      var i := KeyIndex(t[..n], t[n].name);
      BelowIrreflexive(t[n].name);
      assert false;
    }
  }

  /** setScore accepts every entry of a valid table. */
  lemma {:induction false} TableAccepted(t: seq<Entry>)
    requires Table(t)
    ensures Accepted(ToMap(t)) == ToMap(t)
    decreases |t|
  {
    if t != [] {
      TableAccepted(t[1..]);
      assert ToMap(t) == ToMap(t[1..])[t[0].name := t[0].value];
    }
  }

  /** The line of a saveable entry whose name is new reads back as that entry. */
  lemma EntryLineReads(e: Entry, es: seq<Entry>)
    requires ValidName(e.name) && 0 <= e.value <= IntMax && e.name !in ToMap(es)
    ensures ScoreEntry(EntryString(e), es) == Ok(e)
  {
    EntryStringSplits(e);
    ParseIntToString(e.value);
  }

  /** The line at index start + i reads, after the first i entries of t, as entry i. */
  predicate ReadsAs(lines: seq<string>, start: nat, t: seq<Entry>, i: nat)
    requires i < |t| && start + i < |lines|
  {
    ScoreEntry(lines[start + i], t[..i]) == Ok(t[i])
  }

  /** Each entry line of a saveable table reads back, after the entries before it, as its entry. */
  lemma EntryLinesRead(lines: seq<string>, start: nat, t: seq<Entry>)
    requires SaveableTable(t) && start <= |lines| && lines[start..] == EntriesByName(t)
    ensures start + |t| == |lines| && UniqueNames(t)
    ensures forall i: nat :: i < |t| ==> ReadsAs(lines, start, t, i)
  {
    SortedUnique(t);
    forall i: nat | i < |t|
      ensures ReadsAs(lines, start, t, i)
    {
      assert lines[start + i] == EntryString(t[i]) by {
        assert lines[start + i] == lines[start..][i] == EntriesByName(t)[i];
      }
      NotYetRead(t, i);
      EntryLineReads(t[i], t[..i]);
    }
  }

  /** Lines that read one by one as the entries of t, read from the n-th on after its first n entries, give t. */
  lemma {:induction false} ScoreEntriesBack(lines: seq<string>, start: nat, t: seq<Entry>, n: nat)
    requires n <= |t| && start + |t| == |lines|
    requires forall i: nat :: i < |t| ==> ReadsAs(lines, start, t, i)
    ensures ScoreEntries(lines, start + n, t[..n]) == Ok(t)
    decreases |t| - n
  {
    if n < |t| {
      assert ReadsAs(lines, start, t, n);
      ScoreEntriesNext(lines, start + n, t[..n]);
      assert t[..n] + [t[n]] == t[..n + 1];
      ScoreEntriesBack(lines, start, t, n + 1);
    } else {
      assert t[..n] == t;
    }
  }

  /**
   * The lines getEntriesByName gives for a table read back, into a game whose
   * table is still empty, as that table.
   */
  lemma ScoresBlockBack(lines: seq<string>, start: nat, s: GameRules.GameState, t: seq<Entry>)
    requires s.table == [] && SaveableTable(t)
    requires start <= |lines| && lines[start..] == EntriesByName(t)
    ensures ScoresBlock(lines, start, s) == Ok(s.(table := t))
  {
    EntryLinesRead(lines, start, t);
    ScoreEntriesBack(lines, start, t, 0);
    assert t[..0] == [];
    StoreAllTable([], t);
    TableAccepted(t);
    assert ToMap([]) + ToMap(t) == ToMap(t);
    TableCanonical(StoreAll([], t), t);
    MatchesPrefix(lines[start..], EntriesByName(t));
  }
}
