/**
 * The value a PacmanBoard holds: its dimensions and its grid of items, with
 * the board operations stated as functions on that value. The class in module
 * Boards is proved against these functions.
 *
 * Rows come first, as in the Java field `board[y][x]`: `cells[y][x]` is the
 * item at Position(x, y).
 */
module Grids {
  import opened Wrappers
  import opened Text
  import opened Positions
  import opened BoardItems

  datatype Grid = Grid(width: int, height: int, cells: seq<seq<BoardItem>>)

  /** Positive dimensions and height rows of width items each. */
  predicate WellFormed(g: Grid) {
    g.width >= 1 && g.height >= 1 && |g.cells| == g.height &&
    forall y :: 0 <= y < g.height ==> |g.cells[y]| == g.width
  }

  predicate InBounds(g: Grid, p: Position) {
    0 <= p.x < g.width && 0 <= p.y < g.height
  }

  /** Two grids with the same dimensions and the same item everywhere are the same grid. */
  lemma Ext(a: Grid, b: Grid)
    requires WellFormed(a) && WellFormed(b)
    requires a.width == b.width && a.height == b.height
    requires forall y, x :: 0 <= y < a.height && 0 <= x < a.width ==> a.cells[y][x] == b.cells[y][x]
    ensures a == b
  {
    assert forall y :: 0 <= y < a.height ==> a.cells[y] == b.cells[y];
  }

  // ---------------------------------------------------------------------------
  // Construction
  // ---------------------------------------------------------------------------

  /** The item a fresh board holds at (x, y): walls on the outer ring, nothing inside. */
  function FreshItem(width: int, height: int, x: int, y: int): BoardItem {
    if y == 0 || y == height - 1 then Wall
    else if x == 0 || x == width - 1 then Wall
    else NoneItem
  }

  predicate OnRing(width: int, height: int, x: int, y: int) {
    x == 0 || y == 0 || x == width - 1 || y == height - 1
  }

  /** new PacmanBoard(width, height). */
  function Fresh(width: int, height: int): (r: Result<Grid>)
    ensures r.Err? <==> width <= 0 || height <= 0
    ensures r.Err? ==> r.error == IllegalArgument
    ensures r.Ok? ==> WellFormed(r.value) && r.value.width == width && r.value.height == height
    ensures r.Ok? ==> forall y, x :: 0 <= y < height && 0 <= x < width ==>
                        (r.value.cells[y][x] == Wall <==> OnRing(width, height, x, y)) &&
                        (r.value.cells[y][x] == NoneItem <==> !OnRing(width, height, x, y))
  {
    if width <= 0 || height <= 0 then Err(IllegalArgument)
    else Ok(Grid(width, height, seq(height, y => seq(width, x => FreshItem(width, height, x, y)))))
  }

  // ---------------------------------------------------------------------------
  // Single cells
  // ---------------------------------------------------------------------------

  /** getEntry: the item at p, or IndexOutOfBoundsException. */
  function Get(g: Grid, p: Position): (r: Result<BoardItem>)
    requires WellFormed(g)
    ensures r.Err? <==> !InBounds(g, p)
    ensures r.Err? ==> r.error == IndexOutOfBounds
  {
    if p.x < 0 || p.x > g.width - 1 then Err(IndexOutOfBounds)
    else if p.y < 0 || p.y > g.height - 1 then Err(IndexOutOfBounds)
    else Ok(g.cells[p.y][p.x])
  }

  /** The grid with the cell at p overwritten and every other cell as before. */
  function Put(g: Grid, p: Position, item: BoardItem): (r: Grid)
    requires WellFormed(g) && InBounds(g, p)
    ensures WellFormed(r) && r.width == g.width && r.height == g.height
    ensures forall y, x :: 0 <= y < g.height && 0 <= x < g.width ==>
              r.cells[y][x] == if x == p.x && y == p.y then item else g.cells[y][x]
  {
    Grid(g.width, g.height, g.cells[p.y := g.cells[p.y][p.x := item]])
  }

  // ---------------------------------------------------------------------------
  // Spawn lookup: column by column, and top to bottom within a column
  // ---------------------------------------------------------------------------

  /** (x, y) is visited before p by a scan that runs x-outer, y-inner. */
  predicate ScanBefore(x: int, y: int, p: Position) {
    x < p.x || (x == p.x && y < p.y)
  }

  /** The scan from column col, row row onwards. */
  function FindFrom(g: Grid, item: BoardItem, col: nat, row: nat): Option<Position>
    requires WellFormed(g) && col <= g.width && row <= g.height
    decreases g.width - col, g.height - row
  {
    if col == g.width then None
    else if row == g.height then FindFrom(g, item, col + 1, 0)
    else if g.cells[row][col] == item then Some(Position(col, row))
    else FindFrom(g, item, col, row + 1)
  }

  /** The scan finds a cell holding item at or after its start, and none holds it in between. */
  lemma {:induction false} FindFromFacts(g: Grid, item: BoardItem, col: nat, row: nat)
    requires WellFormed(g) && col <= g.width && row <= g.height
    ensures var r := FindFrom(g, item, col, row);
            r.Some? ==> InBounds(g, r.value) && g.cells[r.value.y][r.value.x] == item &&
                        !ScanBefore(r.value.x, r.value.y, Position(col, row))
    ensures var r := FindFrom(g, item, col, row);
            r.Some? ==> forall y, x ::
              (0 <= y < g.height && 0 <= x < g.width &&
               !ScanBefore(x, y, Position(col, row)) && ScanBefore(x, y, r.value)) ==>
              g.cells[y][x] != item
    ensures FindFrom(g, item, col, row).None? ==> forall y, x ::
              (0 <= y < g.height && 0 <= x < g.width && !ScanBefore(x, y, Position(col, row))) ==>
              g.cells[y][x] != item
    decreases g.width - col, g.height - row
  {
    if col == g.width {
    } else if row == g.height {
      FindFromFacts(g, item, col + 1, 0);
    } else if g.cells[row][col] == item {
    } else {
      FindFromFacts(g, item, col, row + 1);
    }
  }

  /** getGhostSpawn / getPacmanSpawn: the first cell holding item in scan order, if any. */
  function FirstMatch(g: Grid, item: BoardItem): (r: Option<Position>)
    requires WellFormed(g)
    ensures r.Some? ==> InBounds(g, r.value) && g.cells[r.value.y][r.value.x] == item
    ensures r.Some? ==> forall y, x ::
              (0 <= y < g.height && 0 <= x < g.width && ScanBefore(x, y, r.value)) ==>
              g.cells[y][x] != item
    ensures r.None? <==> forall y, x :: 0 <= y < g.height && 0 <= x < g.width ==> g.cells[y][x] != item
  {
    FindFromFacts(g, item, 0, 0);
    FindFrom(g, item, 0, 0)
  }

  /** setEntry(spawn, NONE) on the first occurrence of item, if there is one. */
  function ClearFirst(g: Grid, item: BoardItem): (r: Grid)
    requires WellFormed(g)
    ensures WellFormed(r) && r.width == g.width && r.height == g.height
  {
    match FirstMatch(g, item)
    case None => g
    case Some(q) => Put(g, q, NoneItem)
  }

  /** At most one cell holds item. */
  predicate AtMostOne(g: Grid, item: BoardItem)
    requires WellFormed(g)
  {
    forall y1, x1, y2, x2 ::
      (0 <= y1 < g.height && 0 <= x1 < g.width && 0 <= y2 < g.height && 0 <= x2 < g.width &&
       g.cells[y1][x1] == item && g.cells[y2][x2] == item) ==> x1 == x2 && y1 == y2
  }

  /** The board invariant the spawn handling of setEntry is meant to keep. */
  predicate SpawnsUnique(g: Grid)
    requires WellFormed(g)
  {
    AtMostOne(g, PacmanSpawn) && AtMostOne(g, GhostSpawn)
  }

  /**
   * setEntry: out-of-bounds positions fail and change nothing. Placing a
   * PACMAN_SPAWN first clears the current pacman spawn and then, as the
   * switch has no break, the current ghost spawn too; placing a GHOST_SPAWN
   * clears the current ghost spawn. Then the item is written at p.
   */
  function Set(g: Grid, p: Position, item: BoardItem): (r: Result<Grid>)
    requires WellFormed(g)
    ensures r.Err? <==> !InBounds(g, p)
    ensures r.Err? ==> r.error == IndexOutOfBounds
    ensures r.Ok? ==> WellFormed(r.value) && r.value.width == g.width && r.value.height == g.height
    ensures r.Ok? ==> Get(r.value, p) == Ok(item)
  {
    if p.x < 0 || p.x > g.width - 1 then Err(IndexOutOfBounds)
    else if p.y < 0 || p.y > g.height - 1 then Err(IndexOutOfBounds)
    else
      var g1 := if item == PacmanSpawn then ClearFirst(g, PacmanSpawn) else g;
      var g2 := if item == PacmanSpawn || item == GhostSpawn then ClearFirst(g1, GhostSpawn) else g1;
      Ok(Put(g2, p, item))
  }

  /** Writing an item that is not a spawn changes that one cell only. */
  lemma SetOther(g: Grid, p: Position, item: BoardItem)
    requires WellFormed(g) && InBounds(g, p)
    requires item != PacmanSpawn && item != GhostSpawn
    ensures Set(g, p, item) == Ok(Put(g, p, item))
  {
  }

  /** When item occurs at most once, clearing its first occurrence leaves none and touches nothing else. */
  lemma ClearFirstUnique(g: Grid, item: BoardItem)
    requires WellFormed(g) && AtMostOne(g, item) && item != NoneItem
    ensures forall y, x :: 0 <= y < g.height && 0 <= x < g.width ==>
              ClearFirst(g, item).cells[y][x] == if g.cells[y][x] == item then NoneItem else g.cells[y][x]
  {
  }

  /**
   * With at most one ghost spawn beforehand, placing a ghost spawn at p
   * leaves p as the only ghost spawn; the old one becomes NONE and no other
   * cell changes.
   */
  lemma {:induction false} SetGhostSpawn(g: Grid, p: Position)
    requires WellFormed(g) && InBounds(g, p) && AtMostOne(g, GhostSpawn)
    ensures Set(g, p, GhostSpawn).Ok?
    ensures var r := Set(g, p, GhostSpawn).value;
            forall y, x :: 0 <= y < g.height && 0 <= x < g.width ==>
              (r.cells[y][x] == GhostSpawn <==> x == p.x && y == p.y) &&
              (!(x == p.x && y == p.y) && g.cells[y][x] != GhostSpawn ==> r.cells[y][x] == g.cells[y][x])
  {
    ClearFirstUnique(g, GhostSpawn);
  }

  /**
   * With at most one spawn of each kind beforehand, placing a pacman spawn
   * at p leaves p as the only pacman spawn and no ghost spawn at all; both
   * old spawns become NONE and no other cell changes.
   */
  lemma {:induction false} SetPacmanSpawn(g: Grid, p: Position)
    requires WellFormed(g) && InBounds(g, p) && SpawnsUnique(g)
    ensures Set(g, p, PacmanSpawn).Ok?
    ensures var r := Set(g, p, PacmanSpawn).value;
            forall y, x :: 0 <= y < g.height && 0 <= x < g.width ==>
              (r.cells[y][x] == PacmanSpawn <==> x == p.x && y == p.y) &&
              r.cells[y][x] != GhostSpawn &&
              (!(x == p.x && y == p.y) && g.cells[y][x] != GhostSpawn && g.cells[y][x] != PacmanSpawn ==>
                 r.cells[y][x] == g.cells[y][x])
  {
    var g1 := ClearFirst(g, PacmanSpawn);
    ClearFirstUnique(g, PacmanSpawn);
    assert AtMostOne(g1, GhostSpawn);
    ClearFirstUnique(g1, GhostSpawn);
  }

  /** setEntry keeps every board with at most one spawn of each kind that way. */
  lemma {:induction false} SetKeepsSpawnsUnique(g: Grid, p: Position, item: BoardItem)
    requires WellFormed(g) && SpawnsUnique(g) && InBounds(g, p)
    ensures SpawnsUnique(Set(g, p, item).value)
  {
    if item == PacmanSpawn {
      SetPacmanSpawn(g, p);
    } else if item == GhostSpawn {
      SetGhostSpawn(g, p);
    } else {
      SetOther(g, p, item);
    }
  }

  // ---------------------------------------------------------------------------
  // Eating, emptiness and reset
  // ---------------------------------------------------------------------------

  /**
   * eatDot: a DOT becomes NONE and DOT is returned; a BIG_DOT becomes
   * BIG_DOT_SPAWN and BIG_DOT is returned; any other item stays and is
   * returned. Out-of-bounds positions fail.
   */
  function Eat(g: Grid, p: Position): (r: Result<(Grid, BoardItem)>)
    requires WellFormed(g)
    ensures r.Err? <==> !InBounds(g, p)
    ensures r.Err? ==> r.error == IndexOutOfBounds
    ensures r.Ok? ==> WellFormed(r.value.0) && r.value.0.width == g.width && r.value.0.height == g.height
  {
    if p.x < 0 || p.x > g.width - 1 then Err(IndexOutOfBounds)
    else if p.y < 0 || p.y > g.height - 1 then Err(IndexOutOfBounds)
    else match g.cells[p.y][p.x]
      case Dot => Ok((Set(g, p, NoneItem).value, Dot))
      case BigDot => Ok((Set(g, p, BigDotSpawn).value, BigDot))
      case other => Ok((g, other))
  }

  /**
   * Eating returns the item that was there, so its score is what the eater
   * earns; the cell no longer holds a dot; every other cell is unchanged;
   * and the spawns are untouched.
   */
  lemma EatEffect(g: Grid, p: Position)
    requires WellFormed(g) && InBounds(g, p)
    ensures var (r, eaten) := Eat(g, p).value;
            eaten == g.cells[p.y][p.x] &&
            r.cells[p.y][p.x] != Dot && r.cells[p.y][p.x] != BigDot &&
            (eaten != Dot && eaten != BigDot ==> r == g) &&
            (forall y, x :: 0 <= y < g.height && 0 <= x < g.width && !(x == p.x && y == p.y) ==>
               r.cells[y][x] == g.cells[y][x]) &&
            (SpawnsUnique(g) ==> SpawnsUnique(r))
  {
  }

  /** isEmpty: no DOT and no BIG_DOT remains. */
  predicate IsEmpty(g: Grid)
    requires WellFormed(g)
  {
    forall y, x :: 0 <= y < g.height && 0 <= x < g.width ==> g.cells[y][x] != Dot && g.cells[y][x] != BigDot
  }

  /** A freshly constructed board has nothing to eat and no spawn. */
  lemma FreshIsEmpty(width: int, height: int)
    requires width >= 1 && height >= 1
    ensures IsEmpty(Fresh(width, height).value)
    ensures FirstMatch(Fresh(width, height).value, PacmanSpawn).None?
    ensures FirstMatch(Fresh(width, height).value, GhostSpawn).None?
  {
  }

  /** reset's rule for one cell: eaten dots come back. */
  function ResetItem(i: BoardItem): BoardItem {
    if i == NoneItem then Dot else if i == BigDotSpawn then BigDot else i
  }

  /** reset: NONE becomes DOT, BIG_DOT_SPAWN becomes BIG_DOT, all else stays. */
  function Reset(g: Grid): (r: Grid)
    requires WellFormed(g)
    ensures WellFormed(r) && r.width == g.width && r.height == g.height
    ensures forall y, x :: 0 <= y < g.height && 0 <= x < g.width ==> r.cells[y][x] == ResetItem(g.cells[y][x])
  {
    Grid(g.width, g.height, seq(g.height, y requires 0 <= y < g.height =>
      seq(g.width, x requires 0 <= x < g.width => ResetItem(g.cells[y][x]))))
  }

  /** Resetting twice is resetting once; walls and spawns stay where they are. */
  lemma ResetIdempotent(g: Grid)
    requires WellFormed(g)
    ensures Reset(Reset(g)) == Reset(g)
    ensures forall y, x :: 0 <= y < g.height && 0 <= x < g.width && g.cells[y][x] in {Wall, PacmanSpawn, GhostSpawn} ==>
              Reset(g).cells[y][x] == g.cells[y][x]
  {
    Ext(Reset(Reset(g)), Reset(g));
  }

  /** After a reset the board is empty exactly when it has no NONE, DOT, BIG_DOT or BIG_DOT_SPAWN cell. */
  lemma ResetRefills(g: Grid)
    requires WellFormed(g)
    ensures IsEmpty(Reset(g)) <==>
            forall y, x :: 0 <= y < g.height && 0 <= x < g.width ==>
              g.cells[y][x] in {Wall, PacmanSpawn, GhostSpawn}
  {
  }

  // ---------------------------------------------------------------------------
  // Text form and equality (both index the grid as board[x][y])
  // ---------------------------------------------------------------------------

  /** The transposed grid: the item at (x, y) moves to (y, x). */
  function Transpose(g: Grid): (r: Grid)
    requires WellFormed(g)
    ensures WellFormed(r) && r.width == g.height && r.height == g.width
    ensures forall y, x :: 0 <= y < g.width && 0 <= x < g.height ==> r.cells[y][x] == g.cells[x][y]
  {
    Grid(g.height, g.width, seq(g.width, y requires 0 <= y < g.width =>
      seq(g.height, x requires 0 <= x < g.height => g.cells[x][y])))
  }

  lemma TransposeTwice(g: Grid)
    requires WellFormed(g)
    ensures Transpose(Transpose(g)) == g
  {
    Ext(Transpose(Transpose(g)), g);
  }

  /** Line y of the text of a square grid: the keys of board[x][y] for x = 0 .. width-1. */
  function TextLine(g: Grid, y: int): string
    requires WellFormed(g) && g.width == g.height && 0 <= y < g.height
  {
    seq(g.width, x requires 0 <= x < g.width => CharKey(g.cells[x][y]))
  }

  function TextLines(g: Grid): seq<string>
    requires WellFormed(g) && g.width == g.height
  {
    seq(g.height, y requires 0 <= y < g.height => TextLine(g, y))
  }

  /**
   * toString: for a non-square board the loops index outside the array; for a
   * square one, height lines of width keys joined by line breaks, where line
   * y, character x is the key of the cell at Position(y, x).
   */
  function ToString(g: Grid): (r: Result<string>)
    requires WellFormed(g)
    ensures r.Err? <==> g.width != g.height
    ensures r.Err? ==> r.error == IndexOutOfBounds
    ensures r.Ok? ==> var lines := Lines(r.value);
                      |lines| == g.height &&
                      forall y, x :: 0 <= y < g.height && 0 <= x < g.width ==>
                        |lines[y]| == g.width && lines[y][x] == CharKey(Get(g, Position(y, x)).value)
  {
    if g.width != g.height then Err(IndexOutOfBounds)
    else
      var lines := TextLines(g);
      assert forall k :: 0 <= k < |lines| ==> NoLineBreak(lines[k]);
      LinesOfJoined(lines);
      Ok(Join(lines, "\n"))
  }

  /** Two grids with the same dimensions, as equals checks first. */
  predicate SameSize(g: Grid, o: Grid) {
    WellFormed(g) && WellFormed(o) && g.width == o.width && g.height == o.height
  }

  /**
   * board[x][y] of the [height][width] array lies outside it when x >= height
   * or y >= width; equals reaches such an index only on a non-square board.
   */
  predicate OutsideArray(g: Grid, x: int, y: int) {
    x >= g.height || y >= g.width
  }

  /** equals' comparison at (x, y): board[x][y] of g against the entry of o at Position(x, y). */
  predicate SameAt(g: Grid, o: Grid, x: int, y: int)
    requires SameSize(g, o) && 0 <= x < g.width && 0 <= y < g.height && !OutsideArray(g, x, y)
  {
    g.cells[x][y] == o.cells[y][x]
  }

  /**
   * The loops of equals from (x, y) on, y outer and x inner: board[x][y] is
   * read before the other's entry, so an index outside the array throws
   * there; a mismatch gives false; the end of the scan gives true.
   */
  function EqualsFrom(g: Grid, o: Grid, x: int, y: int): Result<bool>
    requires SameSize(g, o) && 0 <= x <= g.width && 0 <= y <= g.height
    decreases g.height - y, g.width - x
  {
    if y == g.height then Ok(true)
    else if x == g.width then EqualsFrom(g, o, 0, y + 1)
    else if OutsideArray(g, x, y) then Err(IndexOutOfBounds)
    else if !SameAt(g, o, x, y) then Ok(false)
    else EqualsFrom(g, o, x + 1, y)
  }

  /** A run of cells of row y, all inside the array, is scanned to its end or to its first mismatch. */
  lemma {:induction false} RunFrom(g: Grid, o: Grid, x: int, stop: int, y: int)
    requires SameSize(g, o) && 0 <= x <= stop <= g.width && 0 <= y < g.height
    requires forall a :: x <= a < stop ==> !OutsideArray(g, a, y)
    ensures EqualsFrom(g, o, x, y) ==
              if forall a :: x <= a < stop ==> SameAt(g, o, a, y) then EqualsFrom(g, o, stop, y) else Ok(false)
    decreases stop - x
  {
    if x < stop {
      RunFrom(g, o, x + 1, stop, y);
    }
  }

  /** Rows y to last - 1, all inside the array, are scanned to their end or to their first mismatch. */
  lemma {:induction false} RowsFrom(g: Grid, o: Grid, y: int, last: int)
    requires SameSize(g, o) && 0 <= y <= last <= g.height
    requires forall b, a :: y <= b < last && 0 <= a < g.width ==> !OutsideArray(g, a, b)
    ensures EqualsFrom(g, o, 0, y) ==
              if forall b, a :: y <= b < last && 0 <= a < g.width ==> SameAt(g, o, a, b)
              then EqualsFrom(g, o, 0, last) else Ok(false)
    decreases last - y
  {
    if y < last {
      RunFrom(g, o, 0, g.width, y);
      RowsFrom(g, o, y + 1, last);
    }
  }

  /**
   * equals against another board. Different dimensions give false. On a
   * square board it compares every cell. On a wider board the scan throws at
   * (height, 0) unless row 0 already mismatches before it; on a taller board
   * it throws at (0, width) unless the top width x width square mismatches.
   */
  function Equals(g: Grid, o: Grid): (r: Result<bool>)
    requires WellFormed(g) && WellFormed(o)
    ensures !SameSize(g, o) ==> r == Ok(false)
    ensures r.Err? ==> r.error == IndexOutOfBounds
    ensures r == Ok(true) <==> SameSize(g, o) && g.width == g.height && o == Transpose(g)
    ensures SameSize(g, o) && g.width > g.height ==>
              (r.Err? <==> forall x :: 0 <= x < g.height ==> SameAt(g, o, x, 0))
    ensures SameSize(g, o) && g.width < g.height ==>
              (r.Err? <==> forall y, x :: 0 <= y < g.width && 0 <= x < g.width ==> SameAt(g, o, x, y))
  {
    if !SameSize(g, o) then Ok(false)
    else
      var r := EqualsFrom(g, o, 0, 0);
      if g.width == g.height then
        RowsFrom(g, o, 0, g.height);
        if r == Ok(true) then
          var t := Transpose(g);
          assert forall y, x :: 0 <= y < g.height && 0 <= x < g.width ==> o.cells[y][x] == t.cells[y][x] by {
            forall y, x | 0 <= y < g.height && 0 <= x < g.width
              ensures o.cells[y][x] == t.cells[y][x]
            {
              assert SameAt(g, o, x, y);
            }
          }
          Ext(o, t);
          r
        else
          r
      else if g.width > g.height then
        RunFrom(g, o, 0, g.height, 0);
        r
      else
        RowsFrom(g, o, 0, g.width);
        r
  }

  /**
   * In the scan order of equals (y outer, x inner), the first index outside
   * the array of a non-square board is (height, 0) or (0, width); equals
   * throws exactly when no mismatch comes before it, and gives false otherwise.
   */
  lemma EqualsScanOrder(g: Grid, o: Grid)
    requires SameSize(g, o) && g.width != g.height
    ensures var (fx, fy) := if g.width > g.height then (g.height, 0) else (0, g.width);
            0 <= fx < g.width && 0 <= fy < g.height && OutsideArray(g, fx, fy) &&
            (forall y, x :: 0 <= y < g.height && 0 <= x < g.width && (y < fy || (y == fy && x < fx)) ==>
               !OutsideArray(g, x, y)) &&
            (Equals(g, o).Err? <==>
               forall y, x :: 0 <= y < g.height && 0 <= x < g.width && (y < fy || (y == fy && x < fx)) ==>
                 !OutsideArray(g, x, y) && SameAt(g, o, x, y)) &&
            Equals(g, o) != Ok(true)
  {
  }

  /** equals holds of two square boards exactly when one is the transpose of the other. */
  lemma EqualsIsTranspose(g: Grid, o: Grid)
    requires WellFormed(g) && WellFormed(o) && g.width == g.height
    ensures Equals(g, o) == Ok(true) <==> o == Transpose(g)
  {
  }

  /** So equals is reflexive exactly on symmetric boards; this 2x2 board is not equal to itself. */
  lemma EqualsNotReflexive()
    ensures var g := Grid(2, 2, [[Wall, Dot], [NoneItem, Wall]]);
            WellFormed(g) && Equals(g, g) == Ok(false)
  {
    var g := Grid(2, 2, [[Wall, Dot], [NoneItem, Wall]]);
    assert g.cells[1][0] != g.cells[0][1];
  }
}
