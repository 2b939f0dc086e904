/**
 * pacman.board.PacmanBoard: a width x height array of items, stored row by
 * row as `board[y, x]` and updated in place. Every method is proved against
 * the function of module Grids that states what it does to the grid value.
 */
module Boards {
  import opened Wrappers
  import opened Text
  import opened Positions
  import opened BoardItems
  import Grids

  class PacmanBoard {
    const width: int
    const height: int
    const board: array2<BoardItem>
    /** The items of the array, row by row, as a value. */
    ghost var cells: seq<seq<BoardItem>>

    /** The dimensions are positive and the rows of cells have them. */
    ghost predicate Shaped()
      reads this
    {
      width >= 1 && height >= 1 && |cells| == height && forall y :: 0 <= y < height ==> |cells[y]| == width
    }

    /** Shaped, and the array has the dimensions and holds cells. */
    ghost predicate Valid()
      reads this, board
    {
      Shaped() && board.Length0 == height && board.Length1 == width &&
      forall y, x :: 0 <= y < height && 0 <= x < width ==> board[y, x] == cells[y][x]
    }

    /** The grid the array holds. */
    ghost function Model(): (g: Grids.Grid)
      requires Shaped()
      reads this
      ensures Grids.WellFormed(g) && g.width == width && g.height == height
    {
      Grids.Grid(width, height, cells)
    }

    /** new PacmanBoard(width, height) once the dimensions are known to be positive. */
    constructor (w: int, h: int)
      requires w >= 1 && h >= 1
      ensures Valid() && Model() == Grids.Fresh(w, h).value
      ensures fresh(board)
    {
      width := w;
      height := h;
      board := new BoardItem[h, w];
      new;
      var column := 0;
      while column < w
        invariant 0 <= column <= w
        invariant forall y, x :: 0 <= y < h && 0 <= x < column ==> board[y, x] == Grids.FreshItem(w, h, x, y)
      {
        var row := 0;
        while row < h
          invariant 0 <= row <= h
          invariant forall y, x :: 0 <= y < h && 0 <= x < column ==> board[y, x] == Grids.FreshItem(w, h, x, y)
          invariant forall y :: 0 <= y < row ==> board[y, column] == Grids.FreshItem(w, h, column, y)
        {
          if row == 0 || row == h - 1 {
            board[row, column] := Wall;
          } else if column == 0 || column == w - 1 {
            board[row, column] := Wall;
          } else {
            board[row, column] := NoneItem;
          }
          row := row + 1;
        }
        column := column + 1;
      }
      cells := Grids.Fresh(w, h).value.cells;
    }

    /** The copy constructor: same dimensions and items, in an array of its own. */
    constructor Copy(other: PacmanBoard)
      requires other.Valid()
      ensures Valid() && Model() == other.Model()
      ensures fresh(board)
    {
      width := other.width;
      height := other.height;
      board := new BoardItem[other.height, other.width];
      new;
      var row := 0;
      while row < height
        invariant 0 <= row <= height
        invariant forall y, x :: 0 <= y < row && 0 <= x < width ==> board[y, x] == other.board[y, x]
      {
        var x := 0;
        while x < width
          invariant 0 <= x <= width
          invariant forall y, c :: 0 <= y < row && 0 <= c < width ==> board[y, c] == other.board[y, c]
          invariant forall c :: 0 <= c < x ==> board[row, c] == other.board[row, c]
        {
          board[row, x] := other.board[row, x];
          x := x + 1;
        }
        row := row + 1;
      }
      cells := other.cells;
    }

    /** getEntry. */
    method GetEntry(p: Position) returns (r: Result<BoardItem>)
      requires Valid()
      ensures r == Grids.Get(Model(), p)
    {
      if p.x < 0 || p.x > width - 1 {
        return Err(IndexOutOfBounds);
      } else if p.y < 0 || p.y > height - 1 {
        return Err(IndexOutOfBounds);
      }
      return Ok(board[p.y, p.x]);
    }

    /** The raw write at the end of setEntry (and the whole of setEntry for a non-spawn item). */
    method Write(p: Position, item: BoardItem)
      requires Valid() && Grids.InBounds(Model(), p)
      modifies this, board
      ensures Valid() && Model() == Grids.Put(old(Model()), p, item)
    {
      board[p.y, p.x] := item;
      cells := cells[p.y := cells[p.y][p.x := item]];
    }

    /** The loop shared by getGhostSpawn and getPacmanSpawn: x-outer, y-inner, first match. */
    method FindItem(item: BoardItem) returns (r: Option<Position>)
      requires Valid()
      ensures r == Grids.FirstMatch(Model(), item)
    {
      ghost var g := Model();
      var column := 0;
      while column < width
        invariant 0 <= column <= width
        invariant Grids.FindFrom(g, item, column, 0) == Grids.FirstMatch(g, item)
      {
        var row := 0;
        while row < height
          invariant 0 <= row <= height
          invariant Grids.FindFrom(g, item, column, row) == Grids.FirstMatch(g, item)
        {
          if board[row, column] == item {
            return Some(Position(column, row));
          }
          row := row + 1;
        }
        column := column + 1;
      }
      return None;
    }

    /** getGhostSpawn. */
    method GetGhostSpawn() returns (r: Option<Position>)
      requires Valid()
      ensures r == Grids.FirstMatch(Model(), GhostSpawn)
    {
      r := FindItem(GhostSpawn);
    }

    /** getPacmanSpawn. */
    method GetPacmanSpawn() returns (r: Option<Position>)
      requires Valid()
      ensures r == Grids.FirstMatch(Model(), PacmanSpawn)
    {
      r := FindItem(PacmanSpawn);
    }

    /** The spawn clearing in setEntry: the first cell holding item, if any, becomes empty. */
    method Clear(item: BoardItem)
      requires Valid()
      modifies this, board
      ensures Valid() && Model() == Grids.ClearFirst(old(Model()), item)
    {
      ghost var g := Model();
      var current := FindItem(item);
      assert current == Grids.FirstMatch(g, item);
      if current.Some? {
        Write(current.value, NoneItem);
      }
    }

    /** setEntry, with the spawn clearing of its fall-through switch. */
    method SetEntry(p: Position, item: BoardItem) returns (r: Outcome)
      requires Valid()
      modifies this, board
      ensures Valid()
      ensures var s := Grids.Set(old(Model()), p, item);
              if s.Ok? then r == Pass && Model() == s.value
              else r == Fail(s.error) && Model() == old(Model())
    {
      if p.x < 0 || p.x > width - 1 {
        return Fail(IndexOutOfBounds);
      } else if p.y < 0 || p.y > height - 1 {
        return Fail(IndexOutOfBounds);
      }
      ghost var g0 := Model();
      if item == PacmanSpawn {
        Clear(PacmanSpawn);
      }
      ghost var g1 := Model();
      if item == PacmanSpawn || item == GhostSpawn {
        Clear(GhostSpawn);
      }
      ghost var g2 := Model();
      assert g2 == if item == PacmanSpawn || item == GhostSpawn then Grids.ClearFirst(g1, GhostSpawn) else g1;
      Write(p, item);
      return Pass;
    }

    /** eatDot. */
    method EatDot(p: Position) returns (r: Result<BoardItem>)
      requires Valid()
      modifies this, board
      ensures Valid()
      ensures var s := Grids.Eat(old(Model()), p);
              if s.Ok? then r == Ok(s.value.1) && Model() == s.value.0
              else r == Err(s.error) && Model() == old(Model())
    {
      if p.x < 0 || p.x > width - 1 {
        return Err(IndexOutOfBounds);
      } else if p.y < 0 || p.y > height - 1 {
        return Err(IndexOutOfBounds);
      }
      var current := board[p.y, p.x];
      if current == Dot {
        var _ := SetEntry(p, NoneItem);
        return Ok(Dot);
      } else if current == BigDot {
        var _ := SetEntry(p, BigDotSpawn);
        return Ok(BigDot);
      }
      return Ok(current);
    }

    /** isEmpty. */
    method IsEmpty() returns (r: bool)
      requires Valid()
      ensures r == Grids.IsEmpty(Model())
    {
      var column := 0;
      while column < width
        invariant 0 <= column <= width
        invariant forall y, x :: 0 <= y < height && 0 <= x < column ==> board[y, x] != Dot && board[y, x] != BigDot
      {
        var row := 0;
        while row < height
          invariant 0 <= row <= height
          invariant forall y, x :: 0 <= y < height && 0 <= x < column ==> board[y, x] != Dot && board[y, x] != BigDot
          invariant forall y :: 0 <= y < row ==> board[y, column] != Dot && board[y, column] != BigDot
        {
          if board[row, column] == Dot || board[row, column] == BigDot {
            return false;
          }
          row := row + 1;
        }
        column := column + 1;
      }
      return true;
    }

    /** reset: refill the eaten dots in place. */
    method Reset()
      requires Valid()
      modifies this, board
      ensures Valid() && Model() == Grids.Reset(old(Model()))
    {
      ghost var before := Model();
      var column := 0;
      while column < width
        invariant 0 <= column <= width
        invariant forall y, x :: 0 <= y < height && 0 <= x < width ==>
                    board[y, x] == if x < column then Grids.ResetItem(before.cells[y][x]) else before.cells[y][x]
      {
        var row := 0;
        while row < height
          invariant 0 <= row <= height
          invariant forall y, x :: 0 <= y < height && 0 <= x < width ==>
                      board[y, x] == if x < column || (x == column && y < row)
                                     then Grids.ResetItem(before.cells[y][x]) else before.cells[y][x]
        {
          if board[row, column] == NoneItem {
            board[row, column] := Dot;
          } else if board[row, column] == BigDotSpawn {
            board[row, column] := BigDot;
          }
          row := row + 1;
        }
        column := column + 1;
      }
      cells := Grids.Reset(before).cells;
    }

    /** The inner loop of toString: the keys of board[x][y] for x = 0 .. width-1. */
    method RowText(y: int) returns (line: string)
      requires Valid() && width == height && 0 <= y < height
      ensures line == Grids.TextLine(Model(), y)
    {
      ghost var want := Grids.TextLine(Model(), y);
      line := "";
      var x := 0;
      while x < width
        invariant 0 <= x <= width
        invariant line == want[..x]
      {
        line := line + [CharKey(board[x, y])];
        x := x + 1;
      }
    }

    /** toString: a StringBuilder filled row of the text by row of the text. */
    method ToString() returns (r: Result<string>)
      requires Valid()
      ensures r == Grids.ToString(Model())
    {
      if width != height {
        return Err(IndexOutOfBounds);
      }
      ghost var lines := Grids.TextLines(Model());
      var sb := "";
      var y := 0;
      while y < height
        invariant 0 <= y <= height
        invariant y < height ==> sb == Terminated(lines[..y])
        invariant y == height ==> sb == Terminated(lines[..height - 1]) + lines[height - 1]
      {
        var line := RowText(y);
        sb := sb + line;
        if y != height - 1 {
          sb := sb + "\n";
          TerminatedSnoc(lines[..y], lines[y]);
          assert lines[..y] + [lines[y]] == lines[..y + 1];
        }
        y := y + 1;
      }
      TerminatedThenJoined(lines[..height - 1], [lines[height - 1]]);
      assert lines[..height - 1] + [lines[height - 1]] == lines;
      return Ok(sb);
    }

    /**
     * equals against another board: the dimensions first, then the cells in
     * y-outer, x-inner order, reading board[x][y] before the other's entry.
     */
    method Equals(other: PacmanBoard) returns (r: Result<bool>)
      requires Valid() && other.Valid()
      ensures r == Grids.Equals(Model(), other.Model())
    {
      if width != other.width || height != other.height {
        return Ok(false);
      }
      ghost var g, o := Model(), other.Model();
      var y := 0;
      while y < height
        invariant 0 <= y <= height
        invariant Grids.EqualsFrom(g, o, 0, y) == Grids.Equals(g, o)
      {
        var x := 0;
        while x < width
          invariant 0 <= x <= width
          invariant Grids.EqualsFrom(g, o, x, y) == Grids.Equals(g, o)
        {
          if x >= height || y >= width {
            return Err(IndexOutOfBounds);
          }
          var entry := other.GetEntry(Position(x, y));
          if entry != Ok(board[x, y]) {
            return Ok(false);
          }
          x := x + 1;
        }
        y := y + 1;
      }
      return Ok(true);
    }
  }

  /** new PacmanBoard(width, height), including its IllegalArgumentException. */
  method NewBoard(w: int, h: int) returns (r: Result<PacmanBoard>)
    ensures r.Err? <==> Grids.Fresh(w, h).Err?
    ensures r.Err? ==> r.error == IllegalArgument
    ensures r.Ok? ==> fresh(r.value) && fresh(r.value.board) && r.value.Valid() &&
                      r.value.Model() == Grids.Fresh(w, h).value
  {
    if w <= 0 || h <= 0 {
      return Err(IllegalArgument);
    }
    var b := new PacmanBoard(w, h);
    return Ok(b);
  }
}
