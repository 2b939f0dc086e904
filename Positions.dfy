/** Immutable board coordinates (pacman.util.Position). */
module Positions {
  import opened Wrappers
  import opened Text

  /** A cell of the board: x grows to the right, y grows downwards. */
  datatype Position = Position(x: int, y: int)

  /** Component-wise sum. */
  function Add(p: Position, q: Position): Position {
    Position(p.x + q.x, p.y + q.y)
  }

  /** Both coordinates scaled by the same factor. */
  function Multiply(p: Position, factor: int): Position {
    Position(p.x * factor, p.y * factor)
  }

  /** Position.equals: equal exactly when both coordinates agree. */
  function Equals(p: Position, q: Position): (r: bool)
    ensures r <==> p == q
  {
    p.x == q.x && p.y == q.y
  }

  /**
   * The square of the Euclidean distance. The engine only compares distances
   * with each other and with whole numbers, and for integer coordinates those
   * comparisons give the same answers on the squares.
   */
  function DistanceSq(p: Position, q: Position): (r: nat)
    ensures r == 0 <==> p == q
  {
    var dx := p.x - q.x;
    var dy := p.y - q.y;
    assert dx * dx >= 0 && dy * dy >= 0;
    assert dx * dx + dy * dy == 0 ==> dx == 0 && dy == 0;
    dx * dx + dy * dy
  }

  /** The "x,y" text form. */
  function ToString(p: Position): string {
    IntToString(p.x) + "," + IntToString(p.y)
  }

  lemma AddCommutes(p: Position, q: Position)
    ensures Add(p, q) == Add(q, p)
  {
  }

  lemma AddAssociates(p: Position, q: Position, s: Position)
    ensures Add(Add(p, q), s) == Add(p, Add(q, s))
  {
  }

  /** Scaling distributes over the sum; scaling by one changes nothing. */
  lemma MultiplyDistributes(p: Position, q: Position, k: int)
    ensures Multiply(Add(p, q), k) == Add(Multiply(p, k), Multiply(q, k))
    ensures Multiply(p, 1) == p
  {
    assert (p.x + q.x) * k == p.x * k + q.x * k;
    assert (p.y + q.y) * k == p.y * k + q.y * k;
  }

  lemma DistanceSymmetric(p: Position, q: Position)
    ensures DistanceSq(p, q) == DistanceSq(q, p)
  {
    assert (p.x - q.x) * (p.x - q.x) == (q.x - p.x) * (q.x - p.x);
    assert (p.y - q.y) * (p.y - q.y) == (q.y - p.y) * (q.y - p.y);
  }

  /** The text form splits at its comma into two numbers that parse back to the coordinates. */
  lemma ToStringParses(p: Position)
    requires InIntRange(p.x) && InIntRange(p.y)
    ensures var f := Split(ToString(p), ",");
            |f| == 2 && ParseInt(f[0]) == Some(p.x) && ParseInt(f[1]) == Some(p.y)
  {
    IntToStringAvoids(p.x, ',');
    IntToStringAvoids(p.y, ',');
    assert ToString(p) == Join([IntToString(p.x), IntToString(p.y)], [',']);
    SplitJoin([IntToString(p.x), IntToString(p.y)], ',');
    ParseIntToString(p.x);
    ParseIntToString(p.y);
  }
}
