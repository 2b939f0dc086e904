/** The four compass directions (pacman.util.Direction). */
module Directions {
  import opened Wrappers
  import opened Positions

  datatype Direction = Left | Right | Up | Down

  /** The unit step a move in this direction makes. */
  function Offset(d: Direction): Position {
    match d
    case Left => Position(-1, 0)
    case Right => Position(1, 0)
    case Up => Position(0, -1)
    case Down => Position(0, 1)
  }

  /** The direction pointing the other way. */
  function Opposite(d: Direction): Direction {
    match d
    case Left => Right
    case Right => Left
    case Up => Down
    case Down => Up
  }

  /** The enum constant's name, as name() and toString() give it. */
  function Name(d: Direction): string {
    match d
    case Left => "LEFT"
    case Right => "RIGHT"
    case Up => "UP"
    case Down => "DOWN"
  }

  /** Direction.valueOf: the constant with exactly this name, or IllegalArgumentException. */
  function ValueOf(s: string): (r: Result<Direction>)
    ensures r.Ok? ==> Name(r.value) == s
    ensures r.Err? ==> r.error == IllegalArgument
  {
    if s == "LEFT" then Ok(Left)
    else if s == "RIGHT" then Ok(Right)
    else if s == "UP" then Ok(Up)
    else if s == "DOWN" then Ok(Down)
    else Err(IllegalArgument)
  }

  /** Opposite is an involution without fixed points, and its step undoes the step of d. */
  lemma OppositeUndoes(d: Direction)
    ensures Opposite(Opposite(d)) == d && Opposite(d) != d
    ensures Add(Offset(d), Offset(Opposite(d))) == Position(0, 0)
  {
  }

  /** Each direction's step has length one, and distinct directions step differently. */
  lemma OffsetsAreUnitSteps(d: Direction, e: Direction)
    ensures DistanceSq(Position(0, 0), Offset(d)) == 1
    ensures Offset(d) == Offset(e) ==> d == e
  {
  }

  /** A step in any direction ends one cell from where it started. */
  lemma StepIsUnit(p: Position, d: Direction)
    ensures DistanceSq(Add(p, Offset(d)), p) == 1
  {
    var q := Add(p, Offset(d));
    assert q.x - p.x == Offset(d).x && q.y - p.y == Offset(d).y;
  }

  /** valueOf recovers every direction from its name. */
  lemma ValueOfName(d: Direction)
    ensures ValueOf(Name(d)) == Ok(d)
  {
  }
}
