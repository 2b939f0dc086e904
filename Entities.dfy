/**
 * pacman.game.Entity: the position and direction that hunters and ghosts
 * share. The Java base class is held by value in a field of the Hunter and
 * Ghost classes; its setters are the functions below applied to that field.
 */
module Entities {
  import opened Wrappers
  import opened Text
  import opened Positions
  import opened Directions

  datatype Entity = Entity(position: Position, direction: Direction)

  /** new Entity(): at (0, 0), facing up. */
  function Default(): Entity {
    Entity(Position(0, 0), Up)
  }

  /** new Entity(position, direction), where a null argument takes the default value. */
  function Make(position: Option<Position>, direction: Option<Direction>): (e: Entity)
    ensures e.position == if position.Some? then position.value else Default().position
    ensures e.direction == if direction.Some? then direction.value else Default().direction
  {
    Entity(if position.Some? then position.value else Position(0, 0),
           if direction.Some? then direction.value else Up)
  }

  /** setPosition: a null position is ignored. */
  function WithPosition(e: Entity, position: Option<Position>): Entity {
    if position.Some? then e.(position := position.value) else e
  }

  /** setDirection: a null direction is ignored. */
  function WithDirection(e: Entity, direction: Option<Direction>): Entity {
    if direction.Some? then e.(direction := direction.value) else e
  }

  /** The setters change their own field and nothing else, and a null argument changes nothing. */
  lemma SettersChangeOneField(e: Entity, p: Option<Position>, d: Option<Direction>)
    ensures WithPosition(e, p).direction == e.direction
    ensures WithDirection(e, d).position == e.position
    ensures WithPosition(e, p) == e <==> p.None? || p.value == e.position
    ensures WithDirection(e, d) == e <==> d.None? || d.value == e.direction
    ensures Make(p, d) == WithDirection(WithPosition(Default(), p), d)
  {
  }

  /** Entity.equals: same coordinates and same direction. */
  function Equals(a: Entity, b: Entity): (r: bool)
    ensures r <==> a == b
  {
    a.position.x == b.position.x && a.position.y == b.position.y && a.direction == b.direction
  }

  /** toString: "x,y,DIRECTION". */
  function ToString(e: Entity): string {
    Positions.ToString(e.position) + "," + Name(e.direction)
  }

  /** The comma fields of the text form. */
  function Fields(e: Entity): seq<string> {
    [IntToString(e.position.x), IntToString(e.position.y), Name(e.direction)]
  }

  lemma ToStringFields(e: Entity)
    ensures ToString(e) == Join(Fields(e), ",")
  {
    var f := Fields(e);
    assert Join(f[2..], ",") == f[2];
    assert Join(f[1..], ",") == f[1] + "," + f[2];
  }

  /** The text form splits at its commas into two numbers and a name that give the entity back. */
  lemma ToStringParses(e: Entity)
    requires InIntRange(e.position.x) && InIntRange(e.position.y)
    ensures var f := Split(ToString(e), ",");
            |f| == 3 && ParseInt(f[0]) == Some(e.position.x) && ParseInt(f[1]) == Some(e.position.y) &&
            ValueOf(f[2]) == Ok(e.direction)
  {
    IntToStringAvoids(e.position.x, ',');
    IntToStringAvoids(e.position.y, ',');
    ToStringFields(e);
    assert Name(e.direction) != "" && Avoids(Name(e.direction), [',']);
    SplitJoin(Fields(e), ',');
    ParseIntToString(e.position.x);
    ParseIntToString(e.position.y);
    ValueOfName(e.direction);
  }
}
