/**
 * The Ghost class: the fields pacman.ghost.Ghost updates in place, with each
 * method proved against the function of GhostRules that states its effect.
 *
 * A ghost's move reads the game's board and hunter. The model passes the
 * hunter's entity as a value and the board as the PacmanBoard object, whose
 * entries the move looks up one at a time as the Java loop does.
 */
module Ghosts {
  import opened Wrappers
  import opened Positions
  import opened Directions
  import opened BoardItems
  import opened Phases
  import opened Entities
  import opened GhostRules
  import Boards

  class Ghost {
    const kind: GhostKind
    var entity: Entity
    var phase: Phase
    var duration: int
    var dead: bool

    function Model(): GhostState
      reads this
    {
      GhostState(kind, entity, phase, duration, dead)
    }

    ghost predicate Valid()
      reads this
    {
      Sane(Model())
    }

    /** new Blinky() and its siblings: alive, scattering, at (0, 0) facing up. */
    constructor (k: GhostKind)
      ensures Valid() && Model() == Initial(k)
    {
      kind := k;
      entity := Entities.Default();
      duration := Duration(Scatter);
      phase := Scatter;
      dead := false;
    }

    /** A new ghost of kind k moved to a spawn, as the game's constructor places each of its four. */
    constructor Spawned(k: GhostKind, spawn: Option<Position>)
      ensures Valid() && Model() == Initial(k).(entity := WithPosition(Initial(k).entity, spawn))
    {
      kind := k;
      entity := WithPosition(Entities.Default(), spawn);
      duration := Duration(Scatter);
      phase := Scatter;
      dead := false;
    }

    method SetPosition(p: Option<Position>)
      modifies this
      ensures Model() == old(Model()).(entity := WithPosition(old(entity), p))
    {
      if p.Some? {
        entity := entity.(position := p.value);
      }
    }

    method SetDirection(d: Option<Direction>)
      modifies this
      ensures Model() == old(Model()).(entity := WithDirection(old(entity), d))
    {
      if d.Some? {
        entity := entity.(direction := d.value);
      }
    }

    method SetPhase(p: Option<Phase>, d: int)
      modifies this
      ensures Valid()
      ensures Model() == GhostRules.SetPhase(old(Model()), p, d)
    {
      if p.Some? {
        phase := p.value;
      }
      if d >= 0 {
        duration := d;
      } else {
        duration := 0;
      }
    }

    method NextPhase()
      modifies this
      ensures Valid()
      ensures Model() == GhostRules.NextPhase(old(Model()))
    {
      duration := if duration - 1 > 0 then duration - 1 else 0;
      if duration == 0 {
        match phase
        case Chase => SetPhase(Some(Scatter), Duration(Scatter));
        case Frightened => SetPhase(Some(Chase), Duration(Chase));
        case Scatter => SetPhase(Some(Chase), Duration(Chase));
      }
    }

    method Kill()
      modifies this
      ensures Model() == GhostRules.Kill(old(Model()))
    {
      dead := true;
    }

    method Reset()
      modifies this
      ensures Valid()
      ensures Model() == GhostRules.Reset(old(Model()))
    {
      dead := false;
      duration := Duration(Scatter);
      phase := Scatter;
      SetPosition(Some(Position(0, 0)));
      SetDirection(Some(Up));
    }

    /** setMovePosition: the loop over ScanOrder, reading the board one entry at a time. */
    method SetMovePosition(hunter: Entity, board: Boards.PacmanBoard)
      requires board.Valid()
      modifies this
      ensures Model() == old(Model()).(entity := ChooseMove(board.Model(), old(entity),
                                         Target(old(Model()), hunter, board.width, board.height)))
    {
      var g := board.Model();
      var e := entity;
      var target := Target(Model(), hunter, board.width, board.height);
      var chosenDirection := e.direction;
      var chosenPosition := e.position;
      var m := if board.width >= board.height then board.width else board.height;
      var smallest := m * m;
      for i := 0 to 4
        modifies {}
        invariant ScanPrefix(g, e, target, i) == Choice(chosenDirection, chosenPosition, smallest)
      {
        var d := ScanOrder[i];
        var newPosition := Add(e.position, Offset(d));
        var item := board.GetEntry(newPosition);
        if DistanceSq(newPosition, target) <= smallest && item.Ok? && Pathable(item.value) &&
           d != Opposite(e.direction) {
          smallest := DistanceSq(newPosition, target);
          chosenDirection := d;
          chosenPosition := newPosition;
        }
      }
      SetDirection(Some(chosenDirection));
      SetPosition(Some(chosenPosition));
    }

    /** move: nextPhase, then setMovePosition. */
    method Move(hunter: Entity, board: Boards.PacmanBoard)
      requires board.Valid()
      modifies this
      ensures Valid()
      ensures Model() == GhostRules.Move(old(Model()), hunter, board.Model())
    {
      NextPhase();
      SetMovePosition(hunter, board);
    }
  }
}
