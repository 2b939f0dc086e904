/**
 * pacman.ghost: what the abstract Ghost and its four kinds Blinky, Inky, Pinky
 * and Clyde do, stated on a value that holds a ghost's fields. The subclasses
 * differ only in their colour, their type and the two targets they aim for, so
 * the kind is one more field and the targets are functions that match on it.
 */
module GhostRules {
  import opened Wrappers
  import opened Text
  import opened Positions
  import opened Directions
  import opened BoardItems
  import opened Phases
  import opened Entities
  import Grids

  /** pacman.ghost.GhostType, which is also the subclass a ghost belongs to. */
  datatype GhostKind = Blinky | Clyde | Inky | Pinky

  /** Everything a ghost holds, as one value. */
  datatype GhostState = GhostState(kind: GhostKind, entity: Entity, phase: Phase, duration: int, dead: bool)

  /** A live ghost at (0, 0) facing up, scattering for Phase.SCATTER's duration. */
  function Initial(kind: GhostKind): GhostState {
    GhostState(kind, Entities.Default(), Scatter, Duration(Scatter), false)
  }

  /** Durations are never negative. */
  predicate Sane(s: GhostState) {
    s.duration >= 0
  }

  /** The colour getColour returns. */
  function Colour(kind: GhostKind): string {
    match kind
    case Blinky => "#d54e53"
    case Clyde => "#e78c45"
    case Inky => "#7aa6da"
    case Pinky => "#c397d8"
  }

  /** The type name, as GhostType's toString gives it. */
  function TypeName(kind: GhostKind): string {
    match kind
    case Blinky => "BLINKY"
    case Clyde => "CLYDE"
    case Inky => "INKY"
    case Pinky => "PINKY"
  }

  /** Every kind of ghost has its own colour and its own type name. */
  lemma KindsDistinguishable(a: GhostKind, b: GhostKind)
    ensures Colour(a) == Colour(b) <==> a == b
    ensures TypeName(a) == TypeName(b) <==> a == b
  {
  }

  // ---------------------------------------------------------------- phases

  /** setPhase: a null phase keeps the current one, a negative duration becomes 0. */
  function SetPhase(s: GhostState, phase: Option<Phase>, duration: int): (r: GhostState)
    ensures Sane(r)
    ensures r.phase == (if phase.Some? then phase.value else s.phase)
    ensures r.duration == (if duration >= 0 then duration else 0)
    ensures r.(phase := s.phase, duration := s.duration) == s
  {
    s.(phase := if phase.Some? then phase.value else s.phase,
       duration := if duration >= 0 then duration else 0)
  }

  /**
   * nextPhase: one tick off the duration, clamped at 0; a phase that runs out
   * hands over to the next one at its full duration.
   */
  function NextPhase(s: GhostState): GhostState {
    var d := if s.duration - 1 > 0 then s.duration - 1 else 0;
    if d == 0 then
      match s.phase
      case Chase => s.(phase := Scatter, duration := Duration(Scatter))
      case Frightened => s.(phase := Chase, duration := Duration(Chase))
      case Scatter => s.(phase := Chase, duration := Duration(Chase))
    else s.(duration := d)
  }

  /**
   * A phase with more than one tick left keeps going one tick shorter; one
   * with at most one tick left ends, chase giving way to scatter and the other
   * two to chase. Either way the duration afterwards is positive.
   */
  lemma NextPhaseCycle(s: GhostState)
    ensures var r := NextPhase(s);
            r.kind == s.kind && r.entity == s.entity && r.dead == s.dead && r.duration >= 1 &&
            (s.duration >= 2 ==> r.phase == s.phase && r.duration == s.duration - 1) &&
            (s.duration <= 1 ==> r.phase == (if s.phase == Chase then Scatter else Chase) &&
                                 r.duration == Duration(r.phase))
  {
  }

  /** A ghost left alone moves from scatter to chase after exactly ten ticks. */
  lemma ScatterLastsTen(s: GhostState, k: nat)
    requires s.phase == Scatter && s.duration == Duration(Scatter) && 1 <= k <= Duration(Scatter)
    ensures Iterate(s, k).phase == (if k < Duration(Scatter) then Scatter else Chase)
    ensures Iterate(s, k).duration == (if k < Duration(Scatter) then Duration(Scatter) - k else Duration(Chase))
  {
    IterateScatter(s, k);
  }

  /** k ticks of nextPhase. */
  function Iterate(s: GhostState, k: nat): GhostState
    decreases k
  {
    if k == 0 then s else NextPhase(Iterate(s, k - 1))
  }

  lemma {:induction false} IterateScatter(s: GhostState, k: nat)
    requires s.phase == Scatter && s.duration == Duration(Scatter) && k <= Duration(Scatter)
    ensures Iterate(s, k).phase == (if k < Duration(Scatter) then Scatter else Chase)
    ensures Iterate(s, k).duration == (if k < Duration(Scatter) then Duration(Scatter) - k else Duration(Chase))
  {
    if k > 0 {
      IterateScatter(s, k - 1);
    }
  }

  /** kill: only the dead flag changes. */
  function Kill(s: GhostState): GhostState {
    s.(dead := true)
  }

  /** reset: alive, scattering for the full duration, at (0, 0) facing up. */
  function Reset(s: GhostState): (r: GhostState)
    ensures r == Initial(s.kind)
  {
    s.(dead := false, duration := Duration(Scatter), phase := Scatter, entity := Entity(Position(0, 0), Up))
  }

  /** phaseInfo: "PHASE:duration". */
  function PhaseInfo(s: GhostState): string {
    Phases.Name(s.phase) + ":" + IntToString(s.duration)
  }

  /** toString: "x,y,DIRECTION,PHASE:duration". */
  function ToString(s: GhostState): string {
    Entities.ToString(s.entity) + "," + PhaseInfo(s)
  }

  /** The phase information splits at its colon back into the phase and the duration. */
  lemma PhaseInfoParses(s: GhostState)
    requires InIntRange(s.duration)
    ensures var f := Split(PhaseInfo(s), ":");
            |f| == 2 && Phases.ValueOf(f[0]) == Ok(s.phase) && ParseInt(f[1]) == Some(s.duration)
  {
    var name := Phases.Name(s.phase);
    assert name != "" && Avoids(name, [':']);
    IntToStringAvoids(s.duration, ':');
    assert PhaseInfo(s) == Join([name, IntToString(s.duration)], [':']);
    SplitJoin([name, IntToString(s.duration)], ':');
    Phases.ValueOfName(s.phase);
    ParseIntToString(s.duration);
  }
  /** The text form splits at its commas into the entity's three fields and the phase information. */
  lemma ToStringParses(s: GhostState)
    requires InIntRange(s.entity.position.x) && InIntRange(s.entity.position.y) && InIntRange(s.duration)
    ensures Split(ToString(s), ",") == Entities.Fields(s.entity) + [PhaseInfo(s)]
  {
    var f := Entities.Fields(s.entity) + [PhaseInfo(s)];
    Entities.ToStringFields(s.entity);
    JoinSnoc(Entities.Fields(s.entity), PhaseInfo(s), ",");
    IntToStringAvoids(s.entity.position.x, ',');
    IntToStringAvoids(s.entity.position.y, ',');
    IntToStringAvoids(s.duration, ',');
    var name := Phases.Name(s.phase);
    assert name != "" && Avoids(name, [',']);
    assert Avoids(Directions.Name(s.entity.direction), [',']);
    assert PhaseInfo(s) == name + (":" + IntToString(s.duration));
    assert Avoids(PhaseInfo(s), [',']);
    SplitJoin(f, ',');
  }


  /** Ghost.equals: same entity, alive/dead status, duration and phase; the kind is not compared. */
  function Equals(a: GhostState, b: GhostState): (r: bool)
    ensures r <==> a.(kind := b.kind) == b
  {
    Entities.Equals(a.entity, b.entity) && a.dead == b.dead && a.duration == b.duration && a.phase == b.phase
  }

  // ---------------------------------------------------------------- targets

  /** The Java remainder of a non-negative divisor, which takes the sign of the dividend. */
  function JavaRem(a: int, b: int): (r: int)
    requires b > 0
    ensures -b < r < b
    ensures a >= 0 ==> 0 <= r
    ensures a <= 0 ==> r <= 0
    ensures a >= 0 ==> r == a % b
  {
    if a >= 0 then a % b else -((-a) % b)
  }

  /** frightenedPosition: (x*24 rem 2w) - w and (y*36 rem 2h) - h. */
  function FrightenedPosition(p: Position, width: int, height: int): (r: Position)
    requires width >= 1 && height >= 1
    ensures -3 * width < r.x < width && -3 * height < r.y < height
  {
    Position(JavaRem(p.x * 24, 2 * width) - width, JavaRem(p.y * 36, 2 * height) - height)
  }

  /** A ghost on the board runs for a point in the board's upper-left quadrant or above and left of it. */
  lemma FrightenedOnBoard(p: Position, width: int, height: int)
    requires width >= 1 && height >= 1 && 0 <= p.x && 0 <= p.y
    ensures var r := FrightenedPosition(p, width, height);
            -width <= r.x < width && -height <= r.y < height
  {
  }

  /** chaseTarget, per kind of ghost. */
  function ChaseTarget(s: GhostState, hunter: Entity, width: int, height: int): Position {
    match s.kind
    case Blinky =>
      if s.phase == Chase then hunter.position else s.entity.position
    case Inky =>
      if s.phase == Chase then
        match hunter.direction
        case Up => Position(hunter.position.x, hunter.position.y + 2)
        case Down => Position(hunter.position.x, hunter.position.y - 2)
        case Right => Position(hunter.position.x - 2, hunter.position.y)
        case Left => Position(hunter.position.x + 2, hunter.position.y)
      else s.entity.position
    case Pinky =>
      if s.phase == Chase then
        match hunter.direction
        case Up => Position(hunter.position.x, hunter.position.y - 4)
        case Down => Position(hunter.position.x, hunter.position.y + 4)
        case Right => Position(hunter.position.x + 4, hunter.position.y)
        case Left => Position(hunter.position.x - 4, hunter.position.y)
      else s.entity.position
    case Clyde =>
      // distance >= 8 is squared distance >= 64
      if DistanceSq(s.entity.position, hunter.position) >= 64 then hunter.position
      else Home(s, width, height)
  }

  /** home, per kind of ghost: one cell outside a corner of the board. */
  function Home(s: GhostState, width: int, height: int): Position {
    match s.kind
    case Blinky => if s.phase == Scatter then Position(width, -1) else s.entity.position
    case Inky => if s.phase == Scatter then Position(width, height) else s.entity.position
    case Pinky => if s.phase == Scatter then Position(-1, -1) else s.entity.position
    case Clyde => Position(-1, height)
  }

  /** getTarget: the chase target, the home corner or the frightened point, by phase. */
  function Target(s: GhostState, hunter: Entity, width: int, height: int): Position
    requires width >= 1 && height >= 1
  {
    match s.phase
    case Chase => ChaseTarget(s, hunter, width, height)
    case Scatter => Home(s, width, height)
    case Frightened => FrightenedPosition(s.entity.position, width, height)
  }

  /**
   * What each kind aims for while chasing: Blinky the hunter itself, Pinky
   * four cells ahead of the hunter, Inky two cells behind it, and Clyde the
   * hunter only from at least eight cells away, its home corner otherwise.
   */
  lemma ChaseTargets(s: GhostState, hunter: Entity, width: int, height: int)
    requires width >= 1 && height >= 1 && s.phase == Chase
    ensures var t := Target(s, hunter, width, height);
            var ahead := Offset(hunter.direction);
            match s.kind
            case Blinky => t == hunter.position
            case Pinky => t == Add(hunter.position, Multiply(ahead, 4))
            case Inky => t == Add(hunter.position, Multiply(ahead, -2))
            case Clyde => t == (if DistanceSq(s.entity.position, hunter.position) >= 64 then hunter.position
                                else Position(-1, height))
  {
  }

  /**
   * Called directly, Blinky's, Inky's and Pinky's chaseTarget is the ghost's
   * own cell outside the chase phase, and their home is that cell outside the
   * scatter phase. Clyde ignores the phase: its home is always the cell below
   * the bottom-left corner, and its chase target is the hunter or that home.
   */
  lemma OffPhaseTargets(s: GhostState, hunter: Entity, width: int, height: int)
    ensures s.kind != Clyde && s.phase != Chase ==> ChaseTarget(s, hunter, width, height) == s.entity.position
    ensures s.kind != Clyde && s.phase != Scatter ==> Home(s, width, height) == s.entity.position
    ensures s.kind == Clyde ==> Home(s, width, height) == Position(-1, height)
    ensures s.kind == Clyde ==> ChaseTarget(s, hunter, width, height) in {hunter.position, Position(-1, height)}
  {
  }

  /**
   * Scattering ghosts head for their own corner outside the board: Blinky top
   * right, Inky bottom right, Pinky top left, Clyde bottom left; the four
   * corners are different.
   */
  lemma ScatterTargets(s: GhostState, hunter: Entity, width: int, height: int)
    requires width >= 1 && height >= 1 && s.phase == Scatter
    ensures var t := Target(s, hunter, width, height);
            t == ScatterCorner(s.kind, width, height) && !Grids.InBounds(Grids.Grid(width, height, []), t)
    ensures forall k :: ScatterCorner(k, width, height) == ScatterCorner(s.kind, width, height) ==> k == s.kind
  {
  }

  function ScatterCorner(kind: GhostKind, width: int, height: int): Position {
    match kind
    case Blinky => Position(width, -1)
    case Inky => Position(width, height)
    case Pinky => Position(-1, -1)
    case Clyde => Position(-1, height)
  }

  // ---------------------------------------------------------------- choosing a move

  /** The order setMovePosition tries directions in; a later one wins a tie. */
  const ScanOrder: seq<Direction> := [Right, Down, Left, Up]

  /** Where a direction stands in ScanOrder. */
  function Rank(d: Direction): (r: nat)
    ensures r < 4 && ScanOrder[r] == d
  {
    match d
    case Right => 0
    case Down => 1
    case Left => 2
    case Up => 3
  }

  /** The choice so far: a direction, the cell it leads to and the distance to beat (squared). */
  datatype Choice = Choice(direction: Direction, position: Position, bestSq: int)

  /** The distance the search starts from: max(width, height), squared. */
  function InitialBestSq(g: Grids.Grid): nat {
    var m := if g.width >= g.height then g.width else g.height;
    m * m
  }

  /**
   * The test a direction must pass to replace the choice: the step is no
   * further from the target than the distance to beat, lands on a pathable
   * cell of the board, and does not reverse the ghost.
   */
  predicate Candidate(g: Grids.Grid, e: Entity, target: Position, bestSq: int, d: Direction)
    requires Grids.WellFormed(g)
  {
    var q := Add(e.position, Offset(d));
    DistanceSq(q, target) <= bestSq && Grids.InBounds(g, q) && Pathable(g.cells[q.y][q.x]) &&
    d != Opposite(e.direction)
  }

  /** One turn of the loop. */
  function Consider(g: Grids.Grid, e: Entity, target: Position, c: Choice, d: Direction): Choice
    requires Grids.WellFormed(g)
  {
    var q := Add(e.position, Offset(d));
    if Candidate(g, e, target, c.bestSq, d) then Choice(d, q, DistanceSq(q, target)) else c
  }

  /** The choice after the first i directions of ScanOrder. */
  function ScanPrefix(g: Grids.Grid, e: Entity, target: Position, i: nat): Choice
    requires Grids.WellFormed(g) && i <= 4
  {
    if i == 0 then Choice(e.direction, e.position, InitialBestSq(g))
    else Consider(g, e, target, ScanPrefix(g, e, target, i - 1), ScanOrder[i - 1])
  }

  /** setMovePosition's result on the entity. */
  function ChooseMove(g: Grids.Grid, e: Entity, target: Position): Entity
    requires Grids.WellFormed(g)
  {
    var c := ScanPrefix(g, e, target, 4);
    Entity(c.position, c.direction)
  }

  /** A direction the ghost may take at all: Candidate against the initial distance. */
  predicate Allowed(g: Grids.Grid, e: Entity, target: Position, d: Direction)
    requires Grids.WellFormed(g)
  {
    Candidate(g, e, target, InitialBestSq(g), d)
  }

  /** The step in direction d from the ghost's cell. */
  function StepTo(e: Entity, d: Direction): Position {
    Add(e.position, Offset(d))
  }

  /**
   * What the choice holds after the directions of ScanOrder before index i:
   * nothing changed while none of them was allowed; otherwise the latest
   * allowed one closest to the target, with its distance as the one to beat.
   */
  predicate Scanned(g: Grids.Grid, e: Entity, target: Position, i: nat, c: Choice)
    requires Grids.WellFormed(g) && i <= 4
  {
    var seen := exists d :: Rank(d) < i && Allowed(g, e, target, d);
    (!seen ==> c == Choice(e.direction, e.position, InitialBestSq(g))) &&
    (seen ==> Rank(c.direction) < i && Allowed(g, e, target, c.direction) &&
              c.position == StepTo(e, c.direction) && c.bestSq == DistanceSq(c.position, target) &&
              forall d :: Rank(d) < i && Allowed(g, e, target, d) ==>
                c.bestSq <= DistanceSq(StepTo(e, d), target) &&
                (Rank(d) > Rank(c.direction) ==> c.bestSq < DistanceSq(StepTo(e, d), target)))
  }

  /** One turn of the loop keeps Scanned. */
  lemma ConsiderScanned(g: Grids.Grid, e: Entity, target: Position, i: nat, c: Choice)
    requires Grids.WellFormed(g) && i < 4 && Scanned(g, e, target, i, c)
    ensures Scanned(g, e, target, i + 1, Consider(g, e, target, c, ScanOrder[i]))
  {
    var d := ScanOrder[i];
    assert Rank(d) == i;
    var seen := exists d' :: Rank(d') < i && Allowed(g, e, target, d');
    if seen {
      // a direction with a distance no worse than the best is allowed, and conversely
      assert c.bestSq <= InitialBestSq(g);
      assert Candidate(g, e, target, c.bestSq, d) <==>
             Allowed(g, e, target, d) && DistanceSq(StepTo(e, d), target) <= c.bestSq;
    } else {
      assert c.bestSq == InitialBestSq(g);
    }
    forall d' | Rank(d') < i + 1
      ensures Rank(d') < i || d' == d
    {
    }
  }

  lemma {:induction false} ScanPrefixScanned(g: Grids.Grid, e: Entity, target: Position, i: nat)
    requires Grids.WellFormed(g) && i <= 4
    ensures Scanned(g, e, target, i, ScanPrefix(g, e, target, i))
  {
    if i > 0 {
      ScanPrefixScanned(g, e, target, i - 1);
      ConsiderScanned(g, e, target, i - 1, ScanPrefix(g, e, target, i - 1));
    }
  }

  /**
   * setMovePosition's promise. With no allowed direction the ghost stays
   * where it is, facing the same way. Otherwise it takes one step in an
   * allowed direction that gets closest to the target, and of several that do
   * it takes the one latest in ScanOrder (up, then left, then down, then right).
   */
  lemma ChooseMoveBest(g: Grids.Grid, e: Entity, target: Position)
    requires Grids.WellFormed(g)
    ensures var r := ChooseMove(g, e, target);
            (forall d :: !Allowed(g, e, target, d)) <==> r == e
    ensures var r := ChooseMove(g, e, target);
            r != e ==> Allowed(g, e, target, r.direction) && r.position == Add(e.position, Offset(r.direction))
    ensures var r := ChooseMove(g, e, target);
            r != e ==> forall d :: Allowed(g, e, target, d) ==>
              DistanceSq(r.position, target) <= DistanceSq(Add(e.position, Offset(d)), target) &&
              (Rank(d) > Rank(r.direction) ==>
                 DistanceSq(r.position, target) < DistanceSq(Add(e.position, Offset(d)), target))
  {
    ScanPrefixScanned(g, e, target, 4);
    forall d | true
      ensures !Allowed(g, e, target, d) || Add(e.position, Offset(d)) != e.position
    {
    }
  }

  /** A ghost's step, when it takes one, is a single pathable cell of the board away. */
  lemma ChooseMoveStep(g: Grids.Grid, e: Entity, target: Position)
    requires Grids.WellFormed(g)
    ensures var r := ChooseMove(g, e, target);
            r == e || (Grids.InBounds(g, r.position) && Pathable(g.cells[r.position.y][r.position.x]) &&
                       DistanceSq(r.position, e.position) == 1 && r.direction != Opposite(e.direction))
  {
    ChooseMoveBest(g, e, target);
    var r := ChooseMove(g, e, target);
    if r != e {
      StepIsUnit(e.position, r.direction);
    }
  }

  /** move: nextPhase, then a step towards the target of the phase it leaves the ghost in. */
  function Move(s: GhostState, hunter: Entity, g: Grids.Grid): GhostState
    requires Grids.WellFormed(g)
  {
    var s1 := NextPhase(s);
    s1.(entity := ChooseMove(g, s1.entity, Target(s1, hunter, g.width, g.height)))
  }

  /** A move changes only the entity and the phase information, and keeps durations sane. */
  lemma MoveKeeps(s: GhostState, hunter: Entity, g: Grids.Grid)
    requires Grids.WellFormed(g)
    ensures var r := Move(s, hunter, g);
            r.kind == s.kind && r.dead == s.dead && r.duration >= 1 &&
            r.(entity := s.entity) == NextPhase(s)
  {
    NextPhaseCycle(s);
  }
}
