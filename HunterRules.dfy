/**
 * pacman.hunter: what the abstract Hunter and its four kinds Hungry, Phasey,
 * Speedy and Phil do, stated on a value holding a hunter's fields. Each
 * subclass changes one behaviour of the base class (hit, move or
 * isSpecialActive), so the kind is one more field and the functions below
 * dispatch on it.
 */
module HunterRules {
  import opened Wrappers
  import opened Text
  import opened Positions
  import opened Directions
  import opened BoardItems
  import opened Phases
  import opened Entities
  import GhostRules
  import Grids

  /** pacman.hunter.HunterType, which is also the subclass a hunter belongs to. */
  datatype HunterKind = Speedy | Phasey | Hungry | Phil

  /** Everything a hunter holds, as one value. */
  datatype HunterState = HunterState(kind: HunterKind, entity: Entity, dead: bool, used: bool, duration: int)

  /** Hunter.SPECIAL_DURATION. */
  const SpecialDuration := 20

  /** A live hunter whose special is unused and inactive, at (0, 0) facing up. */
  function Initial(kind: HunterKind): HunterState {
    HunterState(kind, Entities.Default(), false, false, 0)
  }

  /** The copy constructor: every field of the original, under a kind of its own. */
  function Copy(kind: HunterKind, original: HunterState): (r: HunterState)
    ensures r.(kind := original.kind) == original
  {
    HunterState(kind, original.entity, original.dead, original.used, original.duration)
  }

  /** The type name toString appends. */
  function TypeName(kind: HunterKind): string {
    match kind
    case Speedy => "SPEEDY"
    case Phasey => "PHASEY"
    case Hungry => "HUNGRY"
    case Phil => "PHIL"
  }

  /** HunterType.valueOf: the kind with exactly this name, or IllegalArgumentException. */
  function KindOf(s: string): (r: Result<HunterKind>)
    ensures r.Ok? ==> TypeName(r.value) == s
    ensures r.Err? ==> r.error == IllegalArgument
  {
    if s == "SPEEDY" then Ok(Speedy)
    else if s == "PHASEY" then Ok(Phasey)
    else if s == "HUNGRY" then Ok(Hungry)
    else if s == "PHIL" then Ok(Phil)
    else Err(IllegalArgument)
  }

  /** valueOf recovers every kind from its name. */
  lemma KindOfTypeName(k: HunterKind)
    ensures KindOf(TypeName(k)) == Ok(k)
  {
  }

  // ---------------------------------------------------------------- the special ability

  /** activateSpecial: only a positive duration, and only once per game. */
  function ActivateSpecial(h: HunterState, duration: int): HunterState {
    if !h.used && duration > 0 then h.(used := true, duration := duration) else h
  }

  /** isSpecialActive: some of the duration is left, except that Phil's special never counts as active. */
  function SpecialActive(h: HunterState): bool {
    h.kind != Phil && h.duration > 0
  }

  /**
   * The special can be activated once: a positive duration activates it and
   * marks it used, and afterwards activating changes nothing, even after the
   * duration has run out.
   */
  lemma ActivateOnce(h: HunterState, d: int, e: int)
    requires !h.used && h.duration == 0
    ensures var a := ActivateSpecial(h, d);
            (d > 0 ==> a.used && a.duration == d && (a.kind != Phil <==> SpecialActive(a))) &&
            (d <= 0 ==> a == h && !SpecialActive(a)) &&
            (a.used ==> forall k :: ActivateSpecial(a.(duration := k), e) == a.(duration := k))
  {
  }

  // ---------------------------------------------------------------- hitting ghosts

  /** Hunter.hit on a ghost: on the same cell a frightened ghost dies, any other kills the hunter. */
  function BaseHit(h: HunterState, g: GhostRules.GhostState): (HunterState, GhostRules.GhostState) {
    if h.entity.position == g.entity.position then
      if g.phase == Frightened then (h, GhostRules.Kill(g)) else (h.(dead := true), g)
    else (h, g)
  }

  /** hit, by kind: Hungry eats any ghost while its special is active; Phasey ignores unfrightened ghosts then. */
  function Hit(h: HunterState, g: GhostRules.GhostState): (HunterState, GhostRules.GhostState) {
    match h.kind
    case Hungry =>
      if h.entity.position == g.entity.position && SpecialActive(h) then (h, GhostRules.Kill(g))
      else BaseHit(h, g)
    case Phasey =>
      if SpecialActive(h) && g.phase != Frightened then (h, g) else BaseHit(h, g)
    case Speedy => BaseHit(h, g)
    case Phil => BaseHit(h, g)
  }

  /**
   * A hit does something only when the two share a cell, and then exactly one
   * of them dies: the ghost when it is frightened or (for Hungry) when the
   * special is active, the hunter otherwise, and nobody when Phasey's active
   * special meets a ghost that is not frightened. Only the dead flags change.
   */
  lemma HitOutcome(h: HunterState, g: GhostRules.GhostState)
    ensures var (h1, g1) := Hit(h, g);
            h1.(dead := h.dead) == h && g1.(dead := g.dead) == g &&
            (h.entity.position != g.entity.position ==> h1 == h && g1 == g) &&
            (h.entity.position == g.entity.position ==>
               var spares := h.kind == Phasey && SpecialActive(h) && g.phase != Frightened;
               var eats := g.phase == Frightened || (h.kind == Hungry && SpecialActive(h));
               (spares ==> h1 == h && g1 == g) &&
               (!spares && eats ==> h1 == h && g1.dead) &&
               (!spares && !eats ==> h1.dead && g1 == g))
  {
  }

  /** With its special active, neither a Hungry nor a Phasey hunter can be killed by a hit. */
  lemma SpecialProtects(h: HunterState, g: GhostRules.GhostState)
    requires (h.kind == Hungry || h.kind == Phasey) && SpecialActive(h)
    ensures Hit(h, g).0 == h
  {
  }

  // ---------------------------------------------------------------- moving

  /** increaseScore: only a positive amount is added. */
  function IncreaseScore(score: int, additional: int): (r: int)
    ensures r >= score
  {
    if additional > 0 then score + additional else score
  }

  /** The cell one step ahead of the hunter. */
  function Ahead(h: HunterState): Position {
    Add(h.entity.position, Offset(h.entity.direction))
  }

  /** Whether the hunter can step forward: the cell ahead is on the board and pathable. */
  predicate CanStep(h: HunterState, g: Grids.Grid)
    requires Grids.WellFormed(g)
  {
    var q := Ahead(h);
    Grids.InBounds(g, q) && Pathable(g.cells[q.y][q.x])
  }

  /** One Hunter.move: a hunter, a board and a score. */
  datatype World = World(hunter: HunterState, board: Grids.Grid, score: int)

  predicate WorldOk(w: World) {
    Grids.WellFormed(w.board)
  }

  /**
   * Hunter.move: step onto the cell ahead when it can, eat what is there and
   * score what was there; in any case one tick off a running special.
   */
  function Step(w: World): (r: World)
    requires WorldOk(w)
    ensures WorldOk(r) && r.board.width == w.board.width && r.board.height == w.board.height
  {
    var h := w.hunter;
    var tick := if h.duration > 0 then h.duration - 1 else h.duration;
    if CanStep(h, w.board) then
      var q := Ahead(h);
      var item := w.board.cells[q.y][q.x];
      var eaten := Grids.Eat(w.board, q).value;
      World(h.(entity := h.entity.(position := q), duration := tick), eaten.0,
            IncreaseScore(w.score, BoardItems.Score(item)))
    else World(h.(duration := tick), w.board, w.score)
  }

  /** move, by kind: a Speedy hunter takes a second step when its special is still active after the first. */
  function Move(w: World): (r: World)
    requires WorldOk(w)
    ensures WorldOk(r)
  {
    var w1 := Step(w);
    if w.hunter.kind == Speedy && SpecialActive(w1.hunter) then Step(w1) else w1
  }

  /**
   * A step moves the hunter one cell forward when it can and leaves it in
   * place otherwise; it never turns it, kills it or uses its special; it ticks
   * a running special down by one; it adds to the score exactly the value of
   * the item stepped on; and it changes the board at most at the new cell,
   * where no dot is left.
   */
  lemma StepEffect(w: World)
    requires WorldOk(w)
    ensures var r := Step(w);
            var h := w.hunter;
            r.hunter.kind == h.kind && r.hunter.entity.direction == h.entity.direction &&
            r.hunter.dead == h.dead && r.hunter.used == h.used &&
            r.hunter.duration == (if h.duration > 0 then h.duration - 1 else h.duration) &&
            (CanStep(h, w.board) ==>
               var q := Ahead(h);
               r.hunter.entity.position == q &&
               r.score == w.score + BoardItems.Score(w.board.cells[q.y][q.x]) &&
               r.board.cells[q.y][q.x] != Dot && r.board.cells[q.y][q.x] != BigDot &&
               (forall y, x :: 0 <= y < w.board.height && 0 <= x < w.board.width && !(x == q.x && y == q.y) ==>
                  r.board.cells[y][x] == w.board.cells[y][x])) &&
            (!CanStep(h, w.board) ==> r.hunter.entity.position == h.entity.position &&
                                      r.board == w.board && r.score == w.score)
  {
    if CanStep(w.hunter, w.board) {
      var q := Ahead(w.hunter);
      Grids.EatEffect(w.board, q);
      ScoredItems(w.board.cells[q.y][q.x]);
    }
  }

  /** Stepping keeps a board's spawns unique and never lowers the score. */
  lemma StepKeeps(w: World)
    requires WorldOk(w)
    ensures Step(w).score >= w.score
    ensures Grids.SpawnsUnique(w.board) ==> Grids.SpawnsUnique(Step(w).board)
  {
    if CanStep(w.hunter, w.board) {
      Grids.EatEffect(w.board, Ahead(w.hunter));
    }
  }

  /**
   * A Speedy hunter with at least two ticks of special left takes two steps,
   * with one tick left it takes one and ends the special; every other hunter,
   * and a Speedy one without its special, takes exactly one step.
   */
  lemma SpeedySteps(w: World)
    requires WorldOk(w)
    ensures w.hunter.kind == Speedy && w.hunter.duration >= 2 ==> Move(w) == Step(Step(w))
    ensures w.hunter.kind == Speedy && w.hunter.duration == 1 ==>
              Move(w) == Step(w) && !SpecialActive(Move(w).hunter)
    ensures w.hunter.kind != Speedy || w.hunter.duration <= 0 ==> Move(w) == Step(w)
  {
    StepEffect(w);
  }

  /** The special counts down by one a move, two for a Speedy hunter that steps twice. */
  lemma MoveTicks(w: World)
    requires WorldOk(w) && w.hunter.duration >= 0
    ensures var d := w.hunter.duration;
            Move(w).hunter.duration ==
              if w.hunter.kind == Speedy && d >= 2 then d - 2 else if d > 0 then d - 1 else 0
  {
    StepEffect(w);
    if w.hunter.kind == Speedy && w.hunter.duration >= 2 {
      StepEffect(Step(w));
    }
  }

  // ---------------------------------------------------------------- the rest

  /** reset: alive, special unused and inactive, at (0, 0) facing up. */
  function Reset(h: HunterState): (r: HunterState)
    ensures r == Initial(h.kind)
  {
    h.(dead := false, used := false, duration := 0, entity := Entity(Position(0, 0), Up))
  }

  /** Hunter.equals: same entity, dead flag, duration and used flag; the kind is not compared. */
  function Equals(a: HunterState, b: HunterState): (r: bool)
    ensures r <==> a.(kind := b.kind) == b
  {
    Entities.Equals(a.entity, b.entity) && a.dead == b.dead && a.duration == b.duration && a.used == b.used
  }

  /** toString: "x,y,DIRECTION,duration,TYPE". */
  function ToString(h: HunterState): string {
    Entities.ToString(h.entity) + "," + IntToString(h.duration) + "," + TypeName(h.kind)
  }

  /** The text form's comma fields. */
  function Fields(h: HunterState): seq<string> {
    Entities.Fields(h.entity) + [IntToString(h.duration), TypeName(h.kind)]
  }

  lemma FieldsJoined(h: HunterState)
    ensures ToString(h) == Join(Fields(h), ",")
  {
    var e := Entities.Fields(h.entity);
    var d := IntToString(h.duration);
    Entities.ToStringFields(h.entity);
    JoinSnoc(e, d, ",");
    JoinSnoc(e + [d], TypeName(h.kind), ",");
    assert Fields(h) == e + [d] + [TypeName(h.kind)];
  }

  lemma FieldsAvoidComma(h: HunterState)
    requires InIntRange(h.entity.position.x) && InIntRange(h.entity.position.y) && InIntRange(h.duration)
    ensures var f := Fields(h);
            |f| == 5 && f[4] != "" && forall k :: 0 <= k < |f| ==> Avoids(f[k], [','])
  {
    IntToStringAvoids(h.entity.position.x, ',');
    IntToStringAvoids(h.entity.position.y, ',');
    IntToStringAvoids(h.duration, ',');
    assert Avoids(Directions.Name(h.entity.direction), [',']);
    assert TypeName(h.kind) != "" && Avoids(TypeName(h.kind), [',']);
  }

  /** The text form splits into five fields: the entity's three, the duration and the type name. */
  lemma ToStringParses(h: HunterState)
    requires InIntRange(h.entity.position.x) && InIntRange(h.entity.position.y) && InIntRange(h.duration)
    ensures Split(ToString(h), ",") == Fields(h)
    ensures ParseInt(Fields(h)[3]) == Some(h.duration)
  {
    FieldsJoined(h);
    FieldsAvoidComma(h);
    SplitJoin(Fields(h), ',');
    ParseIntToString(h.duration);
  }
}
