/**
 * pacman.game.PacmanGame stated on values: the whole game as one GameState
 * and each of its operations as a function on it. Module Games proves the
 * PacmanGame class against these functions.
 */
module GameRules {
  import opened Wrappers
  import opened Positions
  import opened Directions
  import opened BoardItems
  import opened Phases
  import opened Entities
  import opened Scores
  import Grids
  import GhostRules
  import HunterRules

  /** The ghost list's slots, in order. */
  const Slots: seq<GhostRules.GhostKind> := [GhostRules.Blinky, GhostRules.Inky, GhostRules.Pinky, GhostRules.Clyde]

  /** A new game's lives. */
  const StartLives := 4

  /** What eating a ghost scores. */
  const GhostBounty := 200

  /** Everything a game holds; title and author are None where the Java field is null. */
  datatype GameState = GameState(
    title: Option<string>, author: Option<string>,
    hunter: HunterRules.HunterState, ghosts: seq<GhostRules.GhostState>, board: Grids.Grid,
    score: int, table: seq<Entry>,
    tick: int, lives: int, level: int)

  /** Four ghosts and a well-formed board. */
  predicate Sane(s: GameState) {
    Grids.WellFormed(s.board) && |s.ghosts| == 4
  }

  /** A ghost moved to a spawn, when the board has one (setPosition ignores null). */
  function PlaceGhost(g: GhostRules.GhostState, p: Option<Position>): GhostRules.GhostState {
    g.(entity := WithPosition(g.entity, p))
  }

  /** A hunter moved to a spawn, when the board has one. */
  function PlaceHunter(h: HunterRules.HunterState, p: Option<Position>): HunterRules.HunterState {
    h.(entity := WithPosition(h.entity, p))
  }

  /** A ghost reset and put on the board's ghost spawn. */
  function Respawn(g: GhostRules.GhostState, board: Grids.Grid): GhostRules.GhostState
    requires Grids.WellFormed(board)
  {
    PlaceGhost(GhostRules.Reset(g), Grids.FirstMatch(board, GhostSpawn))
  }

  /** resetAllGhosts. */
  function ResetGhosts(ghosts: seq<GhostRules.GhostState>, board: Grids.Grid): (r: seq<GhostRules.GhostState>)
    requires Grids.WellFormed(board)
    ensures |r| == |ghosts|
  {
    seq(|ghosts|, i requires 0 <= i < |ghosts| => Respawn(ghosts[i], board))
  }

  /** resetHunter. */
  function ResetHunter(h: HunterRules.HunterState, board: Grids.Grid): HunterRules.HunterState
    requires Grids.WellFormed(board)
  {
    PlaceHunter(HunterRules.Reset(h), Grids.FirstMatch(board, PacmanSpawn))
  }

  /** The constructor: a fresh ghost of each kind at the ghost spawn, an empty score board, no ticks yet. */
  function NewGame(title: Option<string>, author: Option<string>, hunter: HunterRules.HunterState,
                   board: Grids.Grid): (r: GameState)
    requires Grids.WellFormed(board)
    ensures Sane(r)
  {
    var spawn := Grids.FirstMatch(board, GhostSpawn);
    GameState(title, author, hunter,
              [PlaceGhost(GhostRules.Initial(GhostRules.Blinky), spawn),
               PlaceGhost(GhostRules.Initial(GhostRules.Inky), spawn),
               PlaceGhost(GhostRules.Initial(GhostRules.Pinky), spawn),
               PlaceGhost(GhostRules.Initial(GhostRules.Clyde), spawn)],
              board, 0, [], 0, StartLives, 0)
  }

  /** A new game's ghosts are alive and scattering, one of each kind in slot order, at the spawn or else at (0, 0). */
  lemma NewGameGhosts(title: Option<string>, author: Option<string>, hunter: HunterRules.HunterState,
                      board: Grids.Grid, i: int)
    requires Grids.WellFormed(board) && 0 <= i < 4
    ensures var g := NewGame(title, author, hunter, board).ghosts[i];
            var spawn := Grids.FirstMatch(board, GhostSpawn);
            g.kind == Slots[i] && !g.dead && g.phase == Scatter && g.duration == Duration(Scatter) &&
            g.entity.direction == Up &&
            g.entity.position == (if spawn.Some? then spawn.value else Position(0, 0)) &&
            (spawn.Some? ==> Grids.InBounds(board, g.entity.position) &&
                             board.cells[g.entity.position.y][g.entity.position.x] == GhostSpawn)
  {
  }

  /** setLives. */
  function SetLives(s: GameState, lives: int): (r: GameState)
    ensures r.lives >= 0 && r.(lives := s.lives) == s
    ensures lives >= 0 ==> r.lives == lives
  {
    s.(lives := if lives > 0 then lives else 0)
  }

  /** setLevel. */
  function SetLevel(s: GameState, level: int): (r: GameState)
    ensures r.level >= 0 && r.(level := s.level) == s
    ensures level >= 0 ==> r.level == level
  {
    s.(level := if level > 0 then level else 0)
  }

  /** setGhostsFrightened. */
  function SetGhostsFrightened(s: GameState): GameState {
    s.(ghosts := seq(|s.ghosts|, i requires 0 <= i < |s.ghosts| =>
                   GhostRules.SetPhase(s.ghosts[i], Some(Frightened), Duration(Frightened))))
  }

  /** Every ghost is frightened for thirty ticks afterwards, and nothing else changes. */
  lemma FrightenedEverywhere(s: GameState)
    ensures var r := SetGhostsFrightened(s);
            r.(ghosts := s.ghosts) == s && |r.ghosts| == |s.ghosts| &&
            forall i :: 0 <= i < |s.ghosts| ==>
              r.ghosts[i] == s.ghosts[i].(phase := Frightened, duration := 30)
  {
  }

  // ---------------------------------------------------------------- tick

  /** Step 1 of tick: the hunter moves on the game's board and score board. */
  function HunterMoves(s: GameState): (r: GameState)
    requires Sane(s)
    ensures Sane(r)
  {
    var w := HunterRules.Move(HunterRules.World(s.hunter, s.board, s.score));
    s.(hunter := w.hunter, board := w.board, score := w.score)
  }

  /** Steps 2 and 4 of tick for the ghost in slot i: hunter.hit(g). */
  function HitSlot(s: GameState, i: nat): (r: GameState)
    requires Sane(s) && i < 4
    ensures Sane(r)
  {
    var (h, g) := HunterRules.Hit(s.hunter, s.ghosts[i]);
    s.(hunter := h, ghosts := s.ghosts[i := g])
  }

  /** Step 3 of tick: the ghost in slot i moves when it is alive and the tick is even. */
  function MoveSlot(s: GameState, i: nat): (r: GameState)
    requires Sane(s) && i < 4
    ensures Sane(r)
  {
    var g := s.ghosts[i];
    if !g.dead && s.tick % 2 == 0 then s.(ghosts := s.ghosts[i := GhostRules.Move(g, s.hunter.entity, s.board)])
    else s
  }

  /** Step 5 of tick: a dead ghost in slot i is respawned and the bounty scored. */
  function RespawnSlot(s: GameState, i: nat): (r: GameState)
    requires Sane(s) && i < 4
    ensures Sane(r)
  {
    if s.ghosts[i].dead then
      s.(ghosts := s.ghosts[i := Respawn(s.ghosts[i], s.board)],
         score := HunterRules.IncreaseScore(s.score, GhostBounty))
    else s
  }

  /** Steps 2 to 5 for the ghost in slot i, in the order of the loop body. */
  function Round(s: GameState, i: nat): (r: GameState)
    requires Sane(s) && i < 4
    ensures Sane(r)
  {
    RespawnSlot(HitSlot(MoveSlot(HitSlot(s, i), i), i), i)
  }

  /** The rounds of the first n slots. */
  function Rounds(s: GameState, n: nat): (r: GameState)
    requires Sane(s) && n <= 4
    ensures Sane(r)
  {
    if n == 0 then s else Round(Rounds(s, n - 1), n - 1)
  }

  /** resetAllGhosts followed by resetHunter. */
  function ResetEntities(s: GameState): (r: GameState)
    requires Sane(s)
    ensures Sane(r)
  {
    s.(ghosts := ResetGhosts(s.ghosts, s.board), hunter := ResetHunter(s.hunter, s.board))
  }

  /** Step 6 of tick: a dead hunter costs a life and every entity goes back to its spawn. */
  function LoseLife(s: GameState): (r: GameState)
    requires Sane(s)
    ensures Sane(r)
  {
    if s.hunter.dead then ResetEntities(s.(lives := s.lives - 1)) else s
  }

  /** Steps 7 and 8 of tick: a cleared board starts the next level, otherwise the tick advances. */
  function NextLevel(s: GameState): (r: GameState)
    requires Sane(s)
    ensures Sane(r)
  {
    if Grids.IsEmpty(s.board) then
      ResetEntities(s.(level := s.level + 1, tick := 0, board := Grids.Reset(s.board)))
    else s.(tick := s.tick + 1)
  }

  /** tick: nothing without lives, otherwise steps 1 to 8. */
  function Tick(s: GameState): (r: GameState)
    requires Sane(s)
    ensures Sane(r)
  {
    if s.lives == 0 then s else NextLevel(LoseLife(Rounds(HunterMoves(s), 4)))
  }

  /** A game with no lives left does not change. */
  lemma TickWithoutLives(s: GameState)
    requires Sane(s) && s.lives == 0
    ensures Tick(s) == s
  {
  }

  /**
   * What a round leaves alone: the board, the counters, the title and author,
   * the table and the hunter's position and kind; the score only grows, and
   * a hunter that was dead stays dead.
   */
  predicate RoundKeeps(s: GameState, r: GameState) {
    r.board == s.board && r.tick == s.tick && r.lives == s.lives && r.level == s.level &&
    r.title == s.title && r.author == s.author && r.table == s.table &&
    r.hunter.entity == s.hunter.entity && r.hunter.kind == s.hunter.kind &&
    r.score >= s.score && (s.hunter.dead ==> r.hunter.dead)
  }

  /** One round keeps RoundKeeps, touches only its own slot, and leaves that ghost alive. */
  lemma RoundFacts(s: GameState, i: nat)
    requires Sane(s) && i < 4
    ensures var r := Round(s, i);
            RoundKeeps(s, r) && (forall j :: 0 <= j < 4 && j != i ==> r.ghosts[j] == s.ghosts[j]) &&
            !r.ghosts[i].dead
  {
    HunterRules.HitOutcome(s.hunter, s.ghosts[i]);
    var a := HitSlot(s, i);
    if !a.ghosts[i].dead && a.tick % 2 == 0 {
      GhostRules.MoveKeeps(a.ghosts[i], a.hunter.entity, a.board);
    }
    var b := MoveSlot(a, i);
    HunterRules.HitOutcome(b.hunter, b.ghosts[i]);
  }

  /**
   * The rounds leave the board, the counters, the title and author, the table
   * and the hunter's position alone; they only add to the score; a hunter that
   * was dead stays dead; the ghosts of the slots not yet visited are
   * untouched, and those visited are alive.
   */
  lemma {:induction false} RoundsFacts(s: GameState, n: nat)
    requires Sane(s) && n <= 4
    ensures var r := Rounds(s, n);
            RoundKeeps(s, r) &&
            (forall j :: n <= j < 4 ==> r.ghosts[j] == s.ghosts[j]) &&
            (forall j :: 0 <= j < n ==> !r.ghosts[j].dead)
  {
    if n > 0 {
      RoundsFacts(s, n - 1);
      RoundFacts(Rounds(s, n - 1), n - 1);
    }
  }

  /**
   * What a tick with lives left promises: afterwards the hunter and all four
   * ghosts are alive; a life is lost exactly when the hunter died during the
   * collisions; a cleared board starts the next level at tick 0 on a refilled
   * board, otherwise the tick advances by one on the same level; the score
   * never falls and the table, title and author stay.
   */
  lemma TickOutcome(s: GameState)
    requires Sane(s) && s.lives >= 1
    ensures var t := Tick(s);
            var died := Rounds(HunterMoves(s), 4).hunter.dead;
            var cleared := Grids.IsEmpty(HunterMoves(s).board);
            Sane(t) && !t.hunter.dead && (forall j :: 0 <= j < 4 ==> !t.ghosts[j].dead) &&
            t.lives == (if died then s.lives - 1 else s.lives) && t.lives >= 0 &&
            (cleared ==> t.level == s.level + 1 && t.tick == 0 && t.board == Grids.Reset(HunterMoves(s).board)) &&
            (!cleared ==> t.level == s.level && t.tick == s.tick + 1 && t.board == HunterMoves(s).board) &&
            t.score >= s.score && t.table == s.table && t.title == s.title && t.author == s.author
  {
    var s1 := HunterMoves(s);
    HunterRules.StepKeeps(HunterRules.World(s.hunter, s.board, s.score));
    var w1 := HunterRules.Step(HunterRules.World(s.hunter, s.board, s.score));
    HunterRules.StepKeeps(w1);
    RoundsFacts(s1, 4);
  }

  // ---------------------------------------------------------------- reset

  /** reset: counters and board first, then the entities, then the tick. */
  function Reset(s: GameState): (r: GameState)
    requires Sane(s)
    ensures Sane(r)
  {
    ResetEntities(s.(lives := StartLives, level := 0, score := 0, board := Grids.Reset(s.board))).(tick := 0)
  }

  /**
   * A reset game has four lives, level 0, score 0 and tick 0 on a refilled
   * board; the hunter and every ghost are alive in their starting state at the
   * spawns; the score table, the title and the author are kept.
   */
  lemma ResetOutcome(s: GameState)
    requires Sane(s)
    ensures var r := Reset(s);
            r.lives == 4 && r.level == 0 && r.score == 0 && r.tick == 0 &&
            r.board == Grids.Reset(s.board) &&
            r.table == s.table && r.title == s.title && r.author == s.author &&
            r.hunter == PlaceHunter(HunterRules.Initial(s.hunter.kind), Grids.FirstMatch(r.board, PacmanSpawn)) &&
            forall j :: 0 <= j < 4 ==>
              r.ghosts[j] == PlaceGhost(GhostRules.Initial(s.ghosts[j].kind), Grids.FirstMatch(r.board, GhostSpawn))
  {
  }

  /** Resetting twice is resetting once. */
  lemma ResetIdempotent(s: GameState)
    requires Sane(s)
    ensures Reset(Reset(s)) == Reset(s)
  {
    Grids.ResetIdempotent(s.board);
  }
}
