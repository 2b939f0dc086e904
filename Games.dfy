/**
 * The PacmanGame class: the game's own counters, the hunter, board and score
 * board it drives, and the list of four ghosts, which the Java code builds
 * with Arrays.asList and so is a fixed-size array whose slots can be replaced.
 * Each method is proved against the function of GameRules that states it.
 */
module Games {
  import opened Wrappers
  import opened Positions
  import opened Directions
  import opened BoardItems
  import opened Phases
  import opened GameRules
  import Grids
  import GhostRules
  import HunterRules
  import Boards
  import Scores
  import Ghosts
  import Hunters

  /** No two of the four ghosts are the same object. */
  predicate Distinct(a: Ghosts.Ghost, b: Ghosts.Ghost, c: Ghosts.Ghost, d: Ghosts.Ghost) {
    a != b && a != c && a != d && b != c && b != d && c != d
  }

  /** The four ghosts the constructor lists: a fresh Blinky, Inky, Pinky and Clyde at the ghost spawn. */
  method SpawnGhosts(spawn: Option<Position>) returns (list: array<Ghosts.Ghost>)
    ensures fresh(list) && list.Length == 4
    ensures fresh(list[0]) && fresh(list[1]) && fresh(list[2]) && fresh(list[3])
    ensures Distinct(list[0], list[1], list[2], list[3])
    ensures list[0].Model() == PlaceGhost(GhostRules.Initial(GhostRules.Blinky), spawn)
    ensures list[1].Model() == PlaceGhost(GhostRules.Initial(GhostRules.Inky), spawn)
    ensures list[2].Model() == PlaceGhost(GhostRules.Initial(GhostRules.Pinky), spawn)
    ensures list[3].Model() == PlaceGhost(GhostRules.Initial(GhostRules.Clyde), spawn)
    ensures forall i :: 0 <= i < 4 ==> list[i].Valid()
  {
    var blinky := new Ghosts.Ghost.Spawned(GhostRules.Blinky, spawn);
    var inky := new Ghosts.Ghost.Spawned(GhostRules.Inky, spawn);
    var pinky := new Ghosts.Ghost.Spawned(GhostRules.Pinky, spawn);
    var clyde := new Ghosts.Ghost.Spawned(GhostRules.Clyde, spawn);
    list := new Ghosts.Ghost[4] [blinky, inky, pinky, clyde];
  }

  class PacmanGame {
    const title: Option<string>
    const author: Option<string>
    const hunter: Hunters.Hunter
    const board: Boards.PacmanBoard
    const scores: Scores.ScoreBoard
    const ghosts: array<Ghosts.Ghost>
    var tick: int
    var lives: int
    var level: int

    /** Four distinct ghosts in the list; the hunter, board and score board valid; no counter below zero. */
    ghost predicate Valid()
      reads this, hunter, board, board.board, scores, ghosts
    {
      ghosts.Length == 4 && Distinct(ghosts[0], ghosts[1], ghosts[2], ghosts[3]) &&
      hunter.Valid() && board.Valid() && scores.Valid() &&
      tick >= 0 && lives >= 0 && level >= 0
    }

    /** The four ghosts' states, in slot order. */
    ghost function GhostStates(): (r: seq<GhostRules.GhostState>)
      requires ghosts.Length == 4
      reads ghosts, ghosts[0], ghosts[1], ghosts[2], ghosts[3]
      ensures |r| == 4 && forall i :: 0 <= i < 4 ==> r[i] == ghosts[i].Model()
    {
      [ghosts[0].Model(), ghosts[1].Model(), ghosts[2].Model(), ghosts[3].Model()]
    }

    ghost function Model(): (s: GameState)
      requires Valid()
      reads this, hunter, board, board.board, scores, ghosts, ghosts[0], ghosts[1], ghosts[2], ghosts[3]
      ensures Sane(s)
    {
      GameState(title, author, hunter.Model(), GhostStates(), board.Model(),
                scores.currentScore, scores.table, tick, lives, level)
    }

    /** new PacmanGame(title, author, hunter, board). */
    constructor (title: Option<string>, author: Option<string>, hunter: Hunters.Hunter, board: Boards.PacmanBoard)
      requires hunter.Valid() && board.Valid()
      ensures Valid() && Model() == NewGame(title, author, old(hunter.Model()), old(board.Model()))
      ensures this.hunter == hunter && this.board == board
      ensures fresh(scores) && fresh(ghosts)
      ensures fresh(ghosts[0]) && fresh(ghosts[1]) && fresh(ghosts[2]) && fresh(ghosts[3])
    {
      this.title := title;
      this.author := author;
      this.hunter := hunter;
      this.board := board;
      scores := new Scores.ScoreBoard();
      tick := 0;
      level := 0;
      lives := 4;
      ghost var grid := board.Model();
      var spawn := board.GetGhostSpawn();
      var list := SpawnGhosts(spawn);
      ghosts := list;
      new;
      assert board.Model() == grid;
      assert GhostStates() == NewGame(title, author, hunter.Model(), grid).ghosts;
    }

    /** setLives. */
    method SetLives(n: int)
      requires Valid()
      modifies this
      ensures Valid() && Model() == GameRules.SetLives(old(Model()), n)
    {
      lives := if n > 0 then n else 0;
    }

    /** setLevel. */
    method SetLevel(n: int)
      requires Valid()
      modifies this
      ensures Valid() && Model() == GameRules.SetLevel(old(Model()), n)
    {
      level := if n > 0 then n else 0;
    }

    /** getGhosts: the list itself, not a copy, so callers can replace its slots. */
    method GetGhosts() returns (r: array<Ghosts.Ghost>)
      ensures r == ghosts
    {
      return ghosts;
    }

    /**
     * The frame of the slot operations: when the game's own fields, the board
     * and every ghost but the one in slot i are as before, the game's state
     * differs only in the hunter, that slot and the score board.
     */
    twostate lemma SlotFrame(i: nat)
      requires old(Valid()) && i < 4
      requires unchanged(this, board, board.board, ghosts)
      requires forall j :: 0 <= j < 4 && j != i ==> unchanged(ghosts[j])
      requires hunter.Valid() && scores.Valid()
      ensures Valid()
      ensures Model() == old(Model()).(hunter := hunter.Model(), ghosts := old(GhostStates())[i := ghosts[i].Model()],
                                       score := scores.currentScore, table := scores.table)
    {
      assert board.Model() == old(board.Model());
      assert GhostStates() == old(GhostStates())[i := ghosts[i].Model()];
    }

    /**
     * The frame of the steps that leave the entities alone: when the hunter and
     * the four ghosts are as before, the game's state differs only in its
     * counters, the board and the score board.
     */
    twostate lemma EntitiesFrame()
      requires old(Valid())
      requires unchanged(hunter, ghosts)
      requires forall j :: 0 <= j < 4 ==> unchanged(ghosts[j])
      requires board.Valid() && scores.Valid() && tick >= 0 && lives >= 0 && level >= 0
      ensures Valid()
      ensures Model() == old(Model()).(board := board.Model(), score := scores.currentScore, table := scores.table,
                                       tick := tick, lives := lives, level := level)
    {
      assert GhostStates() == old(GhostStates());
    }

    /** setGhostsFrightened. */
    method SetGhostsFrightened()
      requires Valid()
      modifies ghosts[0], ghosts[1], ghosts[2], ghosts[3]
      ensures Valid() && Model() == GameRules.SetGhostsFrightened(old(Model()))
    {
      ghost var s := Model();
      for i := 0 to 4
        invariant Valid() && Model().(ghosts := s.ghosts) == s
        invariant forall j :: 0 <= j < i ==>
          GhostStates()[j] == GhostRules.SetPhase(s.ghosts[j], Some(Frightened), Duration(Frightened))
        invariant forall j :: i <= j < 4 ==> GhostStates()[j] == s.ghosts[j]
      {
        label Before:
        ghosts[i].SetPhase(Some(Frightened), Duration(Frightened));
        SlotFrame@Before(i);
      }
    }

    /** The ghost in slot i reset and put on the ghost spawn, as resetAllGhosts and step 5 of tick do. */
    method RespawnGhost(i: nat)
      requires Valid() && i < 4
      modifies ghosts[i]
      ensures Valid() && Model() == old(Model()).(ghosts := old(GhostStates())[i := Respawn(old(ghosts[i].Model()), board.Model())])
    {
      var g := ghosts[i];
      g.Reset();
      var spawn := board.GetGhostSpawn();
      g.SetPosition(spawn);
      SlotFrame(i);
    }

    /** resetAllGhosts: every ghost reset and put on the ghost spawn. */
    method ResetAllGhosts()
      requires Valid()
      modifies ghosts[0], ghosts[1], ghosts[2], ghosts[3]
      ensures Valid() && Model() == old(Model()).(ghosts := ResetGhosts(old(GhostStates()), board.Model()))
    {
      ghost var s := Model();
      for i := 0 to 4
        invariant Valid() && Model().(ghosts := s.ghosts) == s
        invariant forall j :: 0 <= j < i ==> GhostStates()[j] == Respawn(s.ghosts[j], s.board)
        invariant forall j :: i <= j < 4 ==> GhostStates()[j] == s.ghosts[j]
      {
        RespawnGhost(i);
      }
    }

    /** resetHunter: the hunter reset and put on the pacman spawn. */
    method ResetHunter()
      requires Valid()
      modifies hunter
      ensures Valid() && Model() == old(Model()).(hunter := GameRules.ResetHunter(old(hunter.Model()), board.Model()))
    {
      hunter.Reset();
      var spawn := board.GetPacmanSpawn();
      hunter.SetPosition(spawn);
      SlotFrame(0);
    }

    /** resetAllGhosts followed by resetHunter, as tick and reset call them. */
    method ResetEntities()
      requires Valid()
      modifies hunter, ghosts[0], ghosts[1], ghosts[2], ghosts[3]
      ensures Valid() && Model() == GameRules.ResetEntities(old(Model()))
    {
      ResetAllGhosts();
      ResetHunter();
    }

    /** board.reset() followed by resetAllGhosts and resetHunter, as tick and reset call them. */
    method RefillBoard()
      requires Valid()
      modifies board, board.board, hunter, ghosts[0], ghosts[1], ghosts[2], ghosts[3]
      ensures Valid() && Model() == GameRules.ResetEntities(old(Model()).(board := Grids.Reset(old(Model()).board)))
    {
      board.Reset();
      EntitiesFrame();
      ResetEntities();
    }

    /** Steps 2 and 4 of tick: hunter.hit(g) for the ghost in slot i. */
    method HitSlot(i: nat)
      requires Valid() && i < 4
      modifies hunter, ghosts[i]
      ensures Valid() && Model() == GameRules.HitSlot(old(Model()), i)
    {
      var _ := hunter.Hit(ghosts[i]);
      SlotFrame(i);
    }

    /** Step 3 of tick: the ghost in slot i moves when it is alive and the tick is even. */
    method MoveSlot(i: nat)
      requires Valid() && i < 4
      modifies ghosts[i]
      ensures Valid() && Model() == GameRules.MoveSlot(old(Model()), i)
    {
      if !ghosts[i].dead && tick % 2 == 0 {
        ghosts[i].Move(hunter.entity, board);
      }
      SlotFrame(i);
    }

    /** Step 5 of tick: a dead ghost in slot i is reset, put on the ghost spawn, and scores 200. */
    method RespawnSlot(i: nat)
      requires Valid() && i < 4
      modifies scores, ghosts[i]
      ensures Valid() && Model() == GameRules.RespawnSlot(old(Model()), i)
    {
      if ghosts[i].dead {
        RespawnGhost(i);
        scores.IncreaseScore(GhostBounty);
        SlotFrame(i);
      }
    }

    /** Steps 2 to 5 of tick for the ghost in slot i. */
    method Round(i: nat)
      requires Valid() && i < 4
      modifies hunter, scores, ghosts[i]
      ensures Valid() && Model() == GameRules.Round(old(Model()), i)
    {
      HitSlot(i);
      MoveSlot(i);
      HitSlot(i);
      RespawnSlot(i);
    }

    /** Step 1 of tick: hunter.move(this). */
    method MoveHunter()
      requires Valid()
      modifies hunter, board, board.board, scores
      ensures Valid() && Model() == HunterMoves(old(Model()))
    {
      ghost var s := Model();
      hunter.Move(board, scores);
      assert GhostStates() == s.ghosts;
    }

    /** Step 6 of tick. */
    method LoseLife()
      requires Valid() && lives >= 1
      modifies this, hunter, ghosts[0], ghosts[1], ghosts[2], ghosts[3]
      ensures Valid() && Model() == GameRules.LoseLife(old(Model()))
    {
      if hunter.dead {
        lives := lives - 1;
        EntitiesFrame();
        ResetEntities();
      }
    }

    /** Steps 7 and 8 of tick. */
    method NextLevel()
      requires Valid()
      modifies this, hunter, board, board.board, ghosts[0], ghosts[1], ghosts[2], ghosts[3]
      ensures Valid() && Model() == GameRules.NextLevel(old(Model()))
    {
      var empty := board.IsEmpty();
      assert empty == Grids.IsEmpty(old(Model()).board);
      if empty {
        level := level + 1;
        tick := 0;
        EntitiesFrame();
        RefillBoard();
      } else {
        tick := tick + 1;
        EntitiesFrame();
      }
    }

    /** Steps 2 to 5 of tick for the four slots in order. */
    method PlayRounds()
      requires Valid()
      modifies hunter, scores, ghosts[0], ghosts[1], ghosts[2], ghosts[3]
      ensures Valid() && Model() == Rounds(old(Model()), 4)
    {
      ghost var s := Model();
      for i := 0 to 4
        modifies hunter, scores, ghosts[0], ghosts[1], ghosts[2], ghosts[3]
        invariant Valid() && Model() == Rounds(s, i)
      {
        Round(i);
      }
    }

    /** Steps 1 to 5 of tick: the hunter moves, then the four rounds. */
    method Play()
      requires Valid()
      modifies hunter, board, board.board, scores, ghosts[0], ghosts[1], ghosts[2], ghosts[3]
      ensures Valid() && Model() == Rounds(HunterMoves(old(Model())), 4)
    {
      MoveHunter();
      PlayRounds();
    }

    /** tick. */
    method Tick()
      requires Valid()
      modifies this, hunter, board, board.board, scores, ghosts[0], ghosts[1], ghosts[2], ghosts[3]
      ensures Valid() && Model() == GameRules.Tick(old(Model()))
    {
      if lives == 0 {
        return;
      }
      TickAlive();
    }

    /** tick for a game with lives left: steps 1 to 8. */
    method TickAlive()
      requires Valid() && lives >= 1
      modifies this, hunter, board, board.board, scores, ghosts[0], ghosts[1], ghosts[2], ghosts[3]
      ensures Valid() && Model() == GameRules.NextLevel(GameRules.LoseLife(Rounds(HunterMoves(old(Model())), 4)))
    {
      Play();
      LoseLife();
      NextLevel();
    }

    /** reset: a new start on a refilled board; the score table survives. */
    method Reset()
      requires Valid()
      modifies this, hunter, board, board.board, scores, ghosts[0], ghosts[1], ghosts[2], ghosts[3]
      ensures Valid() && Model() == GameRules.Reset(old(Model()))
    {
      lives := 4;
      level := 0;
      scores.Reset();
      EntitiesFrame();
      RefillBoard();
      tick := 0;
    }
  }
}
