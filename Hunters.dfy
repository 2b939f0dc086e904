/**
 * The Hunter class: the fields pacman.hunter.Hunter updates in place, with
 * each method proved against the function of HunterRules that states its
 * effect. A move reads and changes the game's board and score board, which
 * the model passes in as those two objects.
 */
module Hunters {
  import opened Wrappers
  import opened Positions
  import opened Directions
  import opened BoardItems
  import opened Phases
  import opened Entities
  import opened HunterRules
  import Ghosts
  import Boards
  import Scores

  class Hunter {
    const kind: HunterKind
    var entity: Entity
    var dead: bool
    var used: bool
    var duration: int

    function Model(): HunterState
      reads this
    {
      HunterState(kind, entity, dead, used, duration)
    }

    /** The special's remaining duration is never negative. */
    ghost predicate Valid()
      reads this
    {
      duration >= 0
    }

    /** new Hungry() and its siblings: alive, special unused, at (0, 0) facing up. */
    constructor (k: HunterKind)
      ensures Valid() && Model() == Initial(k)
    {
      kind := k;
      entity := Entities.Default();
      dead := false;
      used := false;
      duration := 0;
    }

    /** new Hungry(original) and its siblings: a copy of any hunter's state under this kind. */
    constructor Copy(k: HunterKind, original: Hunter)
      requires original.Valid()
      ensures Valid() && Model() == HunterRules.Copy(k, original.Model())
    {
      kind := k;
      dead := original.dead;
      used := original.used;
      duration := original.duration;
      entity := original.entity;
    }

    method SetPosition(p: Option<Position>)
      modifies this
      ensures Model() == old(Model()).(entity := WithPosition(old(entity), p))
    {
      if p.Some? {
        entity := entity.(position := p.value);
      }
    }

    method SetDirection(d: Option<Direction>)
      modifies this
      ensures Model() == old(Model()).(entity := WithDirection(old(entity), d))
    {
      if d.Some? {
        entity := entity.(direction := d.value);
      }
    }

    method ActivateSpecial(d: int)
      requires Valid()
      modifies this
      ensures Valid() && Model() == HunterRules.ActivateSpecial(old(Model()), d)
    {
      if !used && d > 0 {
        used := true;
        duration := d;
      }
    }

    method IsSpecialActive() returns (r: bool)
      ensures r == SpecialActive(Model())
    {
      if kind == Phil {
        return false;
      }
      return duration > 0;
    }

    /** Hunter.hit, the behaviour the subclasses fall back on. */
    method BaseHit(g: Ghosts.Ghost)
      modifies this, g
      ensures (Model(), g.Model()) == HunterRules.BaseHit(old(Model()), old(g.Model()))
    {
      if entity.position.x == g.entity.position.x && entity.position.y == g.entity.position.y {
        if g.phase == Frightened {
          g.Kill();
        } else {
          dead := true;
        }
      }
    }

    /** hit: a null ghost throws NullPointerException; otherwise each kind's rule. */
    method Hit(g: Ghosts.Ghost?) returns (r: Outcome)
      modifies this, g
      ensures g == null ==> r == Fail(NullPointer) && Model() == old(Model())
      ensures g != null ==>
                r == Pass && (Model(), g.Model()) == HunterRules.Hit(old(Model()), old(g.Model()))
    {
      if g == null {
        return Fail(NullPointer);
      }
      var active := IsSpecialActive();
      match kind {
      case Hungry =>
        if entity.position.x == g.entity.position.x && entity.position.y == g.entity.position.y {
          if active {
            g.Kill();
          } else {
            BaseHit(g);
          }
        }
      case Phasey =>
        if active && g.phase != Frightened {
        } else {
          BaseHit(g);
        }
      case Speedy =>
        BaseHit(g);
      case Phil =>
        BaseHit(g);
      }
      return Pass;
    }

    /** Hunter.move: one step, as Step states it. */
    method Step(board: Boards.PacmanBoard, scores: Scores.ScoreBoard)
      requires Valid() && board.Valid() && scores.Valid()
      modifies this, board, board.board, scores
      ensures Valid() && board.Valid() && scores.Valid() && scores.table == old(scores.table)
      ensures World(Model(), board.Model(), scores.currentScore) ==
              HunterRules.Step(World(old(Model()), old(board.Model()), old(scores.currentScore)))
    {
      var newPosition := Add(entity.position, Offset(entity.direction));
      var item := board.GetEntry(newPosition);
      if item.Ok? && Pathable(item.value) {
        SetPosition(Some(newPosition));
        var _ := board.EatDot(entity.position);
        scores.IncreaseScore(Score(item.value));
      }
      if duration > 0 {
        duration := duration - 1;
      }
    }

    /** move, by kind: Speedy moves a second time while its special is active. */
    method Move(board: Boards.PacmanBoard, scores: Scores.ScoreBoard)
      requires Valid() && board.Valid() && scores.Valid()
      modifies this, board, board.board, scores
      ensures Valid() && board.Valid() && scores.Valid() && scores.table == old(scores.table)
      ensures World(Model(), board.Model(), scores.currentScore) ==
              HunterRules.Move(World(old(Model()), old(board.Model()), old(scores.currentScore)))
    {
      Step(board, scores);
      if kind == Speedy {
        var active := IsSpecialActive();
        if active {
          Step(board, scores);
        }
      }
    }

    method Reset()
      modifies this
      ensures Valid() && Model() == HunterRules.Reset(old(Model()))
    {
      dead := false;
      used := false;
      duration := 0;
      SetPosition(Some(Position(0, 0)));
      SetDirection(Some(Up));
    }
  }
}
