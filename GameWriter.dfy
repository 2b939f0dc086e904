/**
 * pacman.game.GameWriter: the save text built up in a StringBuilder, line by
 * line, then the score entries in a counted loop. The method is proved to
 * build exactly the text function SaveFormat.Write states, from which the
 * round trip through the reader is proved in module SaveFormat.
 */
module GameWriter {
  import opened Wrappers
  import opened Text
  import opened Scores
  import HunterRules
  import GhostRules
  import SaveFormat
  import Games
  import GameRules
  import Grids

  /** builder.append(line); builder.append(System.lineSeparator()), with "\n" as the separator. */
  method AppendLine(builder: string, line: string, ghost head: string, ghost written: seq<string>)
    returns (b: string)
    requires builder == head + Terminated(written)
    ensures b == head + Terminated(written + [line])
  {
    b := builder + line + "\n";
    TerminatedSnoc(written, line);
  }

  /**
   * write: the [Board] header, the dimension line and the board's toString;
   * a blank line and the ten assignments of the [Game] block; a blank line,
   * the [Scores] header and getEntriesByName joined by line breaks. A
   * non-square board throws from its toString, and nothing is written.
   */
  method Write(game: Games.PacmanGame) returns (r: Result<string>)
    requires game.Valid()
    ensures r == SaveFormat.Write(game.Model())
  {
    var builder :- AppendBoard(game);
    var assignments := AppendGame(game);
    builder := builder + assignments;
    var entries := AppendEntries(game.scores);
    builder := builder + entries;
    return Ok(builder);
  }

  /** The [Board] block: its header, the dimension line and the board's toString, each ended by a line break. */
  method AppendBoard(game: Games.PacmanGame) returns (r: Result<string>)
    requires game.Valid()
    ensures match Grids.ToString(game.Model().board)
            case Err(e) => r == Err(e)
            case Ok(text) => r == Ok(Terminated(["[Board]", SaveFormat.DimensionLine(game.Model().board)]) + text + "\n")
  {
    ghost var g := game.board.Model();
    var builder := AppendLine("", "[Board]", "", []);
    builder := AppendLine(builder, IntToString(game.board.width) + "," + IntToString(game.board.height), "", ["[Board]"]);
    assert ["[Board]"] + [SaveFormat.DimensionLine(g)] == ["[Board]", SaveFormat.DimensionLine(g)];
    assert builder == Terminated(["[Board]", SaveFormat.DimensionLine(g)]);
    var board :- game.board.ToString();
    assert game.Model().board == g;
    return Ok(builder + board + "\n");
  }

  /**
   * A blank line, the [Game] block and the [Scores] header, each line ended
   * by a line break; the values are the getters' results, each entity's
   * through its toString.
   */
  method AppendGame(game: Games.PacmanGame) returns (builder: string)
    requires game.Valid()
    ensures builder == Terminated(["", "[Game]"] + SaveFormat.GameLines(game.Model()) + ["", "[Scores]"])
  {
    ghost var s := game.Model();
    var score := game.scores.GetScore();
    var ghostList := game.GetGhosts();
    var values := [SaveFormat.Printed(game.title), SaveFormat.Printed(game.author),
                   IntToString(game.lives), IntToString(game.level), IntToString(score),
                   HunterRules.ToString(game.hunter.Model()),
                   GhostRules.ToString(ghostList[0].Model()), GhostRules.ToString(ghostList[1].Model()),
                   GhostRules.ToString(ghostList[2].Model()), GhostRules.ToString(ghostList[3].Model())];
    assert s.ghosts == [ghostList[0].Model(), ghostList[1].Model(), ghostList[2].Model(), ghostList[3].Model()];
    SaveFormat.GameValuesListed(s);
    builder := AppendAssignments(values);
    AssignedGame(s, values);
  }

  /** The getters' values of a game, in key order, give the [Game] block's lines. */
  lemma AssignedGame(s: GameRules.GameState, values: seq<string>)
    requires |s.ghosts| == 4 && values == SaveFormat.GameValues(s)
    ensures Assigned(values) == SaveFormat.GameLines(s)
  {
  }

  /** The ten assignment lines of the [Game] block for the values in key order. */
  ghost function Assigned(values: seq<string>): (lines: seq<string>)
    requires |values| == SaveFormat.GameLineCount
    ensures |lines| == SaveFormat.GameLineCount
  {
    seq(SaveFormat.GameLineCount, k requires 0 <= k < SaveFormat.GameLineCount =>
      SaveFormat.Assignment(SaveFormat.GameKeys[k], values[k]))
  }

  /** The [Game] block's lines, between a blank line before and a blank line and the [Scores] header after. */
  method AppendAssignments(values: seq<string>) returns (builder: string)
    requires |values| == SaveFormat.GameLineCount
    ensures builder == Terminated(["", "[Game]"] + Assigned(values) + ["", "[Scores]"])
  {
    ghost var head := ["", "[Game]"];
    ghost var lines := Assigned(values);
    builder := AppendLine("", "", "", []);
    builder := AppendLine(builder, "[Game]", "", [""]);
    assert head + lines[..0] == [""] + ["[Game]"];
    builder := AppendAssignment(builder, "title", values[0], head, lines, 0);
    builder := AppendAssignment(builder, "author", values[1], head, lines, 1);
    builder := AppendAssignment(builder, "lives", values[2], head, lines, 2);
    builder := AppendAssignment(builder, "level", values[3], head, lines, 3);
    builder := AppendAssignment(builder, "score", values[4], head, lines, 4);
    builder := AppendAssignment(builder, "hunter", values[5], head, lines, 5);
    builder := AppendAssignment(builder, "blinky", values[6], head, lines, 6);
    builder := AppendAssignment(builder, "inky", values[7], head, lines, 7);
    builder := AppendAssignment(builder, "pinky", values[8], head, lines, 8);
    builder := AppendAssignment(builder, "clyde", values[9], head, lines, 9);
    assert lines[..SaveFormat.GameLineCount] == lines;
    builder := AppendLine(builder, "", "", head + lines);
    builder := AppendLine(builder, "[Scores]", "", head + lines + [""]);
    assert head + lines + [""] + ["[Scores]"] == head + lines + ["", "[Scores]"];
  }

  /** builder.append(key + " = " + value) and a line break, line k of lines. */
  method AppendAssignment(builder: string, key: string, value: string,
                          ghost head: seq<string>, ghost lines: seq<string>, ghost k: nat)
    returns (b: string)
    requires k < |lines| && lines[k] == SaveFormat.Assignment(key, value)
    requires builder == Terminated(head + lines[..k])
    ensures b == Terminated(head + lines[..k + 1])
  {
    b := AppendLine(builder, key + " = " + value, "", head + lines[..k]);
    assert head + lines[..k] + [lines[k]] == head + lines[..k + 1];
  }

  /**
   * The loop over getEntriesByName: each entry, and a line break after every
   * one but the last, as the text the loop adds to the builder.
   */
  method AppendEntries(scores: Scores.ScoreBoard) returns (text: string)
    requires scores.Valid()
    ensures text == Join(EntriesByName(scores.table), "\n")
  {
    var scoreList := scores.GetEntriesByName();
    text := "";
    var i := 0;
    while i < |scoreList|
      invariant 0 <= i <= |scoreList|
      invariant i < |scoreList| ==> text == Terminated(scoreList[..i])
      invariant i == |scoreList| ==> text == Join(scoreList, "\n")
    {
      EntryAppended(scoreList, i);
      text := text + scoreList[i];
      if i < |scoreList| - 1 {
        text := text + "\n";
      }
      i := i + 1;
    }
  }

  /** One pass of the entry loop: the entry, then a line break unless it is the last. */
  lemma EntryAppended(entries: seq<string>, i: nat)
    requires i < |entries|
    ensures i + 1 < |entries| ==> Terminated(entries[..i]) + entries[i] + "\n" == Terminated(entries[..i + 1])
    ensures i + 1 == |entries| ==> Terminated(entries[..i]) + entries[i] == Join(entries, "\n")
  {
    assert entries[..i] + [entries[i]] == entries[..i + 1];
    if i + 1 < |entries| {
      TerminatedSnoc(entries[..i], entries[i]);
    } else {
      TerminatedThenJoined(entries[..i], [entries[i]]);
      assert entries[..i + 1] == entries;
    }
  }
}
