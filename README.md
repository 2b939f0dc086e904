# Pac-Man engine in Dafny

This project models the game engine of a small Java Pac-Man game and proves
properties of the model. The engine covers:

- positions and directions;
- the board of items with its spawns;
- the high-score board;
- the four kinds of hunter (Hungry, Phasey, Speedy, Phil);
- the four kinds of ghost (Blinky, Inky, Pinky, Clyde) and their phases;
- the game's tick;
- the text save format, with its reader and its writer.

The model has two layers:

- **Rules.** Value datatypes with functions and lemmas. They state what each
  operation does:
  - `Positions`, `Directions`, `BoardItems`, `Phases` and `Entities`;
  - `Grids` for the board;
  - `HunterRules`, `GhostRules` and `GameRules`;
  - `SaveFormat` for the save text;
  - `Text` for the Java string operations the reader and writer rely on:
    `split`, `trim`, `Integer.parseInt`, `Integer.toString`, line splitting
    and `String.compareTo`.
- **Objects.** Classes whose fields the methods update in place:
  - `Boards.PacmanBoard`, holding its items in an `array2`;
  - `Scores.ScoreBoard`, holding its table as a name-sorted `seq` of entries;
  - `Hunters.Hunter`;
  - `Ghosts.Ghost`;
  - `Games.PacmanGame`, holding its four ghosts in an `array`;
  - `GameReader.LineReader`.

  Each class has a ghost `Model()`. Each method is proved to leave the rules
  function's result as its new `Model()`; the methods of `GameReader` and
  `GameWriter` are proved the same way against `SaveFormat`. The properties
  are then proved about the rules functions.

Module `RoundTrip` proves the main property of the save format: `write`
followed by `read` gives the game back. The exact form is in the table below
(`RoundTrip.WriteRead`).

Hunter and ghost variants are one class each with a `kind` tag. The
behaviour that differs per variant (`hit`, `move`, `chaseTarget`, `home`,
`toString`) is a `match` on the kind. Each row cites the variant's own
method.

## Behaviour of the code worth knowing

The model follows the code. It proves the code's behaviour, including the
behaviour below, some of which differs from what the code's own comments say.

- **Blank lines in a save.** The comments of `read`
  (GameReader.java:47-49) say that no blank line may come before the first
  block and that a single blank line separates the blocks. The code counts
  every blank line as one stage, and it accepts the input when it ends at
  stage 5. A block can therefore be
  replaced by a blank line. Five blank lines read as the placeholder game: a
  1 by 1 board, a Hungry hunter, and the title "title" by "author"
  (`SaveFormat.Step`, `SaveFormat.Read`).
- **Keys of the [Game] block.** The comment after the loop of `readGame`
  (GameReader.java:217) says there is one assignment of each key. The code
  only checks that the key codes (title 1 … clyde 10) add up to 55. Ten lines with the keys `author, author, lives, lives, score,
  hunter, blinky, inky, pinky, clyde` also add up to 55 and are accepted.
  The title then stays null (`SaveFormat.GameBlock`).
- **Spawns read in.** `setEntry` has a switch with no `break`. Placing a
  `PACMAN_SPAWN` clears the current pacman spawn and then the current ghost
  spawn too (`Grids.Set`). A saved board whose ghost spawn comes before its
  pacman spawn in reading order loses the ghost spawn when it is read. The
  round trip therefore requires `RoundTrip.SpawnsSurvive`.
- **Board text is transposed.** Board `toString` indexes `board[x][y]` with
  x running over the line. It is defined only for square boards; any other
  board indexes outside the array. Board `equals` compares this board's
  `board[x][y]` with the other's entry at `(x, y)`. As a result:
  - `write` fails on a non-square board (`SaveFormat.Write`);
  - a square board reads back as its transpose (`RoundTrip.WriteRead`);
  - on square boards, `equals` holds exactly when the other board is the
    transpose, so it is not reflexive (`Grids.EqualsIsTranspose`,
    `Grids.EqualsNotReflexive`);
  - on two boards of the same non-square size, `equals` scans until it
    meets a mismatch, giving false, or an index outside the array, throwing.
    It never returns true (`Grids.Equals`, `Grids.EqualsScanOrder`).
- **Java `split` drops trailing empty fields.** A dimension line `"3,"` has
  one field and throws. A line `"title = "` has no value field and throws
  (`Text.Split`, `SaveFormat.Field`).
- **Clyde ignores the phase.** `chaseTarget` and `home` of Blinky, Inky and
  Pinky return the ghost's own cell outside their phase. Clyde's do not
  check the phase at all (`GhostRules.OffPhaseTargets`).
- **Ghost moves.** `setMovePosition` starts its best distance at the larger
  board dimension, not at infinity. A step that ends farther than that from
  the target is never taken, so a ghost whose target is far off the board
  can stay where it is. The loop compares with `<=`, so a later direction
  wins a tie (`GhostRules.ChooseMoveBest`).
- **Speedy's second step.** Speedy moves a second time only when its
  special is still active after the first step. With one tick left it steps
  once (`HunterRules.SpeedySteps`).

## Model

| member | source | states |
|---|---|---|
| Positions.Equals | src/pacman/util/Position.java:69-76 | equals holds exactly when both coordinates agree |
| Positions.DistanceSq | src/pacman/util/Position.java:39-42 | the squared distance is zero exactly for the same position |
| Positions.AddCommutes | src/pacman/util/Position.java:49-51 | add is commutative |
| Positions.AddAssociates | src/pacman/util/Position.java:49-51 | add is associative |
| Positions.MultiplyDistributes | src/pacman/util/Position.java:59-61 | multiply distributes over add, and multiplying by one is the identity |
| Positions.DistanceSymmetric | src/pacman/util/Position.java:39-42 | distance is symmetric |
| Positions.ToStringParses | src/pacman/util/Position.java:96-98 | "x,y" splits at its comma into two fields that parse back to x and y |
| Directions.ValueOf | src/pacman/util/Direction.java:8-11 | valueOf returns the constant with exactly that name; any other string is IllegalArgumentException |
| Directions.ValueOfName | src/pacman/util/Direction.java:8-11 | valueOf recovers every direction from its name |
| Directions.OppositeUndoes | src/pacman/util/Direction.java:27-41 | opposite is an involution with no fixed point, and its offset cancels the original |
| Directions.OffsetsAreUnitSteps | src/pacman/util/Direction.java:22-24 | every offset is a unit step, and different directions have different offsets |
| Directions.StepIsUnit | src/pacman/util/Direction.java:22-24 | a step in any direction ends one cell away |
| BoardItems.ItemOf | src/pacman/board/BoardItem.java:55-74 | getItem succeeds exactly on the seven keys, returns the item with that key, and throws IllegalArgumentException otherwise |
| BoardItems.ItemOfCharKey | src/pacman/board/BoardItem.java:4-10 | every item's key is one of the seven, and getItem gives the item back |
| BoardItems.ScoredItems | src/pacman/board/BoardItem.java:26-28 | only DOT and BIG_DOT score, and no score is negative |
| Phases.ValueOf | src/pacman/ghost/Phase.java:12-14 | valueOf returns the phase with exactly that name, or IllegalArgumentException |
| Phases.ValueOfName | src/pacman/ghost/Phase.java:12-14 | valueOf recovers every phase from its name |
| Phases.DurationsOrdered | src/pacman/ghost/Phase.java:26-28 | every duration is positive, scatter is the shortest and frightened the longest |
| Entities.Make | src/pacman/game/Entity.java:30-43 | a null position or direction takes the default (0, 0) or UP |
| Entities.SettersChangeOneField | src/pacman/game/Entity.java:61-88 | each setter changes only its own field, a null argument changes nothing, and the constructor equals the two setters applied to the default |
| Entities.Equals | src/pacman/game/Entity.java:95-103 | equals holds exactly for the same position and direction |
| Entities.ToStringFields | src/pacman/game/Entity.java:124-128 | toString is the three fields joined by commas |
| Entities.ToStringParses | src/pacman/game/Entity.java:124-128 | toString splits into x, y and the direction's name, which parse back to the entity |
| Grids.Ext | src/pacman/board/PacmanBoard.java:125-135 | two boards with the same size and the same entry everywhere are equal |
| Grids.Fresh | src/pacman/board/PacmanBoard.java:24-45 | the constructor fails exactly on a non-positive dimension; otherwise walls are exactly the outer ring and every other cell is NONE |
| Grids.Get | src/pacman/board/PacmanBoard.java:125-135 | getEntry throws IndexOutOfBoundsException exactly off the board |
| Grids.Put | src/pacman/board/PacmanBoard.java:114-115 | the raw write changes exactly one cell |
| Grids.FindFromFacts | src/pacman/board/PacmanBoard.java:174-185 | the x-outer, y-inner scan finds a matching cell and no earlier one, or reports that none matches |
| Grids.FirstMatch | src/pacman/board/PacmanBoard.java:174-202 | getGhostSpawn and getPacmanSpawn return the first matching cell in scan order, or null exactly when there is none |
| Grids.ClearFirst | src/pacman/board/PacmanBoard.java:101-112 | clearing a spawn keeps the board's size |
| Grids.ClearFirstUnique | src/pacman/board/PacmanBoard.java:101-112 | with at most one occurrence, clearing it leaves none and changes nothing else |
| Grids.Set | src/pacman/board/PacmanBoard.java:90-116 | setEntry fails exactly off the board; otherwise the item is at p afterwards |
| Grids.SetOther | src/pacman/board/PacmanBoard.java:90-116 | setting an item that is not a spawn writes that one cell |
| Grids.SetGhostSpawn | src/pacman/board/PacmanBoard.java:90-116 | setting a ghost spawn leaves p as the only ghost spawn, and nothing else changes but the old spawn |
| Grids.SetPacmanSpawn | src/pacman/board/PacmanBoard.java:90-116 | setting a pacman spawn leaves p as the only pacman spawn and removes the ghost spawn too (the switch falls through) |
| Grids.SetKeepsSpawnsUnique | src/pacman/board/PacmanBoard.java:90-116 | setEntry keeps at most one spawn of each kind |
| Grids.Eat | src/pacman/board/PacmanBoard.java:147-168 | eatDot fails exactly off the board and keeps the board's size |
| Grids.EatEffect | src/pacman/board/PacmanBoard.java:147-168 | eatDot returns the item that was there, leaves no dot there, changes no other cell, and keeps the spawns |
| Grids.FreshIsEmpty | src/pacman/board/PacmanBoard.java:208-219 | a new board is empty and has no spawn |
| Grids.Reset | src/pacman/board/PacmanBoard.java:225-237 | reset turns NONE into DOT and BIG_DOT_SPAWN into BIG_DOT, cell by cell |
| Grids.ResetIdempotent | src/pacman/board/PacmanBoard.java:225-237 | reset is idempotent and keeps walls and spawns |
| Grids.ResetRefills | src/pacman/board/PacmanBoard.java:208-237 | after reset the board is empty exactly when it held only walls and spawns |
| Grids.Transpose | src/pacman/board/PacmanBoard.java:251-263 | the transpose swaps the coordinates of every cell |
| Grids.TransposeTwice | src/pacman/board/PacmanBoard.java:251-292 | transposing twice gives the board back |
| Grids.ToString | src/pacman/board/PacmanBoard.java:251-263 | toString fails exactly on a non-square board; otherwise its lines have character x of line y equal to the key of the entry at (y, x) |
| Grids.Equals | src/pacman/board/PacmanBoard.java:272-292 | different sizes give false; equals holds exactly on a square board against its transpose; on a wider board it throws exactly when row 0 matches up to x = height, on a taller one exactly when the top width by width square matches, and gives false otherwise |
| Grids.EqualsFrom | src/pacman/board/PacmanBoard.java:283-289 | the y-outer, x-inner scan: it throws at an index outside the array, gives false at a mismatch, true at the end |
| Grids.RunFrom | src/pacman/board/PacmanBoard.java:284-288 | a run of one row inside the array is scanned to its end, or gives false at a mismatch |
| Grids.RowsFrom | src/pacman/board/PacmanBoard.java:283-289 | rows inside the array are scanned to their end, or give false at a mismatch |
| Grids.EqualsScanOrder | src/pacman/board/PacmanBoard.java:283-289 | on equal non-square sizes, the first index outside the array is (height, 0) or (0, width); equals throws exactly when no mismatch comes before it in scan order, and is never true |
| Grids.EqualsIsTranspose | src/pacman/board/PacmanBoard.java:272-292 | on square boards, equals holds exactly when the other board is the transpose |
| Grids.EqualsNotReflexive | src/pacman/board/PacmanBoard.java:272-292 | a 2 by 2 board is not equal to itself |
| Boards.PacmanBoard.constructor | src/pacman/board/PacmanBoard.java:24-45 | the array holds the fresh board of that size |
| Boards.PacmanBoard.Copy | src/pacman/board/PacmanBoard.java:54-65 | the copy holds the same board in a new array |
| Boards.NewBoard | src/pacman/board/PacmanBoard.java:24-45 | construction fails with IllegalArgumentException exactly when Grids.Fresh does, and otherwise gives a fresh board holding it |
| Boards.PacmanBoard.GetEntry | src/pacman/board/PacmanBoard.java:125-135 | getEntry is Grids.Get on the array's board |
| Boards.PacmanBoard.Write | src/pacman/board/PacmanBoard.java:114-115 | the array write is Grids.Put |
| Boards.PacmanBoard.FindItem | src/pacman/board/PacmanBoard.java:174-185 | the nested loops return Grids.FirstMatch |
| Boards.PacmanBoard.GetGhostSpawn | src/pacman/board/PacmanBoard.java:174-185 | getGhostSpawn is the first ghost spawn |
| Boards.PacmanBoard.GetPacmanSpawn | src/pacman/board/PacmanBoard.java:191-202 | getPacmanSpawn is the first pacman spawn |
| Boards.PacmanBoard.Clear | src/pacman/board/PacmanBoard.java:101-112 | the spawn clearing is Grids.ClearFirst |
| Boards.PacmanBoard.SetEntry | src/pacman/board/PacmanBoard.java:90-116 | setEntry leaves Grids.Set's board, or fails and changes nothing |
| Boards.PacmanBoard.EatDot | src/pacman/board/PacmanBoard.java:147-168 | eatDot leaves Grids.Eat's board and returns its item, or fails and changes nothing |
| Boards.PacmanBoard.IsEmpty | src/pacman/board/PacmanBoard.java:208-219 | the loop answers Grids.IsEmpty |
| Boards.PacmanBoard.Reset | src/pacman/board/PacmanBoard.java:225-237 | the in-place loop leaves Grids.Reset's board |
| Boards.PacmanBoard.RowText | src/pacman/board/PacmanBoard.java:254-256 | the inner loop builds line y of Grids.ToString |
| Boards.PacmanBoard.ToString | src/pacman/board/PacmanBoard.java:251-263 | toString is Grids.ToString |
| Boards.PacmanBoard.Equals | src/pacman/board/PacmanBoard.java:272-292 | the nested loops, reading board[x][y] before the other's entry, are Grids.Equals |
| Text.NatToString | src/pacman/util/Position.java:96-98 | Integer.toString of a natural number is a non-empty digit string, with a leading zero only for zero itself |
| Text.DigitsValueOfNatToString | src/pacman/util/Position.java:96-98 | the digits of a natural number have its value |
| Text.NatToStringInjective | src/pacman/util/Position.java:96-98 | different naturals print differently |
| Text.ParseIntToString | src/pacman/game/GameReader.java:179 | Integer.parseInt undoes Integer.toString on every int |
| Text.IntToStringAvoids | src/pacman/game/GameWriter.java:28 | a printed int contains only digits and a minus sign |
| Text.IndexOf | src/pacman/game/GameReader.java:168 | indexOf finds the first occurrence of the separator |
| Text.SplitAll | src/pacman/game/GameReader.java:168 | splitting gives at least one field |
| Text.SplitPair | src/pacman/game/GameReader.java:168 | "key = value" splits back into key and value when the key cannot start a separator and the value holds none |
| Text.SplitJoin | src/pacman/game/GameReader.java:242 | fields joined by a one-character separator split back into the same fields when the last one is not empty |
| Text.SplitAllJoin | src/pacman/game/GameReader.java:242 | the same before trailing empty fields are dropped |
| Text.JoinSnoc | src/pacman/game/GameWriter.java:77-84 | joining one more field appends the separator and the field |
| Text.IndexOfAfter | src/pacman/game/GameReader.java:336 | a prefix that cannot start the separator only shifts where it is found |
| Text.IndexOfAtStart | src/pacman/game/GameReader.java:336 | a string that starts with the separator finds it at 0 |
| Text.IndexOfAvoiding | src/pacman/game/GameReader.java:336 | a string without the separator does not find it |
| Text.BelowIrreflexive | src/pacman/score/ScoreBoard.java:27 | the TreeMap's string order is irreflexive |
| Text.BelowTransitive | src/pacman/score/ScoreBoard.java:27 | the string order is transitive |
| Text.BelowTotal | src/pacman/score/ScoreBoard.java:27 | the string order is total |
| Text.BelowAsymmetric | src/pacman/score/ScoreBoard.java:27 | the string order is asymmetric |
| Text.LineEnd | src/pacman/game/GameReader.java:46 | readLine's line ends at the first line terminator |
| Text.TerminatedSnoc | src/pacman/game/GameWriter.java:24-25 | appending a line and a separator extends the terminated lines by one |
| Text.LinesOfTerminated | src/pacman/game/GameReader.java:46 | readLine gives back lines written each with a separator |
| Text.LinesOfJoined | src/pacman/game/GameReader.java:46 | readLine gives back lines joined by separators when the last one is not empty |
| Text.TerminatedThenJoined | src/pacman/game/GameWriter.java:77-84 | terminated lines followed by joined lines are all of them joined |
| Scores.KeyIndex | src/pacman/score/ScoreBoard.java:25-28 | every key of the map is the name of an entry of the table |
| Scores.NameIsKey | src/pacman/score/ScoreBoard.java:25-28 | every entry's name is a key of the map |
| Scores.KeysAfterFirst | src/pacman/score/ScoreBoard.java:25-28 | in a sorted table the first name is below every later name |
| Scores.PutContent | src/pacman/score/ScoreBoard.java:93-97 | put stores the value under the name and keeps every other key |
| Scores.PutSorted | src/pacman/score/ScoreBoard.java:93-97 | put keeps the table sorted by name |
| Scores.PutValid | src/pacman/score/ScoreBoard.java:93-97 | put of a valid name and a non-negative value keeps every entry valid |
| Scores.TableCanonical | src/pacman/score/ScoreBoard.java:157-165 | two sorted tables with the same map are the same table |
| Scores.Render | src/pacman/score/ScoreBoard.java:53-61 | each listed string is "name : value" of the entry at the same index |
| Scores.EntryStringSplits | src/pacman/score/ScoreBoard.java:53-61 | "name : value" splits back into the name and the digits |
| Scores.InsertByScore | src/pacman/score/ScoreBoard.java:71-82 | inserting adds the entry and keeps the others |
| Scores.InsertOrdered | src/pacman/score/ScoreBoard.java:71-82 | inserting a name below all others keeps the by-score order |
| Scores.SortByScore | src/pacman/score/ScoreBoard.java:71-82 | the sort is a permutation of the table |
| Scores.SortByScoreOrdered | src/pacman/score/ScoreBoard.java:71-82 | the sort is descending by value, ties ascending by name |
| Scores.ByScoreUnique | src/pacman/score/ScoreBoard.java:71-82 | any ordering of the table by that order is this sort, so it is the stream's stable sort |
| Scores.SameFirst | src/pacman/score/ScoreBoard.java:71-82 | two orderings by score of the same entries start alike |
| Scores.OrderedUnique | src/pacman/score/ScoreBoard.java:71-82 | two orderings by score of the same entries are equal |
| Scores.AcceptedOfOneMore | src/pacman/score/ScoreBoard.java:107-113 | setScores with one more key adds that key exactly when setScore accepts it |
| Scores.ScoreBoard.constructor | src/pacman/score/ScoreBoard.java:25-28 | score zero and no entries |
| Scores.ScoreBoard.SetScore | src/pacman/score/ScoreBoard.java:93-97 | a present valid name with a non-negative score is stored or overwritten; anything else changes nothing |
| Scores.ScoreBoard.SetScores | src/pacman/score/ScoreBoard.java:107-113 | every acceptable entry of the map is added to the table's map; a null map changes nothing |
| Scores.ScoreBoard.IncreaseScore | src/pacman/score/ScoreBoard.java:120-124 | only a positive amount is added, and the table stays |
| Scores.ScoreBoard.GetScore | src/pacman/score/ScoreBoard.java:130-132 | the current score, never negative |
| Scores.ScoreBoard.Reset | src/pacman/score/ScoreBoard.java:137-139 | the score returns to zero and the table stays |
| Scores.ScoreBoard.GetEntriesByName | src/pacman/score/ScoreBoard.java:53-61 | the loop lists the table in name order |
| Scores.ScoreBoard.GetEntriesByScore | src/pacman/score/ScoreBoard.java:71-82 | the listing is the by-score sort |
| Scores.ScoreBoard.Equals | src/pacman/score/ScoreBoard.java:157-165 | equals holds exactly for the same score and the same map |
| HunterRules.Copy | src/pacman/hunter/Hunter.java:47-53 | the copy has every field of the original, under its own kind |
| HunterRules.KindOf | src/pacman/hunter/Hunter.java:193-196 | HunterType.valueOf gives the kind with exactly that name, or IllegalArgumentException |
| HunterRules.KindOfTypeName | src/pacman/hunter/Hunter.java:193-196 | valueOf recovers every kind from its type name |
| HunterRules.ActivateOnce | src/pacman/hunter/Hunter.java:72-94 | a positive duration activates the special once and marks it used, Phil's never counts as active, and later activations change nothing |
| HunterRules.HitOutcome | src/pacman/hunter/Hunter.java:105-122 | a hit acts only on the same cell: the ghost dies when frightened or hit by Hungry's active special, the hunter dies otherwise, and Phasey's active special spares both |
| HunterRules.SpecialProtects | src/pacman/hunter/Hungry.java:34-46 | with the special active, Hungry and Phasey never die from a hit |
| HunterRules.IncreaseScore | src/pacman/score/ScoreBoard.java:120-124 | the score never falls |
| HunterRules.Step | src/pacman/hunter/Hunter.java:210-235 | a move keeps the board well-formed and its size |
| HunterRules.StepEffect | src/pacman/hunter/Hunter.java:210-235 | a move steps forward exactly when it can, eats there and scores the item's value, changes no other cell, and ticks a running special down by one |
| HunterRules.StepKeeps | src/pacman/hunter/Hunter.java:210-235 | a move keeps the spawns unique and never lowers the score |
| HunterRules.Move | src/pacman/hunter/Speedy.java:46-52 | a move by kind keeps the board well-formed |
| HunterRules.SpeedySteps | src/pacman/hunter/Speedy.java:46-52 | Speedy steps twice with two or more ticks of special left and once otherwise; every other hunter steps once |
| HunterRules.MoveTicks | src/pacman/hunter/Speedy.java:46-52 | a move counts the special down by one tick, or by two for Speedy's double step |
| HunterRules.Reset | src/pacman/hunter/Hunter.java:132-138 | reset gives the initial hunter of the same kind |
| HunterRules.Equals | src/pacman/hunter/Hunter.java:151-161 | equals holds exactly when all fields but the kind agree |
| HunterRules.FieldsJoined | src/pacman/hunter/Hunter.java:193-196 | toString is the five fields joined by commas |
| HunterRules.FieldsAvoidComma | src/pacman/hunter/Hunter.java:193-196 | there are five non-empty fields, none containing a comma |
| HunterRules.ToStringParses | src/pacman/hunter/Hunter.java:193-196 | toString splits back into its fields, and the duration parses back |
| Hunters.Hunter.constructor | src/pacman/hunter/Hunter.java:32-36 | a new hunter is the initial state of its kind |
| Hunters.Hunter.Copy | src/pacman/hunter/Hunter.java:47-53 | the copy constructor is HunterRules.Copy |
| Hunters.Hunter.SetPosition | src/pacman/game/Entity.java:61-65 | only the position changes, and a null one changes nothing |
| Hunters.Hunter.SetDirection | src/pacman/game/Entity.java:84-88 | only the direction changes, and a null one changes nothing |
| Hunters.Hunter.ActivateSpecial | src/pacman/hunter/Hunter.java:72-77 | activateSpecial is HunterRules.ActivateSpecial |
| Hunters.Hunter.IsSpecialActive | src/pacman/hunter/Phil.java:28-30 | the kind's own isSpecialActive (always false for Phil) |
| Hunters.Hunter.BaseHit | src/pacman/hunter/Hunter.java:105-122 | the default hit policy on both objects |
| Hunters.Hunter.Hit | src/pacman/hunter/Phasey.java:33-39 | a null ghost throws NullPointerException and changes nothing; otherwise each kind's hit rule applies to both objects |
| Hunters.Hunter.Step | src/pacman/hunter/Hunter.java:210-235 | the hunter, the board and the score move as HunterRules.Step says, and the table stays |
| Hunters.Hunter.Move | src/pacman/hunter/Speedy.java:46-52 | the hunter, the board and the score move as HunterRules.Move says |
| Hunters.Hunter.Reset | src/pacman/hunter/Hunter.java:132-138 | reset is HunterRules.Reset |
| GhostRules.KindsDistinguishable | src/pacman/ghost/Blinky.java:18-29 | every kind has its own colour and type name |
| GhostRules.SetPhase | src/pacman/ghost/Ghost.java:38-48 | a null phase keeps the phase, a negative duration becomes 0, and nothing else changes |
| GhostRules.NextPhaseCycle | src/pacman/ghost/Ghost.java:65-78 | nextPhase counts down; at the end chase gives way to scatter and the other two to chase, at full duration |
| GhostRules.ScatterLastsTen | src/pacman/ghost/Ghost.java:65-78 | a ghost left alone scatters for exactly ten ticks, then chases |
| GhostRules.IterateScatter | src/pacman/ghost/Ghost.java:65-78 | the same, at every tick from zero on |
| GhostRules.Reset | src/pacman/ghost/Ghost.java:118-124 | reset gives the initial ghost of the same kind |
| GhostRules.PhaseInfoParses | src/pacman/ghost/Ghost.java:84-86 | "PHASE:duration" splits back into the phase and the duration |
| GhostRules.ToStringParses | src/pacman/ghost/Ghost.java:169-173 | toString splits into the entity's three fields and the phase information |
| GhostRules.Equals | src/pacman/ghost/Ghost.java:132-142 | equals holds exactly when all fields but the kind agree |
| GhostRules.JavaRem | src/pacman/ghost/Ghost.java:183-191 | Java's % takes the dividend's sign and agrees with Euclidean remainder on non-negative values |
| GhostRules.FrightenedPosition | src/pacman/ghost/Ghost.java:183-191 | the frightened target lies within three board sizes to the left of and above the board's far edge |
| GhostRules.FrightenedOnBoard | src/pacman/ghost/Ghost.java:183-191 | for a ghost on the board, the frightened target lies within one board size of the board |
| GhostRules.ChaseTargets | src/pacman/ghost/Ghost.java:201-212 | in chase, Blinky aims at the hunter, Pinky four cells ahead, Inky two behind, and Clyde at the hunter from eight cells away and at its home otherwise |
| GhostRules.OffPhaseTargets | src/pacman/ghost/Clyde.java:41-86 | out of phase, Blinky's, Inky's and Pinky's targets are their own cell; Clyde's are phase-independent |
| GhostRules.ScatterTargets | src/pacman/ghost/Inky.java:77-86 | in scatter each kind aims at its own corner outside the board, and the four corners differ |
| GhostRules.Rank | src/pacman/ghost/Ghost.java:226-264 | each direction has its place in the scan order |
| GhostRules.ConsiderScanned | src/pacman/ghost/Ghost.java:226-264 | one pass of the loop keeps the best-so-far invariant |
| GhostRules.ScanPrefixScanned | src/pacman/ghost/Ghost.java:226-264 | after i passes the choice is the best of the first i directions |
| GhostRules.ChooseMoveBest | src/pacman/ghost/Ghost.java:226-264 | the ghost stays exactly when no direction is allowed; otherwise it steps in an allowed direction closest to the target, later directions winning ties |
| GhostRules.ChooseMoveStep | src/pacman/ghost/Ghost.java:226-264 | a step lands on a pathable cell one away, and never reverses the ghost |
| GhostRules.MoveKeeps | src/pacman/ghost/Ghost.java:275-280 | a move changes only the entity and the phase counter, and keeps the duration positive |
| Ghosts.Ghost.constructor | src/pacman/ghost/Ghost.java:25-29 | a new ghost is alive, scattering, at (0, 0) facing up |
| Ghosts.Ghost.Spawned | src/pacman/game/PacmanGame.java:46-65 | a new ghost of the kind is placed on the spawn |
| Ghosts.Ghost.SetPosition | src/pacman/game/Entity.java:61-65 | only the position changes, and a null one changes nothing |
| Ghosts.Ghost.SetDirection | src/pacman/game/Entity.java:84-88 | only the direction changes, and a null one changes nothing |
| Ghosts.Ghost.SetPhase | src/pacman/ghost/Ghost.java:38-48 | setPhase is GhostRules.SetPhase |
| Ghosts.Ghost.NextPhase | src/pacman/ghost/Ghost.java:65-78 | nextPhase is GhostRules.NextPhase |
| Ghosts.Ghost.Kill | src/pacman/ghost/Ghost.java:103-105 | only the dead flag is set |
| Ghosts.Ghost.Reset | src/pacman/ghost/Ghost.java:118-124 | reset is GhostRules.Reset |
| Ghosts.Ghost.SetMovePosition | src/pacman/ghost/Ghost.java:226-264 | the loop over the four directions leaves the ghost at GhostRules.ChooseMove for its target |
| Ghosts.Ghost.Move | src/pacman/ghost/Ghost.java:275-280 | move is nextPhase then setMovePosition |
| GameRules.ResetGhosts | src/pacman/game/PacmanGame.java:256-261 | resetAllGhosts keeps four ghosts |
| GameRules.NewGame | src/pacman/game/PacmanGame.java:46-65 | the constructor gives a consistent game |
| GameRules.NewGameGhosts | src/pacman/game/PacmanGame.java:46-65 | the four new ghosts are one per kind in slot order, alive and scattering, on the ghost spawn or else at (0, 0) |
| GameRules.SetLives | src/pacman/game/PacmanGame.java:138-140 | a non-negative value is stored, a negative one becomes 0, and nothing else changes |
| GameRules.SetLevel | src/pacman/game/PacmanGame.java:121-123 | a non-negative value is stored, a negative one becomes 0, and nothing else changes |
| GameRules.FrightenedEverywhere | src/pacman/game/PacmanGame.java:246-250 | every ghost is frightened for thirty ticks and nothing else changes |
| GameRules.HunterMoves | src/pacman/game/PacmanGame.java:182 | the hunter's move keeps the game consistent |
| GameRules.HitSlot | src/pacman/game/PacmanGame.java:186-192 | a hit keeps the game consistent |
| GameRules.MoveSlot | src/pacman/game/PacmanGame.java:188-190 | a ghost's move keeps the game consistent |
| GameRules.RespawnSlot | src/pacman/game/PacmanGame.java:194-198 | a respawn keeps the game consistent |
| GameRules.Round | src/pacman/game/PacmanGame.java:185-199 | one ghost's round keeps the game consistent |
| GameRules.Rounds | src/pacman/game/PacmanGame.java:185-199 | the rounds keep the game consistent |
| GameRules.ResetEntities | src/pacman/game/PacmanGame.java:256-270 | resetting the entities keeps the game consistent |
| GameRules.LoseLife | src/pacman/game/PacmanGame.java:202-206 | losing a life keeps the game consistent |
| GameRules.NextLevel | src/pacman/game/PacmanGame.java:209-218 | the level step keeps the game consistent |
| GameRules.Tick | src/pacman/game/PacmanGame.java:176-219 | a tick keeps the game consistent |
| GameRules.TickWithoutLives | src/pacman/game/PacmanGame.java:177-179 | with no lives left, tick changes nothing |
| GameRules.RoundFacts | src/pacman/game/PacmanGame.java:185-199 | a round keeps the board, counters and table, changes only its own slot, never lowers the score, and leaves its ghost alive |
| GameRules.RoundsFacts | src/pacman/game/PacmanGame.java:185-199 | the four rounds keep the same, and every visited ghost is alive |
| GameRules.TickOutcome | src/pacman/game/PacmanGame.java:176-219 | after a tick with lives left, all five entities are alive; a life is lost exactly when the hunter died; a cleared board starts the next level at tick 0 on a refilled board, otherwise the tick advances; the score never falls |
| GameRules.Reset | src/pacman/game/PacmanGame.java:231-239 | reset keeps the game consistent |
| GameRules.ResetOutcome | src/pacman/game/PacmanGame.java:231-239 | a reset game has four lives, level, score and tick zero, a refilled board and every entity new on its spawn; the table, title and author stay |
| GameRules.ResetIdempotent | src/pacman/game/PacmanGame.java:231-239 | resetting twice is resetting once |
| Games.SpawnGhosts | src/pacman/game/PacmanGame.java:56-64 | four new, distinct ghosts, one of each kind on the spawn |
| Games.PacmanGame.GhostStates | src/pacman/game/PacmanGame.java:154-156 | the ghosts' states in slot order |
| Games.PacmanGame.constructor | src/pacman/game/PacmanGame.java:46-65 | the new game is GameRules.NewGame on the hunter and the board passed in |
| Games.PacmanGame.SetLives | src/pacman/game/PacmanGame.java:138-140 | setLives is GameRules.SetLives |
| Games.PacmanGame.SetLevel | src/pacman/game/PacmanGame.java:121-123 | setLevel is GameRules.SetLevel |
| Games.PacmanGame.GetGhosts | src/pacman/game/PacmanGame.java:154-156 | getGhosts returns the list itself, not a copy |
| Games.PacmanGame.SlotFrame | src/pacman/game/PacmanGame.java:185-199 | when only the hunter, one ghost and the scores change, the game's state changes in those only |
| Games.PacmanGame.EntitiesFrame | src/pacman/game/PacmanGame.java:202-218 | when the entities stay, only the counters, the board and the scores change |
| Games.PacmanGame.SetGhostsFrightened | src/pacman/game/PacmanGame.java:246-250 | the loop is GameRules.SetGhostsFrightened |
| Games.PacmanGame.RespawnGhost | src/pacman/game/PacmanGame.java:195-196 | one ghost is reset and put on the ghost spawn |
| Games.PacmanGame.ResetAllGhosts | src/pacman/game/PacmanGame.java:256-261 | resetAllGhosts is GameRules.ResetGhosts |
| Games.PacmanGame.ResetHunter | src/pacman/game/PacmanGame.java:267-270 | the hunter is reset and put on the pacman spawn |
| Games.PacmanGame.ResetEntities | src/pacman/game/PacmanGame.java:256-270 | resetAllGhosts then resetHunter |
| Games.PacmanGame.RefillBoard | src/pacman/game/PacmanGame.java:212-214 | board.reset then the entities reset |
| Games.PacmanGame.HitSlot | src/pacman/game/PacmanGame.java:186 | hunter.hit on the slot's ghost is GameRules.HitSlot |
| Games.PacmanGame.MoveSlot | src/pacman/game/PacmanGame.java:188-190 | the slot's ghost moves as GameRules.MoveSlot says |
| Games.PacmanGame.RespawnSlot | src/pacman/game/PacmanGame.java:194-198 | a dead ghost respawns and 200 is scored, as GameRules.RespawnSlot says |
| Games.PacmanGame.Round | src/pacman/game/PacmanGame.java:185-199 | the loop body is GameRules.Round |
| Games.PacmanGame.MoveHunter | src/pacman/game/PacmanGame.java:182 | hunter.move(this) is GameRules.HunterMoves |
| Games.PacmanGame.LoseLife | src/pacman/game/PacmanGame.java:202-206 | step 6 is GameRules.LoseLife |
| Games.PacmanGame.NextLevel | src/pacman/game/PacmanGame.java:209-218 | steps 7 and 8 are GameRules.NextLevel |
| Games.PacmanGame.PlayRounds | src/pacman/game/PacmanGame.java:185-199 | the loop over the four ghosts is GameRules.Rounds |
| Games.PacmanGame.Play | src/pacman/game/PacmanGame.java:182-199 | steps 1 to 5 |
| Games.PacmanGame.Tick | src/pacman/game/PacmanGame.java:176-219 | tick is GameRules.Tick |
| Games.PacmanGame.TickAlive | src/pacman/game/PacmanGame.java:182-218 | tick with lives left is steps 1 to 8 in order |
| Games.PacmanGame.Reset | src/pacman/game/PacmanGame.java:231-239 | reset is GameRules.Reset |
| SaveFormat.Line | src/pacman/game/GameReader.java:115-116 | the line at an index, or NullPointerException past the end |
| SaveFormat.Field | src/pacman/game/GameReader.java:168-171 | a field of a split, or ArrayIndexOutOfBoundsException past the end |
| SaveFormat.Int | src/pacman/game/GameReader.java:179 | parseInt succeeds exactly on an optional sign and ASCII decimal digits denoting an int, and otherwise throws NumberFormatException |
| SaveFormat.Dimensions | src/pacman/game/GameReader.java:115-123 | the dimension line has exactly two fields, each parsing to a positive int |
| SaveFormat.FillRow | src/pacman/game/GameReader.java:129-132 | the row's setEntry calls keep the board's size |
| SaveFormat.Rows | src/pacman/game/GameReader.java:126-133 | the rows read keep the board's size and need one line per row |
| SaveFormat.BoardBlock | src/pacman/game/GameReader.java:110-136 | readBoard reads a well-formed board ending right after its last row |
| SaveFormat.Coordinates | src/pacman/game/GameReader.java:246-250 | the coordinates parse to a cell on the board |
| SaveFormat.ReadHunter | src/pacman/game/GameReader.java:237-281 | readHunter reads five fields into a live hunter of the named type on the board, with the special used exactly when the duration is positive |
| SaveFormat.ReadGhost | src/pacman/game/GameReader.java:289-319 | readGhost reads four fields into a live ghost of the slot's kind on the board |
| SaveFormat.KeyCode | src/pacman/game/GameReader.java:169-213 | each known key adds its place in the switch, from 1 to 10 |
| SaveFormat.Counter | src/pacman/game/GameReader.java:179-190 | lives, level and score are ints of at least zero |
| SaveFormat.StoreValue | src/pacman/game/GameReader.java:169-213 | a known key adds its code to the running sum |
| SaveFormat.Assign | src/pacman/game/GameReader.java:167-213 | one assignment line keeps four ghosts |
| SaveFormat.Assigned | src/pacman/game/GameReader.java:166-214 | the loop needs the block's remaining lines |
| SaveFormat.AssignedFrom | src/pacman/game/GameReader.java:166-214 | the same, for a line read |
| SaveFormat.AssignedLine | src/pacman/game/GameReader.java:166-214 | the same, for a line applied |
| SaveFormat.GameBlock | src/pacman/game/GameReader.java:148-229 | readGame gives a consistent game on the board, with no table, tick zero and non-negative counters |
| SaveFormat.ScoreEntry | src/pacman/game/GameReader.java:336-340 | an entry line's name is not among those read before |
| SaveFormat.ScoreEntries | src/pacman/game/GameReader.java:335-343 | the loop reads one entry per remaining line |
| SaveFormat.ScoreEntriesAfter | src/pacman/game/GameReader.java:335-343 | the same, after one line |
| SaveFormat.ScoreEntriesNext | src/pacman/game/GameReader.java:335-343 | one pass fails with its line or goes on to the next |
| SaveFormat.ScoreEntriesUnique | src/pacman/game/GameReader.java:336-340 | the entries read never repeat a name |
| SaveFormat.NewNameUnique | src/pacman/game/GameReader.java:336-340 | a new name keeps the names distinct |
| SaveFormat.ToMapSnoc | src/pacman/game/GameReader.java:340 | putting a new name extends the map by it |
| SaveFormat.StoreOne | src/pacman/score/ScoreBoard.java:107-113 | storing one entry keeps a valid table and adds the entry exactly when it is acceptable |
| SaveFormat.AcceptedFirst | src/pacman/score/ScoreBoard.java:107-113 | the acceptable part of the map, taken apart at its first entry |
| SaveFormat.StoreAllTable | src/pacman/score/ScoreBoard.java:107-113 | storing distinct entries adds exactly the acceptable ones, in any order |
| SaveFormat.Matches | src/pacman/game/GameReader.java:348-352 | the closing check passes exactly when each line read equals the listing at its index |
| SaveFormat.MatchesPrefix | src/pacman/game/GameReader.java:348-352 | it passes exactly when the lines read are a prefix of getEntriesByName |
| SaveFormat.ScoresBlock | src/pacman/game/GameReader.java:328-353 | readScores changes only the table, and keeps it valid |
| SaveFormat.DefaultBoard | src/pacman/game/GameReader.java:37 | the placeholder board is well-formed |
| SaveFormat.DefaultsAreNew | src/pacman/game/GameReader.java:37-39 | the placeholders are a new 1 by 1 board and a new game titled "title" by "author" |
| SaveFormat.Start | src/pacman/game/GameReader.java:37-44 | the reading starts consistent at stage 0 |
| SaveFormat.Step | src/pacman/game/GameReader.java:46-73 | one pass of the loop moves forward and keeps the reading consistent |
| SaveFormat.Blocks | src/pacman/game/GameReader.java:46-73 | the loop keeps the reading consistent |
| SaveFormat.BlocksFrom | src/pacman/game/GameReader.java:46-73 | the same, from a line in the input |
| SaveFormat.BlocksNext | src/pacman/game/GameReader.java:46-73 | the loop fails with a failing pass, and otherwise goes on from where the pass ends |
| SaveFormat.Read | src/pacman/game/GameReader.java:33-89 | read fails only with UnpackableException, and otherwise gives a consistent game with a valid table |
| SaveFormat.GameValues | src/pacman/game/GameWriter.java:43-67 | the writer's ten values |
| SaveFormat.GameValuesListed | src/pacman/game/GameWriter.java:43-67 | the ten values are the getters' results in key order |
| SaveFormat.GameLines | src/pacman/game/GameWriter.java:43-67 | the [Game] block has ten lines |
| SaveFormat.Write | src/pacman/game/GameWriter.java:20-88 | write fails exactly on a non-square board, with IndexOutOfBoundsException |
| SaveFormat.TerminatedAppend | src/pacman/game/GameWriter.java:20-75 | terminated lines concatenate |
| SaveFormat.JoinThenBreak | src/pacman/game/GameWriter.java:32-33 | joined lines with a final separator are terminated lines |
| SaveFormat.SaveLinesUnbroken | src/pacman/game/GameWriter.java:20-88 | no written line holds a line break when the title and the author hold none |
| SaveFormat.WriteSplits | src/pacman/game/GameWriter.java:20-88 | the text is the head lines, each terminated, then the entries joined |
| SaveFormat.LinesOfTerminatedThenJoined | src/pacman/game/GameReader.java:46 | reading that text line by line gives all its lines back |
| SaveFormat.WrittenLines | src/pacman/game/GameWriter.java:20-88 | the text written reads back as the header, dimension and board lines, a blank, the [Game] block, a blank, [Scores] and the entries |
| SaveFormat.GameValueWhole | src/pacman/game/GameWriter.java:43-67 | no value written contains " = " and none is empty |
| SaveFormat.GameLineSplits | src/pacman/game/GameReader.java:168 | each written [Game] line splits into its key and its value |
| SaveFormat.Gathered | src/pacman/game/GameReader.java:166-214 | what reading the k-th written line stores |
| SaveFormat.KeysDistinct | src/pacman/game/GameReader.java:169-213 | the ten keys differ |
| SaveFormat.KeyCodes | src/pacman/game/GameReader.java:169-213 | each written key is known, with code one more than its place |
| SaveFormat.AssignTextBack | src/pacman/game/GameReader.java:170-177 | the title and author lines read back |
| SaveFormat.AssignCounterBack | src/pacman/game/GameReader.java:178-192 | the lives, level and score lines read back |
| SaveFormat.AssignKnown | src/pacman/game/GameReader.java:169-213 | a known key stores its value |
| SaveFormat.StoreGhost | src/pacman/game/GameReader.java:197-212 | a ghost line stores the ghost in its slot and adds its code |
| SaveFormat.AssignGhostLine | src/pacman/game/GameReader.java:197-212 | the same, from the line |
| SaveFormat.StoreHunter | src/pacman/game/GameReader.java:193-196 | a hunter line stores the hunter and adds 6 |
| SaveFormat.HunterValueBack | src/pacman/game/GameReader.java:237-281 | the written hunter reads back revived |
| SaveFormat.AssignHunterBack | src/pacman/game/GameReader.java:193-196 | the hunter line reads back |
| SaveFormat.GhostValueBack | src/pacman/game/GameReader.java:289-319 | each written ghost reads back alive into its slot |
| SaveFormat.AssignGhostBack | src/pacman/game/GameReader.java:197-212 | each ghost line reads back |
| SaveFormat.GatheredGhost | src/pacman/game/GameReader.java:197-212 | what a ghost line stores |
| SaveFormat.AssignBack | src/pacman/game/GameReader.java:166-214 | reading the k-th written line stores what the writer put there |
| SaveFormat.GatheredUpTo | src/pacman/game/GameReader.java:166-214 | what the first n written lines store |
| SaveFormat.AssignedStep | src/pacman/game/GameReader.java:166-214 | a line that assigns leaves the rest of the loop to the next one |
| SaveFormat.AssignedStops | src/pacman/game/GameReader.java:166-214 | the loop fails with a missing line or a failing assignment |
| SaveFormat.LineBack | src/pacman/game/GameReader.java:166-214 | each written line takes the reading one line further |
| SaveFormat.AssignedChain | src/pacman/game/GameReader.java:166-214 | a chain of successful lines reads to its end |
| SaveFormat.GatheredAll | src/pacman/game/GameReader.java:216 | the ten written lines store every value, and the codes add up to 55 |
| SaveFormat.GameBlockBack | src/pacman/game/GameReader.java:148-229 | the written [Game] block reads back as the game restored on the board |
| SaveFormat.GameLinesAssign | src/pacman/game/GameReader.java:166-214 | the written lines take the reading from nothing to all of the game's values |
| SaveFormat.CoordinatesBack | src/pacman/game/GameReader.java:246-250 | written coordinates on the board read back |
| SaveFormat.ReadHunterBack | src/pacman/game/GameReader.java:237-281 | the hunter's toString reads back as the hunter revived |
| SaveFormat.ReadGhostBack | src/pacman/game/GameReader.java:289-319 | a ghost's toString reads back alive |
| SaveFormat.SortedUnique | src/pacman/score/ScoreBoard.java:25-28 | a name-sorted table repeats no name |
| SaveFormat.NotYetRead | src/pacman/game/GameReader.java:336-340 | reading a sorted table's entries in order never meets a name twice |
| SaveFormat.TableAccepted | src/pacman/score/ScoreBoard.java:107-113 | setScores accepts every entry of a valid table |
| SaveFormat.EntryLineReads | src/pacman/game/GameReader.java:336-340 | an entry line with a new name reads back as the entry |
| SaveFormat.EntryLinesRead | src/pacman/game/GameReader.java:335-343 | each line of getEntriesByName reads back as its entry |
| SaveFormat.ScoreEntriesBack | src/pacman/game/GameReader.java:335-343 | the lines of getEntriesByName read back as the table |
| SaveFormat.ScoresBlockBack | src/pacman/game/GameReader.java:328-353 | the written [Scores] block reads back as the table |
| GameReader.LineReader.constructor | src/pacman/game/GameReader.java:40 | the reader starts at the first line |
| GameReader.LineReader.ReadLine | src/pacman/game/GameReader.java:46 | readLine gives the next line and moves on, or null at the end |
| GameReader.ReadBoard | src/pacman/game/GameReader.java:110-136 | readBoard is SaveFormat.BoardBlock |
| GameReader.ReadRows | src/pacman/game/GameReader.java:126-133 | the row loop is SaveFormat.Rows |
| GameReader.FillRow | src/pacman/game/GameReader.java:129-132 | the inner loop is SaveFormat.FillRow, or IllegalArgumentException on a non-key |
| GameReader.ReadHunter | src/pacman/game/GameReader.java:237-281 | readHunter is SaveFormat.ReadHunter |
| GameReader.ReadGhost | src/pacman/game/GameReader.java:289-319 | readGhost is SaveFormat.ReadGhost |
| GameReader.Gathered | src/pacman/game/GameReader.java:153-164 | the locals as assignments |
| GameReader.Assignment | src/pacman/game/GameReader.java:167-213 | one pass of the switch is SaveFormat.Assign |
| GameReader.AssignGhost | src/pacman/game/GameReader.java:197-212 | a ghost case is SaveFormat.ReadGhost into its slot |
| GameReader.WithGhostGathered | src/pacman/game/GameReader.java:197-212 | a new ghost in one slot's variable changes that ghost only |
| GameReader.AssignNext | src/pacman/game/GameReader.java:166-214 | one pass of the loop is one line of SaveFormat.Assigned |
| GameReader.ReadAssignments | src/pacman/game/GameReader.java:166-214 | the loop is SaveFormat.Assigned and reads ten lines |
| GameReader.ReadGame | src/pacman/game/GameReader.java:148-229 | readGame is SaveFormat.GameBlock |
| GameReader.NewGame | src/pacman/game/GameReader.java:218-226 | the new game with level, lives, score and the four ghosts set |
| GameReader.SetGhosts | src/pacman/game/GameReader.java:222-226 | the four set calls replace the ghosts through the list getGhosts returns |
| GameReader.ReadScores | src/pacman/game/GameReader.java:328-353 | readScores is SaveFormat.ScoresBlock |
| GameReader.StoreScores | src/pacman/game/GameReader.java:346 | setScores adds the entries read |
| GameReader.ReadEntry | src/pacman/game/GameReader.java:336-340 | one line of the loop is one step of SaveFormat.ScoreEntries |
| GameReader.ReadEntries | src/pacman/game/GameReader.java:335-343 | the loop is SaveFormat.ScoreEntries and reads to the end |
| GameReader.CheckOrder | src/pacman/game/GameReader.java:348-352 | the check passes exactly when the lines read are a prefix of the listing |
| GameReader.Dispatch | src/pacman/game/GameReader.java:47-72 | the loop body is SaveFormat.Step |
| GameReader.Placeholders | src/pacman/game/GameReader.java:37-39 | the placeholders are SaveFormat.Start |
| GameReader.Block | src/pacman/game/GameReader.java:46-73 | one pass keeps the rest of the reading as SaveFormat.Blocks says |
| GameReader.Read | src/pacman/game/GameReader.java:33-89 | read is SaveFormat.Read |
| GameWriter.AppendLine | src/pacman/game/GameWriter.java:24-25 | appending a line and a separator |
| GameWriter.Write | src/pacman/game/GameWriter.java:20-88 | write is SaveFormat.Write |
| GameWriter.AppendBoard | src/pacman/game/GameWriter.java:24-33 | the [Board] block, or the exception of toString |
| GameWriter.AppendGame | src/pacman/game/GameWriter.java:36-75 | the [Game] block from the getters, between blank lines, then [Scores] |
| GameWriter.AssignedGame | src/pacman/game/GameWriter.java:43-67 | the getters' values give SaveFormat.GameLines |
| GameWriter.Assigned | src/pacman/game/GameWriter.java:43-67 | ten assignment lines |
| GameWriter.AppendAssignments | src/pacman/game/GameWriter.java:36-75 | the appends give the assignment lines between the blanks and headers |
| GameWriter.AppendAssignment | src/pacman/game/GameWriter.java:45-46 | one assignment appended |
| GameWriter.AppendEntries | src/pacman/game/GameWriter.java:77-84 | the loop joins getEntriesByName with separators |
| GameWriter.EntryAppended | src/pacman/game/GameWriter.java:77-84 | one pass of the loop keeps its invariant |
| RoundTrip.KeyRow | src/pacman/board/PacmanBoard.java:251-263 | a text row of the board |
| RoundTrip.FillStep | src/pacman/game/GameReader.java:129-132 | one setEntry of a read row keeps the board filled up to that cell |
| RoundTrip.FillRowBack | src/pacman/game/GameReader.java:129-132 | a key row fills its row of the board |
| RoundTrip.KeyRowKeys | src/pacman/game/GameReader.java:129-132 | every character of a key row is a key |
| RoundTrip.TrimKeyRow | src/pacman/game/GameReader.java:127 | trim leaves a key row unchanged |
| RoundTrip.RowsBack | src/pacman/game/GameReader.java:126-133 | the key rows read back as the board |
| RoundTrip.RowFilled | src/pacman/game/GameReader.java:126-133 | one key row read fills one more row |
| RoundTrip.RowsNext | src/pacman/game/GameReader.java:126-133 | one row of the loop leaves the rest to the next line |
| RoundTrip.DimensionsBack | src/pacman/game/GameReader.java:115-123 | the written dimension line reads back |
| RoundTrip.TextLineTransposed | src/pacman/board/PacmanBoard.java:251-263 | line y of toString is row y of the transpose |
| RoundTrip.TextLinesTransposed | src/pacman/board/PacmanBoard.java:251-263 | toString's lines are the key rows of the transpose |
| RoundTrip.FreshFilled | src/pacman/game/GameReader.java:123 | a new board is filled up to its first cell |
| RoundTrip.BoardBlockBack | src/pacman/game/GameReader.java:110-136 | the written [Board] block reads back as the transposed board |
| RoundTrip.BoardBlockRead | src/pacman/game/GameReader.java:110-136 | a dimension line and key rows read back as the board |
| RoundTrip.SaveLinesLaid | src/pacman/game/GameWriter.java:20-88 | where each block lies in the written lines |
| RoundTrip.Advance | src/pacman/game/GameReader.java:46-73 | a pass that succeeds leaves the rest of the loop to the next line |
| RoundTrip.BlankStep | src/pacman/game/GameReader.java:48-50 | a blank line only counts a stage |
| RoundTrip.BoardStep | src/pacman/game/GameReader.java:54-58 | [Board] at stage 0 reads the board |
| RoundTrip.GameStep | src/pacman/game/GameReader.java:59-63 | [Game] at stage 2 reads the game |
| RoundTrip.ScoresStep | src/pacman/game/GameReader.java:64-68 | [Scores] at stage 4 reads the scores |
| RoundTrip.BoardLaidRead | src/pacman/game/GameReader.java:46-73 | the written [Board] block passes the loop |
| RoundTrip.GameLaidRead | src/pacman/game/GameReader.java:46-73 | the written [Game] block passes the loop |
| RoundTrip.ScoresLaidRead | src/pacman/game/GameReader.java:46-73 | the written [Scores] block passes the loop |
| RoundTrip.BoardPasses | src/pacman/game/GameReader.java:46-73 | the board block and its blank line take the stage from 0 to 2 |
| RoundTrip.GamePasses | src/pacman/game/GameReader.java:46-73 | the game block and its blank line take the stage from 2 to 4 |
| RoundTrip.ScoresPasses | src/pacman/game/GameReader.java:46-89 | the scores block ends the loop at stage 5 |
| RoundTrip.PassesRead | src/pacman/game/GameReader.java:33-89 | the three passes give read's result |
| RoundTrip.SaveLinesRead | src/pacman/game/GameReader.java:33-89 | read on a save's lines gives the game restored on the transposed board, with its table |
| RoundTrip.WriteRead | src/pacman/game/GameWriter.java:20-88 | for a saveable game, write succeeds, and read on its text gives the game back restored on the transposed board with its high scores |

## Left out

- I/O: the `Reader` is a sequence of lines, and the `Writer` receives the
  written string. `System.lineSeparator()` is "\n". `IOException` cannot
  happen in the model. `BufferedReader` line splitting is modelled by
  `Text.Lines`, which breaks at "\n" or "\r".
- `hashCode` of Position, Entity, board, hunter, ghost and score board: it
  has no effect on the engine's behaviour.
- The display layer (`src/pacman/display`) and `Launcher`: the user
  interface is not part of this model.
- Floating point: `Position.distance` is modelled by the squared distance.
  The engine only compares distances with each other and with whole
  numbers, and on integer coordinates those comparisons give the same
  answers on the squares.
- Scores.ScoreBoard.IncreaseScore: does not model the 32-bit overflow of
  the score, because the score is unbounded in the model.
- GameRules.NextLevel: does not model the 32-bit overflow of the level,
  because the level is unbounded in the model. The same holds for the tick
  counter that `GameRules.Tick` advances; a wrap of the tick would keep its
  parity, so the ghosts' every-other-tick moves would not change.
- GhostRules.FrightenedPosition: does not model the 32-bit overflow of
  `x * 24` and `y * 36`, because coordinates are unbounded in the model.
- GameReader.Read: does not model the 32-bit overflow of the stage
  counter, which would need about four billion blank lines.
- Object identity of the placeholder hunter in `read`: a `[Game]` block
  that names no hunter keeps the placeholder object. The model keeps its
  state but does not compare its identity.
- RoundTrip.WriteRead: requires `Saveable`. Its parts are:
  - a square board;
  - spawns that survive being read in;
  - a title and author that split as one field;
  - entities on the board;
  - counters that fit an int.

  For other games the source itself does not round-trip.
- SaveFormat.Int: accepts only ASCII decimal digits. `Integer.parseInt`
  also accepts the other Unicode decimal digits (through
  `Character.digit`), so a save that writes a number in, say, Arabic-Indic
  digits reads in Java and fails in the model. The writer only produces
  ASCII digits, so the round trip is not affected.
- `equals` against an object of another class, and `null` arguments other
  than those the entity setters, `setPhase`, `setScore`, `setScores` and
  `hit` handle: the model is typed, so these inputs do not arise.
- The `Moveable` interface, `GhostType`, `HunterType` and
  `UnpackableException` are modelled only as the kind tags and error values
  they stand for.
