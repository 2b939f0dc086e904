/** What a board cell holds (pacman.board.BoardItem). */
module BoardItems {
  import opened Wrappers

  /** NONE, WALL, DOT, BIG_DOT, BIG_DOT_SPAWN, GHOST_SPAWN and PACMAN_SPAWN, in that order. */
  datatype BoardItem = NoneItem | Wall | Dot | BigDot | BigDotSpawn | GhostSpawn | PacmanSpawn

  /** Whether an entity may stand on the item: everything but a wall. */
  function Pathable(i: BoardItem): bool {
    i != Wall
  }

  /** Points for eating the item. */
  function Score(i: BoardItem): int {
    match i
    case Dot => 10
    case BigDot => 15
    case _ => 0
  }

  /** The character that stands for the item in a saved board. */
  function CharKey(i: BoardItem): char {
    match i
    case NoneItem => '0'
    case Wall => 'X'
    case Dot => '1'
    case BigDot => 'B'
    case BigDotSpawn => 'b'
    case GhostSpawn => '$'
    case PacmanSpawn => 'P'
  }

  /** The seven characters a saved board may use. */
  const Keys: string := "0X1Bb$P"

  /** BoardItem.getItem: the item a character stands for, or IllegalArgumentException. */
  function ItemOf(c: char): (r: Result<BoardItem>)
    ensures r.Ok? <==> c in Keys
    ensures r.Ok? ==> CharKey(r.value) == c
    ensures r.Err? ==> r.error == IllegalArgument
  {
    match c
    case '0' => Ok(NoneItem)
    case 'X' => Ok(Wall)
    case '1' => Ok(Dot)
    case 'B' => Ok(BigDot)
    case 'b' => Ok(BigDotSpawn)
    case '$' => Ok(GhostSpawn)
    case 'P' => Ok(PacmanSpawn)
    case _ => Err(IllegalArgument)
  }

  /** getItem recovers every item from its character, so distinct items have distinct characters. */
  lemma ItemOfCharKey(i: BoardItem)
    ensures CharKey(i) in Keys
    ensures ItemOf(CharKey(i)) == Ok(i)
  {
  }

  /** Only dots and big dots are worth points, and nothing is worth less than zero. */
  lemma ScoredItems(i: BoardItem)
    ensures Score(i) >= 0
    ensures Score(i) > 0 <==> i == Dot || i == BigDot
  {
  }
}
