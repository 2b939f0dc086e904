/** The ghost behaviour phases (pacman.ghost.Phase). */
module Phases {
  import opened Wrappers

  datatype Phase = Chase | Frightened | Scatter

  /** How many ticks a phase lasts when entered without an explicit duration. */
  function Duration(p: Phase): nat {
    match p
    case Chase => 20
    case Frightened => 30
    case Scatter => 10
  }

  /** The enum constant's name. */
  function Name(p: Phase): string {
    match p
    case Chase => "CHASE"
    case Frightened => "FRIGHTENED"
    case Scatter => "SCATTER"
  }

  /** Phase.valueOf: the constant with exactly this name, or IllegalArgumentException. */
  function ValueOf(s: string): (r: Result<Phase>)
    ensures r.Ok? ==> Name(r.value) == s
    ensures r.Err? ==> r.error == IllegalArgument
  {
    if s == "CHASE" then Ok(Chase)
    else if s == "FRIGHTENED" then Ok(Frightened)
    else if s == "SCATTER" then Ok(Scatter)
    else Err(IllegalArgument)
  }

  /** valueOf recovers every phase from its name. */
  lemma ValueOfName(p: Phase)
    ensures ValueOf(Name(p)) == Ok(p)
  {
  }

  /** Every phase lasts a positive number of ticks, frightened the longest and scatter the shortest. */
  lemma DurationsOrdered(p: Phase)
    ensures Duration(Scatter) <= Duration(p) <= Duration(Frightened)
    ensures Duration(p) > 0
  {
  }
}
