/** `Player`: where the story is, the player's power, and the two flags that
    tell the game manager whether and where to move on. */
module Players {
  import opened Options

  /** A snapshot of a player's fields. `visited` is the set of activity
      names the game manager records as started. */
  datatype PlayerState = PlayerState(
    location: string,
    power: int,
    shouldStartNewEncounter: bool,
    nextExpectedActivity: Option<string>,
    visited: set<string>)

  /** The fields of a new player. */
  function NewPlayer(): (s: PlayerState)
  {
    PlayerState("start", 6, true, None, {})
  }

  /** What `EndEncounter` does to a player: it asks for a new encounter. */
  function AfterEndEncounter(s: PlayerState): (t: PlayerState)
  {
    s.(shouldStartNewEncounter := true)
  }

  /** What `Goto<T>` does to a player: it asks for a new encounter, the one
      named `activityName`. */
  function AfterGoto(s: PlayerState, activityName: string): (t: PlayerState)
  {
    s.(shouldStartNewEncounter := true, nextExpectedActivity := Some(activityName))
  }

  class Player {
    var location: string
    var power: int
    var shouldStartNewEncounter: bool
    /** The name of the activity to start next; None stands for null. */
    var nextExpectedActivity: Option<string>
    var visited: set<string>

    function State(): PlayerState
      reads this
    {
      PlayerState(location, power, shouldStartNewEncounter, nextExpectedActivity, visited)
    }

    /** The field initialisers. */
    constructor ()
      ensures State() == NewPlayer()
    {
      location := "start";
      power := 6;
      shouldStartNewEncounter := true;
      nextExpectedActivity := None;
      visited := {};
    }

    method EndEncounter()
      modifies this
      ensures State() == AfterEndEncounter(old(State()))
    {
      shouldStartNewEncounter := true;
    }

    /** `Goto<T>()`, with the name of `T` passed in. */
    method Goto(activityName: string)
      modifies this
      ensures State() == AfterGoto(old(State()), activityName)
    {
      shouldStartNewEncounter := true;
      nextExpectedActivity := Some(activityName);
    }
  }

  /** A new player is at "start" with power 6, waiting for a first
      encounter and expecting no activity in particular. */
  lemma NewPlayerFields()
    ensures NewPlayer().location == "start" && NewPlayer().power == 6
    ensures NewPlayer().shouldStartNewEncounter && NewPlayer().nextExpectedActivity.None?
  {
  }

  /** `EndEncounter` raises the flag and leaves every other field as it was. */
  lemma EndEncounterChangesOnlyTheFlag(s: PlayerState)
    ensures AfterEndEncounter(s).shouldStartNewEncounter
    ensures AfterEndEncounter(s).nextExpectedActivity == s.nextExpectedActivity
    ensures AfterEndEncounter(s).location == s.location && AfterEndEncounter(s).power == s.power
    ensures AfterEndEncounter(s).visited == s.visited
  {
  }

  /** `Goto` raises the flag, names the next activity and leaves the rest. */
  lemma GotoSetsTarget(s: PlayerState, activityName: string)
    ensures AfterGoto(s, activityName).shouldStartNewEncounter
    ensures AfterGoto(s, activityName).nextExpectedActivity == Some(activityName)
    ensures AfterGoto(s, activityName).location == s.location && AfterGoto(s, activityName).power == s.power
    ensures AfterGoto(s, activityName).visited == s.visited
  {
  }

  /** Both are idempotent, and a later `Goto` decides the target whatever
      came before it. */
  lemma TransitionsIdempotent(s: PlayerState, a: string, b: string)
    ensures AfterEndEncounter(AfterEndEncounter(s)) == AfterEndEncounter(s)
    ensures AfterGoto(AfterGoto(s, a), a) == AfterGoto(s, a)
    ensures AfterGoto(AfterGoto(s, a), b) == AfterGoto(s, b)
    ensures AfterGoto(AfterEndEncounter(s), a) == AfterGoto(s, a)
    ensures AfterEndEncounter(AfterGoto(s, a)) == AfterGoto(s, a)
  {
  }
}
