/** The story navigation of `GameManager`: loading the Konklav activities,
    starting the "start" activity, starting an activity, rolling a random
    one, and moving on after a dice roll. Each activity is seen through its
    name, whether it can be rolled and its weight; page flips, text and
    dice are left to the scene. */
module Game {
  import opened Options
  import opened KonklavAst
  import G = KonklavGrammar
  import F = KonklavGrammarFacts
  import KonklavParser
  import U = Utils
  import opened Players

  /** An activity as the story navigation sees it. */
  datatype Activity = Activity(name: string, canBeRolled: bool, weight: real)

  /** `KonklavActivity.FromAst`: the activity is taken to keep the name it
      was read with (the `KonklavActivity` that would say so is not part of
      this model); whether it can be rolled, and its weight, come from its
      body in a way this model takes as given. */
  function FromAst(ast: ActivityAst, rollable: ActivityAst -> bool, weight: ActivityAst -> real): Activity
  {
    Activity(ast.name, rollable(ast), weight(ast))
  }

  function FromAsts(asts: seq<ActivityAst>, rollable: ActivityAst -> bool, weight: ActivityAst -> real): seq<Activity>
    decreases |asts|
  {
    if asts == [] then []
    else FromAsts(asts[..|asts| - 1], rollable, weight) + [FromAst(asts[|asts| - 1], rollable, weight)]
  }

  /** Each activity keeps the name of the tree it was made from. */
  lemma {:induction false} FromAstsNames(asts: seq<ActivityAst>, rollable: ActivityAst -> bool, weight: ActivityAst -> real)
    ensures |FromAsts(asts, rollable, weight)| == |asts|
    ensures forall k :: 0 <= k < |asts| ==> FromAsts(asts, rollable, weight)[k].name == asts[k].name
    decreases |asts|
  {
    if asts != [] {
      FromAstsNames(asts[..|asts| - 1], rollable, weight);
    }
  }

  /* ---------- loading ---------- */

  /** The activities read so far and the error that stopped the reading,
      if one did. */
  datatype LoadOutcome = LoadOutcome(loaded: seq<Activity>, error: Option<G.ParseError>)

  /** What `LoadKonklavActivities` reads from the source files, in file
      order and, within a file, in the order of the activities: each file's
      text, with a line break added, is parsed by `ReadActivities`. The
      first file that fails to parse ends the loading (the parser throws);
      what earlier files gave stays loaded. */
  function Load(sources: seq<string>, rollable: ActivityAst -> bool, weight: ActivityAst -> real): LoadOutcome
    decreases |sources|
  {
    if sources == [] then LoadOutcome([], None)
    else
      var before := Load(sources[..|sources| - 1], rollable, weight);
      if before.error.Some? then before
      else match ParseFile(sources[|sources| - 1])
        case Err(e) => LoadOutcome(before.loaded, Some(e))
        case Ok(asts) => LoadOutcome(before.loaded + FromAsts(asts, rollable, weight), None)
  }

  /** What parsing one file's text, with a line break added, gives. */
  function ParseFile(source: string): G.Result<seq<ActivityAst>>
  {
    G.ReadActivities(source + "\n", 0).result
  }

  /** Loading ends without an error iff every file parses; an error is the
      one some file's parse raised. */
  lemma {:induction false} LoadErrorIsAFilesError(sources: seq<string>, rollable: ActivityAst -> bool, weight: ActivityAst -> real)
    ensures var r := Load(sources, rollable, weight);
      (r.error.None? <==> forall i :: 0 <= i < |sources| ==> ParseFile(sources[i]).Ok?)
      && (r.error.Some? ==> exists i :: 0 <= i < |sources| && ParseFile(sources[i]) == G.Err(r.error.value))
    decreases |sources|
  {
    if sources != [] {
      var init := sources[..|sources| - 1];
      var last := |sources| - 1;
      LoadErrorIsAFilesError(init, rollable, weight);
      assert forall i :: 0 <= i < |init| ==> init[i] == sources[i];
      var before := Load(init, rollable, weight);
      var r := Load(sources, rollable, weight);
      if before.error.Some? {
        assert r == before;
        var i :| 0 <= i < |init| && ParseFile(init[i]) == G.Err(before.error.value);
        assert ParseFile(sources[i]) == G.Err(r.error.value) && !ParseFile(sources[i]).Ok?;
      } else if ParseFile(sources[last]).Err? {
        assert r.error == Some(ParseFile(sources[last]).error);
        assert !ParseFile(sources[last]).Ok?;
      } else {
        assert ParseFile(sources[last]).Ok? && r.error.None?;
        assert forall i :: 0 <= i < |sources| ==> ParseFile(sources[i]).Ok? by {
          forall i | 0 <= i < |sources|
            ensures ParseFile(sources[i]).Ok?
          {
            if i < last {
              assert ParseFile(init[i]).Ok?;
            } else {
              assert i == last;
            }
          }
        }
      }
    }
  }

  /** One more file: what `Load` adds for the file after the first `i`. */
  lemma LoadNext(sources: seq<string>, i: nat, rollable: ActivityAst -> bool, weight: ActivityAst -> real)
    requires i < |sources| && Load(sources[..i], rollable, weight).error.None?
    ensures var before := Load(sources[..i], rollable, weight).loaded;
      var r := G.ReadActivities(sources[i] + "\n", 0).result;
      Load(sources[..i + 1], rollable, weight) ==
        if r.Err? then LoadOutcome(before, Some(r.error)) else LoadOutcome(before + FromAsts(r.value, rollable, weight), None)
  {
    assert sources[..i + 1][..i] == sources[..i];
  }

  /** Loading more files never drops an activity loaded from the earlier
      ones: the activities of a prefix of the files come first. */
  lemma {:induction false} LoadKeepsEarlierFiles(sources: seq<string>, n: nat, rollable: ActivityAst -> bool, weight: ActivityAst -> real)
    requires n <= |sources|
    ensures Load(sources[..n], rollable, weight).loaded <= Load(sources, rollable, weight).loaded
    ensures Load(sources[..n], rollable, weight).error.Some? ==> Load(sources, rollable, weight).error.Some?
    decreases |sources|
  {
    if n < |sources| {
      var init := sources[..|sources| - 1];
      assert sources[..n] == init[..n];
      LoadKeepsEarlierFiles(init, n, rollable, weight);
    } else {
      assert sources[..n] == sources;
    }
  }

  /** Every loaded activity has a name of one word, neither empty nor
      blank. */
  lemma {:induction false} LoadedNamesAreWords(sources: seq<string>, rollable: ActivityAst -> bool, weight: ActivityAst -> real)
    ensures forall k :: 0 <= k < |Load(sources, rollable, weight).loaded| ==>
      var name := Load(sources, rollable, weight).loaded[k].name;
      0 < |name| && forall c :: 0 <= c < |name| ==> name[c] !in G.AnyWhitespace
    decreases |sources|
  {
    if sources != [] {
      var n := |sources| - 1;
      LoadedNamesAreWords(sources[..n], rollable, weight);
      if Load(sources[..n], rollable, weight).error.None? {
        LoadNext(sources, n, rollable, weight);
        assert sources[..n + 1] == sources;
        var text := sources[n] + "\n";
        F.ActivitiesAreWellFormed(text, 0);
        var r := G.ReadActivities(text, 0).result;
        if r.Ok? {
          FromAstsNames(r.value, rollable, weight);
        }
      }
    }
  }

  lemma AppendAssoc(a: seq<Activity>, b: seq<Activity>, c: seq<Activity>)
    ensures (a + b) + c == a + (b + c)
  {
  }

  /* ---------- finding and rolling activities ---------- */

  /** `FirstOrDefault(a => a.Name.Equals(name))`: the first activity with
      that name, or None (null) when there is none. */
  function FindByName(activities: seq<Activity>, name: string): (r: Option<Activity>)
    ensures r.None? <==> forall i :: 0 <= i < |activities| ==> activities[i].name != name
    ensures r.Some? ==> r.value.name == name && exists i :: (0 <= i < |activities| && activities[i] == r.value
      && forall j :: 0 <= j < i ==> activities[j].name != name)
  {
    if activities == [] then None
    else if activities[0].name == name then Some(activities[0])
    else
      var r := FindByName(activities[1..], name);
      assert forall i :: 0 < i < |activities| ==> activities[i] == activities[1..][i - 1];
      r
  }

  /** `Where(e => e.CanBeRolled(player))`, in list order. */
  function Rollable(activities: seq<Activity>): (r: seq<Activity>)
    ensures forall a :: a in r <==> a in activities && a.canBeRolled
  {
    if activities == [] then []
    else
      assert forall a :: a in activities <==> a == activities[0] || a in activities[1..];
      (if activities[0].canBeRolled then [activities[0]] else []) + Rollable(activities[1..])
  }

  /** The weight of each activity. */
  function Weights(activities: seq<Activity>): seq<real>
  {
    U.WeightsOf(activities, (a: Activity) => a.weight)
  }

  /** What `RollActivity` returns: None (null) when no activity can be
      rolled, otherwise the weighted choice among those that can, for the
      threshold `randomRange` draws for their total weight. */
  function RolledActivity(activities: seq<Activity>, randomRange: real -> real): (r: Option<Activity>)
    ensures r.Some? ==> r.value in activities && r.value.canBeRolled
    ensures (forall i :: 0 <= i < |activities| ==> !activities[i].canBeRolled) ==> r.None?
  {
    var possible := Rollable(activities);
    if possible == [] then None
    else U.WeightedChoice(possible, Weights(possible), randomRange(U.Sum(Weights(possible))))
  }

  /** A rolled activity is a loaded one that can be rolled; and with weights
      that are not negative and a draw within [0, total], nothing is rolled
      exactly when no activity can be rolled. */
  lemma RolledActivityIsRollable(activities: seq<Activity>, randomRange: real -> real)
    requires forall i :: 0 <= i < |activities| ==> 0.0 <= activities[i].weight
    requires forall t :: 0.0 <= t ==> randomRange(t) <= t
    ensures var rolled := RolledActivity(activities, randomRange);
      (rolled.Some? ==> rolled.value in activities && rolled.value.canBeRolled)
      && (rolled.None? <==> forall i :: 0 <= i < |activities| ==> !activities[i].canBeRolled)
  {
    var possible := Rollable(activities);
    if possible != [] {
      var ws := Weights(possible);
      assert forall i :: 0 <= i < |ws| ==> ws[i] == possible[i].weight;
      assert forall i :: 0 <= i < |possible| ==> possible[i] in activities;
      U.SumNonNegative(ws);
      U.WeightedChoiceReachesAnItem(possible, ws, randomRange(U.Sum(ws)));
      U.WeightedChoiceIsListed(possible, ws, randomRange(U.Sum(ws)));
      assert possible[0] in activities && possible[0].canBeRolled;
    } else {
      assert forall i :: 0 <= i < |activities| ==> activities[i] in activities;
    }
  }

  /* ---------- the game state ---------- */

  /** A snapshot of the fields of the game manager and its player. */
  datatype GameState = GameState(activities: seq<Activity>, active: Option<Activity>, player: PlayerState)

  /** What `StartActivity` does: nothing for a null activity; otherwise the
      activity becomes the active one, the player's flags are cleared and
      its name is recorded as visited. */
  function Started(g: GameState, activity: Option<Activity>): (r: GameState)
    ensures activity.None? ==> r == g
    ensures activity.Some? ==>
      r.active == activity && activity.value.name in r.player.visited && !r.player.shouldStartNewEncounter
    ensures r.activities == g.activities && g.player.visited <= r.player.visited
  {
    match activity
    case None => g
    case Some(a) =>
      g.(active := activity,
         player := g.player.(shouldStartNewEncounter := false, nextExpectedActivity := None,
                             visited := g.player.visited + {a.name}))
  }

  /** What the active activity's `PlayerRoll` did to the player. */
  datatype RollEffect = NoEffect | EndsEncounter | GoesTo(activityName: string)

  function AfterEffect(p: PlayerState, effect: RollEffect): PlayerState
  {
    match effect
    case NoEffect => p
    case EndsEncounter => AfterEndEncounter(p)
    case GoesTo(name) => AfterGoto(p, name)
  }

  /** The activity the game moves on to: the expected one by name when the
      player names one, a rolled one otherwise. */
  function NextActivity(activities: seq<Activity>, p: PlayerState, randomRange: real -> real): Option<Activity>
  {
    if p.nextExpectedActivity.Some? then FindByName(activities, p.nextExpectedActivity.value)
    else RolledActivity(activities, randomRange)
  }

  /** What `ApplyRoll` does: the roll's effect on the player, then, if the
      player asks for a new encounter, the start of the next activity (the
      page flip runs at once). */
  function AfterRoll(g: GameState, effect: RollEffect, randomRange: real -> real): (r: GameState)
    ensures r.active == g.active || (r.active.Some? && r.active.value in g.activities)
    ensures r.active != g.active ==> r.active.Some? && !r.player.shouldStartNewEncounter
  {
    var p := AfterEffect(g.player, effect);
    if p.shouldStartNewEncounter then Started(g.(player := p), NextActivity(g.activities, p, randomRange))
    else g.(player := p)
  }

  class GameManager {
    /** `_activities`, in load order. */
    var activities: seq<Activity>
    /** `_activeActivity`; None stands for null. */
    var activeActivity: Option<Activity>
    const player: Player

    function State(): GameState
      reads this, player
    {
      GameState(activities, activeActivity, player.State())
    }

    constructor ()
      ensures State() == GameState([], None, NewPlayer()) && fresh(player)
    {
      activities := [];
      activeActivity := None;
      player := new Player();
    }

    /** `LoadKonklavActivities`: each source file is parsed in turn and its
        activities appended. */
    method LoadKonklavActivities(sources: seq<string>, rollable: ActivityAst -> bool, weight: ActivityAst -> real)
      returns (error: Option<G.ParseError>)
      modifies this
      ensures activities == old(activities) + Load(sources, rollable, weight).loaded
      ensures error == Load(sources, rollable, weight).error
      ensures activeActivity == old(activeActivity)
    {
      error := None;
      var i := 0;
      while i < |sources| && error.None?
        invariant i <= |sources|
        invariant Load(sources[..i], rollable, weight).error == error
        invariant activities == old(activities) + Load(sources[..i], rollable, weight).loaded
        invariant activeActivity == old(activeActivity)
      {
        error := LoadNextFile(sources, i, rollable, weight, old(activities));
        i := i + 1;
      }
      if error.Some? {
        LoadStopsAtError(sources, i, rollable, weight);
      } else {
        assert sources[..i] == sources;
      }
    }

    /** One turn of the loop over the files: the file after the first `i`
        is loaded. */
    method LoadNextFile(sources: seq<string>, i: nat, rollable: ActivityAst -> bool, weight: ActivityAst -> real,
                        ghost base: seq<Activity>)
      returns (error: Option<G.ParseError>)
      requires i < |sources| && Load(sources[..i], rollable, weight).error.None?
      requires activities == base + Load(sources[..i], rollable, weight).loaded
      modifies this
      ensures error == Load(sources[..i + 1], rollable, weight).error
      ensures activities == base + Load(sources[..i + 1], rollable, weight).loaded
      ensures activeActivity == old(activeActivity)
    {
      LoadNext(sources, i, rollable, weight);
      ghost var before := Load(sources[..i], rollable, weight).loaded;
      error := LoadFile(sources[i], rollable, weight);
      if error.None? {
        ghost var added := activities[|base + before|..];
        AppendAssoc(base, before, added);
      }
    }

    /** The body of the loop over the files: parse one file, with a line
        break added, and append its activities in order. */
    method LoadFile(source: string, rollable: ActivityAst -> bool, weight: ActivityAst -> real)
      returns (error: Option<G.ParseError>)
      modifies this
      ensures var r := G.ReadActivities(source + "\n", 0).result;
        if r.Err? then error == Some(r.error) && activities == old(activities)
        else error.None? && activities == old(activities) + FromAsts(r.value, rollable, weight)
      ensures activeActivity == old(activeActivity)
    {
      var parser := new KonklavParser.Parser(source + "\n");
      var asts := parser.ReadActivities();
      if asts.Err? {
        return Some(asts.error);
      }
      AppendActivities(asts.value, rollable, weight);
      return None;
    }

    /** The inner loop of `LoadKonklavActivities`: every parsed activity,
        in order, made into an `Activity` and appended. */
    method AppendActivities(asts: seq<ActivityAst>, rollable: ActivityAst -> bool, weight: ActivityAst -> real)
      modifies this
      ensures activities == old(activities) + FromAsts(asts, rollable, weight)
      ensures activeActivity == old(activeActivity)
    {
      for j := 0 to |asts|
        invariant activities == old(activities) + FromAsts(asts[..j], rollable, weight)
        invariant activeActivity == old(activeActivity)
      {
        assert asts[..j + 1][..j] == asts[..j];
        activities := activities + [FromAst(asts[j], rollable, weight)];
      }
      assert asts[..|asts|] == asts;
    }

    /** `StartActivity`. */
    method StartActivity(activity: Option<Activity>)
      modifies this, player
      ensures State() == Started(old(State()), activity)
    {
      if activity.None? {
        return;
      }
      activeActivity := activity;
      player.shouldStartNewEncounter := false;
      player.nextExpectedActivity := None;
      player.visited := player.visited + {activity.value.name};
    }

    /** `RollActivity`. */
    method RollActivity(randomRange: real -> real) returns (rolled: Option<Activity>)
      ensures rolled == RolledActivity(activities, randomRange)
    {
      var possible := Rollable(activities);
      if possible == [] {
        return None;
      }
      rolled := U.Choice(Some(possible), (a: Activity) => a.weight, randomRange);
    }

    /** `ApplyRoll`: the active activity handles the roll (its effect on the
        player is `effect`); a player who asks for a new encounter moves on
        to the expected activity, or to a rolled one. With no active
        activity the call fails (a null dereference in the source) before
        anything changes: `nullActivity` reports that. */
    method ApplyRoll(effect: RollEffect, randomRange: real -> real) returns (nullActivity: bool)
      modifies this, player
      ensures nullActivity <==> old(activeActivity).None?
      ensures State() == if nullActivity then old(State()) else AfterRoll(old(State()), effect, randomRange)
    {
      if activeActivity.None? {
        return true;
      }
      nullActivity := false;
      match effect {
        case NoEffect =>
        case EndsEncounter => player.EndEncounter();
        case GoesTo(name) => player.Goto(name);
      }
      if player.shouldStartNewEncounter {
        var nextActivity: Option<Activity>;
        if player.nextExpectedActivity.Some? {
          nextActivity := FindByName(activities, player.nextExpectedActivity.value);
        } else {
          nextActivity := RollActivity(randomRange);
        }
        StartActivity(nextActivity);
      }
    }

    /** `Start`: load the activities, then start the first one named
        "start". A parse error ends `Start` before anything is started. */
    method Start(sources: seq<string>, rollable: ActivityAst -> bool, weight: ActivityAst -> real)
      returns (error: Option<G.ParseError>)
      modifies this, player
      ensures error == Load(sources, rollable, weight).error
      ensures var loaded := old(State()).(activities := old(activities) + Load(sources, rollable, weight).loaded);
        State() == if error.Some? then loaded else Started(loaded, FindByName(loaded.activities, "start"))
    {
      error := LoadKonklavActivities(sources, rollable, weight);
      if error.Some? {
        return;
      }
      StartActivity(FindByName(activities, "start"));
    }
  }

  /** Once a file fails to parse, the outcome of the files read so far is
      the outcome of all of them. */
  lemma {:induction false} LoadStopsAtError(sources: seq<string>, n: nat, rollable: ActivityAst -> bool, weight: ActivityAst -> real)
    requires n <= |sources| && Load(sources[..n], rollable, weight).error.Some?
    ensures Load(sources, rollable, weight) == Load(sources[..n], rollable, weight)
    decreases |sources|
  {
    if n < |sources| {
      var init := sources[..|sources| - 1];
      assert sources[..n] == init[..n];
      LoadStopsAtError(init, n, rollable, weight);
    } else {
      assert sources[..n] == sources;
    }
  }

  /* ---------- navigation properties ---------- */

  /** `StartActivity(null)` changes nothing; any other activity becomes the
      active one, with the flags cleared and its name visited. */
  lemma StartedFacts(g: GameState, activity: Option<Activity>)
    ensures activity.None? ==> Started(g, activity) == g
    ensures activity.Some? ==>
      var h := Started(g, activity);
      h.active == activity && !h.player.shouldStartNewEncounter && h.player.nextExpectedActivity.None?
      && h.player.visited == g.player.visited + {activity.value.name}
      && h.activities == g.activities && h.player.location == g.player.location && h.player.power == g.player.power
  {
  }

  /** A roll never forgets a visited activity and never changes the loaded
      activities. */
  lemma VisitedOnlyGrows(g: GameState, effect: RollEffect, randomRange: real -> real)
    ensures g.player.visited <= AfterRoll(g, effect, randomRange).player.visited
    ensures AfterRoll(g, effect, randomRange).activities == g.activities
  {
  }

  /** The active activity changes only when the player asks for a new
      encounter; an expected activity, when one is named, is looked up by
      name instead of rolling, and an unknown name leaves the old activity
      active with the request still pending. */
  lemma RollTransition(g: GameState, effect: RollEffect, randomRange: real -> real)
    ensures var p := AfterEffect(g.player, effect);
      var h := AfterRoll(g, effect, randomRange);
      (!p.shouldStartNewEncounter ==> h.active == g.active && h.player == p)
      && (p.shouldStartNewEncounter && p.nextExpectedActivity.Some? ==>
            var found := FindByName(g.activities, p.nextExpectedActivity.value);
            (found.Some? ==> h.active == found && found.value.name == p.nextExpectedActivity.value)
            && (found.None? ==> h.active == g.active && h.player == p))
  {
  }

  /** After loading, `Start` makes the first activity named "start" the
      active one; without one, nothing is active and the new player still
      waits for an encounter. */
  lemma StartBootstrap(sources: seq<string>, rollable: ActivityAst -> bool, weight: ActivityAst -> real)
    requires Load(sources, rollable, weight).error.None?
    ensures var loaded := GameState(Load(sources, rollable, weight).loaded, None, NewPlayer());
      var h := Started(loaded, FindByName(loaded.activities, "start"));
      (h.active.Some? ==> h.active.value.name == "start" && h.player.visited == {"start"})
      && (h.active.None? ==> (h.player == NewPlayer()
            && forall i :: 0 <= i < |loaded.activities| ==> loaded.activities[i].name != "start"))
  {
  }
}
