/** One actor's search over a run: evaluations, dispatches and move reports in any order,
    for as long as its state lives. */
module SearchRuns {
  import opened Ordering
  import opened Tactical
  import opened TacticalRules

  datatype Event =
    | Evaluated(view: View)
    | Dispatched(command: Command, view: View)
    | Reported(status: Status, at: nat)

  function After(state: Offense, e: Event, actor: Actor, config: Config): Offense {
    match e
    case Evaluated(view) => NextOffense(state, actor, view, config)
    case Dispatched(command, view) => DispatchedOffense(Some(state), command, view, config)
    case Reported(status, at) => ReportedOffense(state, status, at, config)
  }

  /** `states[i]` is the state before `events[i]`. */
  ghost predicate Search(states: seq<Offense>, events: seq<Event>, actor: Actor, config: Config) {
    && |states| == |events| + 1
    && forall i :: 0 <= i < |events| ==> states[i + 1] == After(states[i], events[i], actor, config)
  }

  /** `w` is barred until `until` and is not where the actor is heading. */
  predicate ShutUntil(state: Offense, w: Waypoint, until: nat) {
    w in state.obsolete && state.obsolete[w] == until && state.waypoint != Some(w)
  }

  /** Nobody sends the actor to `w`, and no evaluation comes at `until` or later. */
  predicate LeavesShut(e: Event, w: Waypoint, until: nat) {
    match e
    case Evaluated(view) => view.gameLoop < until
    case Dispatched(command, _) => command.name == AttackUnit || command.waypoint != Some(w)
    case Reported(_, _) => true
  }

  /** A bar outlives whatever happens to other waypoints. */
  lemma StaysShut(state: Offense, e: Event, actor: Actor, config: Config, w: Waypoint, until: nat)
    requires ShutUntil(state, w, until) && LeavesShut(e, w, until)
    ensures ShutUntil(After(state, e, actor, config), w, until)
  {
    if e.Evaluated? {
      BarsLast(state, actor, e.view, config, w);
    }
  }

  lemma {:induction false} StaysShutOverRun(states: seq<Offense>, events: seq<Event>, actor: Actor, config: Config,
                                            w: Waypoint, until: nat, i: nat, j: nat)
    requires Search(states, events, actor, config) && i <= j <= |events| && ShutUntil(states[i], w, until)
    requires forall k :: i <= k < j ==> LeavesShut(events[k], w, until)
    ensures ShutUntil(states[j], w, until)
  {
    if i < j {
      StaysShutOverRun(states, events, actor, config, w, until, i, j - 1);
      StaysShut(states[j - 1], events[j - 1], actor, config, w, until);
    }
  }

  /** A waypoint reported as reached or failed is closed to every later evaluation until its
      bar ends, for as long as no command sends the actor there. */
  lemma ReportedWaypointStaysClosed(states: seq<Offense>, events: seq<Event>, actor: Actor, config: Config,
                                    w: Waypoint, i: nat, j: nat)
    requires Search(states, events, actor, config) && i < j < |events|
    requires events[i].Reported? && (events[i].status == Succeeded || events[i].status == Failed)
    requires states[i].waypoint == Some(w) && events[j].Evaluated?
    requires var until := if events[i].status == Succeeded then FOREVER else events[i].at + config.waypointRetry;
      forall k :: i < k <= j ==> LeavesShut(events[k], w, until)
    ensures w !in Open(CandidatesOf(events[j].view, actor), states[j + 1].obsolete)
  {
    var until := if events[i].status == Succeeded then FOREVER else events[i].at + config.waypointRetry;
    assert ShutUntil(states[i + 1], w, until);
    StaysShutOverRun(states, events, actor, config, w, until, i + 1, j);
    BarsLast(states[j], actor, events[j].view, config, w);
  }

  /** The bar ends exactly then: left alone, an actor without a destination may be sent to a
      waypoint on offer from the loop its bar names. */
  lemma BarEndsOnTime(state: Offense, actor: Actor, view: View, config: Config, w: Waypoint, until: nat)
    requires ShutUntil(state, w, until) && state.waypoint.None? && w in CandidatesOf(view, actor)
    ensures w in Open(CandidatesOf(view, actor), NextOffense(state, actor, view, config).obsolete)
       <==> view.gameLoop >= until
  {
  }
}
