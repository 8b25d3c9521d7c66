/** What dispatches and execution reports leave behind, over sequences of reports. */
module TacticalReports {
  import opened Ordering
  import opened Tactical
  import opened TacticalRules

  // ----- targets that fail --------------------------------------------------------------

  /** A report with its game loop. */
  datatype Told = Told(report: Report, at: nat)

  /** The failures after a sequence of attack reports; one without a target changes nothing. */
  function AfterReports(failures: map<(Actor, Tag), Failure>, told: seq<Told>, config: Config)
    : map<(Actor, Tag), Failure>
  {
    if told == [] then failures
    else
      var n := |told| - 1;
      var before := AfterReports(failures, told[..n], config);
      if told[n].report.target.None? then before
      else AttackedFailures(before, told[n].report, told[n].at, config)
  }

  /** The target is not where the agent thinks it is. */
  predicate LostTarget(code: string) {
    code == "combat_target_lost" || code == "target_not_visible" || code == "friendly_target"
  }

  predicate Gone(code: string) { code == "engagement_target_eliminated" }

  predicate FailsOn(t: Told, actor: Actor, tag: Tag) {
    t.report.actor == actor && t.report.target == Some(tag) && t.report.status != Succeeded && !Gone(t.report.code)
  }

  function CountOf(failures: map<(Actor, Tag), Failure>, actor: Actor, tag: Tag): nat {
    if (actor, tag) in failures then failures[(actor, tag)].count else 0
  }

  /** Successive failures of one actor on one target are counted, and bar it from the target
      for the quarantine time from the retry limit on, or at once when the target is lost. */
  lemma {:induction false} FailuresAreCounted(failures: map<(Actor, Tag), Failure>, told: seq<Told>, config: Config,
                                              actor: Actor, tag: Tag)
    requires told != [] && forall t :: t in told ==> FailsOn(t, actor, tag)
    ensures var after, last := AfterReports(failures, told, config), told[|told| - 1];
      && (actor, tag) in after
      && after[(actor, tag)].count == CountOf(failures, actor, tag) + |told|
      && after[(actor, tag)].until ==
         if LostTarget(last.report.code) || CountOf(failures, actor, tag) + |told| >= config.retryLimit
         then last.at + config.targetQuarantine else last.at
  {
    var n := |told| - 1;
    assert told[n] in told;
    if n > 0 {
      FailuresAreCounted(failures, told[..n], config, actor, tag);
    }
  }

  /** A success, or a target that is gone, wipes the slate clean. */
  lemma SuccessWipes(failures: map<(Actor, Tag), Failure>, t: Told, config: Config)
    requires t.report.target.Some? && (t.report.status == Succeeded || Gone(t.report.code))
    ensures var after := AttackedFailures(failures, t.report, t.at, config);
      (t.report.actor, t.report.target.value) !in after
  {
  }

  /** No report touches what is held against other actors or other targets. */
  lemma {:induction false} OthersAreUntouched(failures: map<(Actor, Tag), Failure>, told: seq<Told>, config: Config,
                                              actor: Actor, tag: Tag)
    requires forall t :: t in told ==> t.report.actor != actor || t.report.target != Some(tag)
    ensures Find(AfterReports(failures, told, config), (actor, tag)) == Find(failures, (actor, tag))
  {
    if told != [] {
      var n := |told| - 1;
      assert told[n] in told;
      OthersAreUntouched(failures, told[..n], config, actor, tag);
    }
  }

  /** What becomes of the engagement and the focus of the actor that reports: a success on the
      target engaged confirms it; anything but a success ends it; and the focus goes with a
      target that is gone or barred. */
  lemma EngagementAfterReport(engagement: map<Actor, Engagement>, failures: map<(Actor, Tag), Failure>, t: Told,
                              config: Config, other: Actor)
    requires t.report.target.Some? && other != t.report.actor
    ensures var actor, tag := t.report.actor, t.report.target.value;
      var after := AttackedEngagement(engagement, t.report, t.at);
      && Find(after, other) == Find(engagement, other)
      && (t.report.status != Succeeded || Gone(t.report.code) ==> actor !in after)
      && (t.report.status == Succeeded && !Gone(t.report.code) ==>
            && (actor in after <==> actor in engagement)
            && (actor in after ==>
                  after[actor] == if engagement[actor].target == tag
                                  then engagement[actor].(confirmedAt := Some(t.at)) else engagement[actor]))
    ensures LosesFocus(failures, t.report, config) <==>
      || Gone(t.report.code)
      || (t.report.status != Succeeded
          && (LostTarget(t.report.code)
              || CountOf(failures, t.report.actor, t.report.target.value) + 1 >= config.retryLimit))
    ensures TellsRemoval(t.report) <==>
      Gone(t.report.code) || (t.report.status == Succeeded && t.report.targetRemoved)
  {
  }

  /** An actor that cannot be had is quarantined whatever it was to do. */
  lemma ActorFailureMeaning(report: Report)
    ensures ActorFailed(report) <==>
      && report.status != Succeeded
      && (report.code == "actor_not_available" || report.code == "actor_not_observable"
          || report.code == "actor_selection_timeout")
  {
  }

  // ----- whose report it is -------------------------------------------------------------

  /** A state without a command takes reports that name no operation and no attempt; one with
      a command those that name the same command, operation and attempt. */
  ghost predicate Takes(ids: Ids, report: Report) {
    if ids.command == None then report.ids.operation == None && report.ids.attempt == None
    else
      && report.ids.command == ids.command && report.ids.operation == ids.operation
      && report.ids.attempt == ids.attempt
  }

  /** An attack report is for the engagement; a move report for the retreat or the search that
      has its command, the retreat first, and without either for the retreat or else the
      search. */
  lemma ReportIsFor(agent: TacticalAgent, report: Report)
    ensures var a := report.actor;
      var retreating, searching := a in agent.retreats.states, a in agent.offense;
      agent.Accepts(report) <==>
        if report.isAttack then a in agent.engagement && Takes(agent.engagement[a].ids, report)
        else if retreating && agent.retreats.states[a].ids.command == report.ids.command
        then Takes(agent.retreats.states[a].ids, report)
        else if searching && agent.offense[a].ids.command == report.ids.command
        then Takes(agent.offense[a].ids, report)
        else if retreating then Takes(agent.retreats.states[a].ids, report)
        else searching && Takes(agent.offense[a].ids, report)
  {
  }

  // ----- retreats -----------------------------------------------------------------------

  /** A retreat that is dispatched starts over: its cooldown runs at least the configured time,
      and as long as the one stored for its commitment; it has announced its arrival exactly if
      its commitment has. Everybody else's retreat stays as it is. */
  lemma DispatchedRetreatMeaning(book: RetreatBook, actor: Actor, tags: seq<Tag>, signature: string, ids: Ids,
                                 gameLoop: nat, config: Config, other: Actor)
    ensures var after := DispatchedRetreat(book, actor, tags, signature, ids, gameLoop, config);
      && after.arrivals == book.arrivals && after.cooldowns == book.cooldowns && actor in after.states
      && (other != actor ==> Find(after.states, other) == Find(book.states, other))
      && var s := after.states[actor];
         && s.phase == Retreating && s.tags == tags && s.signature == signature && s.missingSince == None
           && s.ids == ids
         && match ids.operation
            case None => s.commitment == None && !s.arrivalEmitted
              && s.cooldownUntil == gameLoop + config.retreatCooldown
            case Some(operation) =>
              var c := Commitment(operation, tags, signature);
              && s.commitment == Some(c) && (s.arrivalEmitted <==> c in book.arrivals)
              && s.cooldownUntil >= gameLoop + config.retreatCooldown
              && (c in book.cooldowns ==> s.cooldownUntil >= book.cooldowns[c])
              && (s.cooldownUntil == gameLoop + config.retreatCooldown
                  || (c in book.cooldowns && s.cooldownUntil == book.cooldowns[c]))
  {
  }

  /** A successful move of a retreating actor: it has arrived, for as long as the configured
      time, and so has its commitment; unless that was announced before, when nothing changes. */
  lemma ArrivedRetreatMeaning(book: RetreatBook, actor: Actor, gameLoop: nat, config: Config)
    requires actor in book.states
    ensures var was, after := book.states[actor], ReportedRetreat(book, actor, Succeeded, gameLoop, config);
      if (was.phase == Arrived && was.arrivalEmitted)
         || (was.commitment.Some? && was.commitment.value in book.arrivals)
      then after == book
      else
        && actor in after.states && after.states - {actor} == book.states - {actor}
        && var now := after.states[actor];
           && now == was.(phase := Arrived, arrivalEmitted := true, cooldownUntil := now.cooldownUntil)
           && now.cooldownUntil >= was.cooldownUntil && now.cooldownUntil >= gameLoop + config.retreatCooldown
           && (now.cooldownUntil == was.cooldownUntil || now.cooldownUntil == gameLoop + config.retreatCooldown)
           && match was.commitment
              case None => after.arrivals == book.arrivals && after.cooldowns == book.cooldowns
              case Some(c) =>
                after.arrivals == book.arrivals + {c} && after.cooldowns == book.cooldowns[c := now.cooldownUntil]
  {
  }

  /** A failed move of a retreating actor prolongs the cooldown; any other report about a move
      changes nothing. */
  lemma UnarrivedRetreatMeaning(book: RetreatBook, actor: Actor, status: Status, gameLoop: nat, config: Config)
    requires actor in book.states && status != Succeeded
    ensures var was, after := book.states[actor], ReportedRetreat(book, actor, status, gameLoop, config);
      if status == Failed then
        && after.arrivals == book.arrivals && after.cooldowns == book.cooldowns
        && after.states == book.states[actor := was.(cooldownUntil :=
             if was.cooldownUntil >= gameLoop + config.retreatCooldown then was.cooldownUntil
             else gameLoop + config.retreatCooldown)]
      else after == book
  {
  }

  // ----- searches -----------------------------------------------------------------------

  /** What a dispatch makes of a search: an attack suspends it, a move starts its next leg; no
      bar on a waypoint is lifted. */
  lemma DispatchedSearchMeaning(previous: Option<Offense>, command: Command, view: View, config: Config)
    ensures var s := DispatchedOffense(previous, command, view, config);
      && s.obsolete == (if previous.Some? then previous.value.obsolete else map[])
      && if command.name == AttackUnit then
           && s.phase == Engaged && s.waypoint == None && s.bestDistance == None && s.cooldownUntil == view.gameLoop
           && s.ids == Ids(None, None, None) && s.lastProgress == 0
         else
           && s.phase == Advancing && s.waypoint == command.waypoint && s.ids == command.ids
           && s.cooldownUntil == view.gameLoop + config.searchCooldown && s.lastProgress == view.gameLoop
           && s.bestDistance ==
              if command.waypoint.Some? && command.actor in view.groups && view.groups[command.actor].centroid.Some?
              then Some(config.distance(view.groups[command.actor].centroid.value, command.waypoint.value))
              else None
  {
  }

  /** What a move report makes of a search: reached, its waypoint is closed for good; failed,
      for the retry time; either way it has no waypoint and pauses. Otherwise nothing changes. */
  lemma ReportedSearchMeaning(was: Offense, status: Status, gameLoop: nat, config: Config)
    ensures var now := ReportedOffense(was, status, gameLoop, config);
      if status == Succeeded || status == Failed then
        && now.phase == (if status == Succeeded then Searching else ArrivedThere)
        && now.waypoint == None && now.bestDistance == None && now.lastProgress == gameLoop
        && now.cooldownUntil == gameLoop + config.searchCooldown && now.ids == was.ids
        && match was.waypoint
           case None => now.obsolete == was.obsolete
           case Some(w) =>
             now.obsolete == was.obsolete[w := if status == Succeeded then 0x7fff_ffff_ffff_ffff
                                               else gameLoop + config.waypointRetry]
      else now == was
  {
  }
}
