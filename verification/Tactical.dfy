/** The tactical agent: per-actor retreat, engagement and search states, driven by
    evaluations, dispatches and execution reports. */
module Tactical {
  import opened Ordering
  import opened TacticalRules

  datatype ActionName = AttackUnit | MoveMinimap | OtherAction

  datatype Command = Command(actor: Actor, name: ActionName, retreat: bool, target: Option<Tag>,
                             waypoint: Option<Waypoint>, ids: Ids)

  /** A report about an attack or a move; `code` is the failure code or "unknown_failure". */
  datatype Report = Report(actor: Actor, isAttack: bool, status: Status, code: string, target: Option<Tag>,
                           targetRemoved: bool, ids: Ids)

  predicate ActorFailed(report: Report) {
    report.status != Succeeded && report.code in ACTOR_FAILURES
  }

  const ACTOR_FAILURES := {"actor_not_available", "actor_not_observable", "actor_selection_timeout"}
  const LOST_TARGET := {"combat_target_lost", "target_not_visible", "friendly_target"}

  const ELIMINATED := "engagement_target_eliminated"

  /** An unsuccessful attack report bars the target at once for a lost target, else on the
      configured number of failures. */
  predicate BarsTarget(failures: map<(Actor, Tag), Failure>, report: Report, config: Config)
    requires report.target.Some?
  {
    && report.code != ELIMINATED && report.status != Succeeded
    && (report.code in LOST_TARGET
        || FailureCount(Find(failures, (report.actor, report.target.value))) >= config.retryLimit)
  }

  function AttackedFailures(failures: map<(Actor, Tag), Failure>, report: Report, gameLoop: nat, config: Config)
    : map<(Actor, Tag), Failure>
    requires report.target.Some?
  {
    var key := (report.actor, report.target.value);
    if report.code == ELIMINATED || report.status == Succeeded then failures - {key}
    else failures[key := Failure(FailureCount(Find(failures, key)),
                                 if BarsTarget(failures, report, config) then gameLoop + config.targetQuarantine
                                 else gameLoop)]
  }

  /** Whether a report's identifiers belong to a state dispatched with `ids`. */
  predicate Matches(ids: Ids, report: Report) {
    if ids.command.None? then report.ids.operation.None? && report.ids.attempt.None?
    else ids == report.ids
  }

  function FailureCount(failure: Option<Failure>): nat {
    if failure.Some? then failure.value.count + 1 else 1
  }

  /** The search state a dispatch leaves; bars on waypoints outlive it. */
  function DispatchedOffense(previous: Option<Offense>, command: Command, view: View, config: Config): Offense {
    var obsolete := if previous.Some? then previous.value.obsolete else map[];
    if command.name == AttackUnit then Offense(Engaged, view.gameLoop, None, None, 0, obsolete, NO_IDS)
    else
      var centroid := CentroidOf(view, command.actor);
      Offense(Advancing, view.gameLoop + config.searchCooldown, command.waypoint,
              if command.waypoint.None? || centroid.None? then None
              else Some(config.distance(centroid.value, command.waypoint.value)),
              view.gameLoop, obsolete, command.ids)
  }

  /** The search state a move report leaves: a waypoint reached is barred for good, one that
      failed for the retry time; either way the search pauses. */
  function ReportedOffense(state: Offense, status: Status, gameLoop: nat, config: Config): Offense {
    if status != Succeeded && status != Failed then state
    else
      state.(phase := if status == Succeeded then Searching else ArrivedThere,
             waypoint := None, bestDistance := None, lastProgress := gameLoop,
             cooldownUntil := gameLoop + config.searchCooldown,
             obsolete := if state.waypoint.None? then state.obsolete
                         else state.obsolete[state.waypoint.value :=
                                if status == Succeeded then FOREVER else gameLoop + config.waypointRetry])
  }

  /** An attack report confirms the engagement it is about or ends the actor's engagement. */
  function AttackedEngagement(engagement: map<Actor, Engagement>, report: Report, gameLoop: nat): map<Actor, Engagement>
    requires report.target.Some?
  {
    if report.code == ELIMINATED || report.status != Succeeded then engagement - {report.actor}
    else if report.actor in engagement && engagement[report.actor].target == report.target.value then
      engagement[report.actor := engagement[report.actor].(confirmedAt := Some(gameLoop))]
    else engagement
  }

  /** The focus goes with a target that is gone or barred. */
  predicate LosesFocus(failures: map<(Actor, Tag), Failure>, report: Report, config: Config)
    requires report.target.Some?
  {
    report.code == ELIMINATED || BarsTarget(failures, report, config)
  }

  /** A report that the target no longer exists. */
  predicate TellsRemoval(report: Report) {
    report.code == ELIMINATED || (report.status == Succeeded && report.targetRemoved)
  }

  class TacticalAgent {
    const config: Config
    var episode: Option<(string, string)>
    var focus: map<Actor, Tag>
    var engagement: map<Actor, Engagement>
    var targetFailures: map<(Actor, Tag), Failure>
    var actorFailures: map<Actor, Failure>
    var retreats: RetreatBook
    var offense: map<Actor, Offense>
    var known: map<Tag, Position>

    constructor (config: Config)
      ensures this.config == config && episode == None && Valid() && Remembers() == BLANK
    {
      this.config := config;
      episode, focus, engagement, targetFailures, actorFailures := None, map[], map[], map[], map[];
      retreats, offense, known := NO_RETREATS, map[], map[];
    }

    /** A stored engagement always agrees with the focus map. */
    ghost predicate Valid()
      reads this
    {
      forall a :: a in engagement ==> a in focus && focus[a] == engagement[a].target
    }

    // ----- dispatch ---------------------------------------------------------------------

    /** False for an attack command without a target, which is refused. */
    method RecordDispatch(command: Command, view: View) returns (ok: bool)
      requires Valid()
      modifies this`focus, this`engagement, this`offense, this`retreats
      ensures Valid()
      ensures ok == !(command.name == AttackUnit && command.target.None?)
      ensures !ok || (command.name == OtherAction && !command.retreat) ==>
        engagement == old(engagement) && focus == old(focus) && offense == old(offense)
      ensures retreats == if command.name != AttackUnit && command.retreat
        then DispatchedRetreat(old(retreats), command.actor, TagsOf(view, command.actor), view.signature,
                               command.ids, view.gameLoop, config)
        else old(retreats)
      ensures ok && command.name == AttackUnit ==>
        engagement == old(engagement)[command.actor :=
                        Engagement(command.target.value, TagsOf(view, command.actor), None, command.ids)]
        && focus == old(focus)[command.actor := command.target.value]
      ensures command.name != AttackUnit ==> engagement == old(engagement) && focus == old(focus)
      ensures command.name != AttackUnit && command.retreat ==> offense == old(offense)
      ensures ok && (command.name == AttackUnit || (command.name == MoveMinimap && !command.retreat)) ==>
        offense == old(offense)[command.actor := DispatchedOffense(Find(old(offense), command.actor), command, view,
                                                                   config)]
    {
      var gameLoop := view.gameLoop;
      var obsolete := if command.actor in offense then offense[command.actor].obsolete else map[];
      if command.name == AttackUnit {
        if command.target.None? {
          return false;
        }
        var target := command.target.value;
        engagement := engagement[command.actor := Engagement(target, TagsOf(view, command.actor), None, command.ids)];
        focus := focus[command.actor := target];
        offense := offense[command.actor := Offense(Engaged, gameLoop, None, None, 0, obsolete, NO_IDS)];
      } else if command.retreat {
        var tags := TagsOf(view, command.actor);
        var state := RetreatState(Retreating, gameLoop + config.retreatCooldown, tags, view.signature, None, false,
                                  command.ids, None);
        if command.ids.operation.Some? {
          var commitment := Commitment(command.ids.operation.value, tags, view.signature);
          state := state.(commitment := Some(commitment), arrivalEmitted := commitment in retreats.arrivals);
          if commitment in retreats.cooldowns {
            state := state.(cooldownUntil := NatMax(state.cooldownUntil, retreats.cooldowns[commitment]));
          }
        }
        retreats := retreats.(states := retreats.states[command.actor := state]);
      } else if command.name == MoveMinimap {
        var centroid := CentroidOf(view, command.actor);
        var best := if command.waypoint.None? || centroid.None? then None
                    else Some(config.distance(centroid.value, command.waypoint.value));
        offense := offense[command.actor := Offense(Advancing, gameLoop + config.searchCooldown, command.waypoint,
                                                    best, gameLoop, obsolete, command.ids)];
      }
      return true;
    }

    // ----- reports ----------------------------------------------------------------------

    /** The state a report is checked against: for a move, the retreat or search state
        with its command, else the retreat, else the search. */
    function ActiveIds(report: Report): Option<Ids>
      reads this
    {
      if report.isAttack then
        if report.actor in engagement then Some(engagement[report.actor].ids) else None
      else
        var retreat := if report.actor in retreats.states then Some(retreats.states[report.actor].ids) else None;
        var search := if report.actor in offense then Some(offense[report.actor].ids) else None;
        if retreat.Some? && retreat.value.command == report.ids.command then retreat
        else if search.Some? && search.value.command == report.ids.command then search
        else if retreat.Some? then retreat
        else search
    }

    predicate Accepts(report: Report)
      reads this
    {
      ActiveIds(report).Some? && Matches(ActiveIds(report).value, report)
    }

    /** What a notice says is what is stored. */
    predicate Tells(notice: Notice)
      reads this
    {
      match notice
      case ActorQuarantined(actor, count, until) => actor in actorFailures
        && actorFailures[actor] == Failure(count, until)
      case TargetFailed(actor, target, count, until) =>
        && (actor, target) in targetFailures && targetFailures[(actor, target)].count == count
        && (until.Some? ==> targetFailures[(actor, target)].until == until.value && actor !in focus)
      case SatisfiedByPeer(actor, target) => (actor, target) !in targetFailures && actor !in engagement
        && target !in known
      case Confirmed(actor, target) => (actor, target) !in targetFailures
      case RetreatArrived(actor, commitment) =>
        && actor in retreats.states && retreats.states[actor].phase == Arrived
        && retreats.states[actor].commitment == commitment && AlreadyArrived(retreats, retreats.states[actor])
      case RetreatCooldown(actor, until) => actor in retreats.states && retreats.states[actor].cooldownUntil == until
      case OffenseArrived(actor) =>
        actor in offense && offense[actor].phase == Searching && offense[actor].waypoint.None?
      case WaypointFailed(actor, until) =>
        actor in offense && offense[actor].cooldownUntil == until && offense[actor].waypoint.None?
    }

    method RecordExecution(report: Report, gameLoop: nat) returns (notice: Option<Notice>)
      requires Valid()
      modifies this`focus, this`engagement, this`targetFailures, this`actorFailures, this`retreats, this`offense,
        this`known
      ensures Valid()
      ensures !old(Accepts(report)) ==>
        && notice == None && focus == old(focus) && engagement == old(engagement)
        && targetFailures == old(targetFailures) && actorFailures == old(actorFailures)
        && retreats == old(retreats) && offense == old(offense) && known == old(known)
      ensures old(Accepts(report)) && ActorFailed(report) ==>
        && actorFailures == old(actorFailures)[report.actor :=
             Failure(FailureCount(Find(old(actorFailures), report.actor)), gameLoop + config.actorQuarantine)]
        && retreats == ForgottenRetreat(old(retreats), report.actor)
        && engagement == old(engagement) - {report.actor} && focus == old(focus) - {report.actor}
        && offense == old(offense) - {report.actor}
        && targetFailures == old(targetFailures) && known == old(known)
      ensures old(Accepts(report)) && !ActorFailed(report) ==>
        && retreats == (if report.isAttack || report.actor !in old(retreats).states then old(retreats)
                        else ReportedRetreat(old(retreats), report.actor, report.status, gameLoop, config))
        && offense == (if report.isAttack || report.actor in old(retreats).states
          || report.actor !in old(offense) then old(offense)
                       else old(offense)[report.actor := ReportedOffense(old(offense)[report.actor], report.status,
                                                                         gameLoop, config)])
        && actorFailures == (if report.status == Succeeded then old(actorFailures) - {report.actor}
          else old(actorFailures))
      ensures old(Accepts(report)) && !ActorFailed(report) && (!report.isAttack || report.target.None?) ==>
        && targetFailures == old(targetFailures) && engagement == old(engagement)
        && focus == old(focus) && known == old(known)
      ensures old(Accepts(report)) && !ActorFailed(report) && report.isAttack && report.target.Some? ==>
        && targetFailures == AttackedFailures(old(targetFailures), report, gameLoop, config)
        && engagement == AttackedEngagement(old(engagement), report, gameLoop)
        && focus == (if LosesFocus(old(targetFailures), report, config) then old(focus) - {report.actor}
          else old(focus))
        && known == (if TellsRemoval(report) then old(known) - {report.target.value} else old(known))
      ensures notice.Some? ==> Tells(notice.value)
      ensures notice.Some? && notice.value.RetreatArrived? <==>
        && old(Accepts(report)) && !ActorFailed(report) && !report.isAttack
        && Arrives(old(retreats), report.actor, report.status)
      ensures notice.Some? && notice.value.RetreatArrived? ==>
        && report.actor in old(retreats).states
        && notice.value.commitment == old(retreats).states[report.actor].commitment
    {
      if !Accepts(report) {
        return None;
      }
      if ActorFailed(report) {
        var count := FailureCount(Find(actorFailures, report.actor));
        var until := gameLoop + config.actorQuarantine;
        actorFailures := actorFailures[report.actor := Failure(count, until)];
        focus := focus - {report.actor};
        engagement := engagement - {report.actor};
        retreats := retreats.(states := retreats.states - {report.actor});
        offense := offense - {report.actor};
        return Some(ActorQuarantined(report.actor, count, until));
      }
      if report.status == Succeeded {
        actorFailures := actorFailures - {report.actor};
      }
      if report.isAttack {
        notice := RecordAttack(report, gameLoop);
      } else {
        notice := RecordMove(report, gameLoop);
      }
    }

    method RecordMove(report: Report, gameLoop: nat) returns (notice: Option<Notice>)
      requires Valid() && !report.isAttack
      requires report.actor in retreats.states || report.actor in offense
      modifies this`retreats, this`offense
      ensures Valid()
      ensures retreats == if report.actor !in old(retreats).states then old(retreats)
                          else ReportedRetreat(old(retreats), report.actor, report.status, gameLoop, config)
      ensures offense == if report.actor in old(retreats).states then old(offense)
                         else old(offense)[report.actor := ReportedOffense(old(offense)[report.actor], report.status,
                           gameLoop, config)]
      ensures notice.Some? ==> Tells(notice.value)
      ensures notice.None? <==>
        || (report.status != Succeeded && report.status != Failed)
        || (report.actor in old(retreats).states && report.status == Succeeded
          && !Arrives(old(retreats), report.actor, report.status))
      ensures notice.Some? && notice.value.RetreatArrived? <==> Arrives(old(retreats), report.actor, report.status)
      ensures notice.Some? && notice.value.RetreatArrived? ==>
        notice.value.commitment == old(retreats).states[report.actor].commitment
    {
      var actor := report.actor;
      if report.status != Succeeded && report.status != Failed {
        assert actor !in retreats.states ==> offense[actor := offense[actor]] == offense;
        return None;
      }
      if actor in retreats.states {
        var state := retreats.states[actor];
        if report.status == Succeeded {
          if AlreadyArrived(retreats, state) {
            return None;
          }
          var until := NatMax(state.cooldownUntil, gameLoop + config.retreatCooldown);
          retreats := retreats.(states := retreats.states[actor :=
            state.(phase := Arrived, arrivalEmitted := true, cooldownUntil := until)]);
          if state.commitment.Some? {
            retreats := retreats.(arrivals := retreats.arrivals + {state.commitment.value},
                                  cooldowns := retreats.cooldowns[state.commitment.value := until]);
          }
          return Some(RetreatArrived(actor, state.commitment));
        }
        var until := NatMax(state.cooldownUntil, gameLoop + config.retreatCooldown);
        retreats := retreats.(states := retreats.states[actor := state.(cooldownUntil := until)]);
        return Some(RetreatCooldown(actor, until));
      }
      var state := offense[actor];
      var until := gameLoop + config.searchCooldown;
      if report.status == Succeeded {
        var obsolete := if state.waypoint.Some? then state.obsolete[state.waypoint.value := FOREVER]
          else state.obsolete;
        offense := offense[actor := state.(phase := Searching, waypoint := None, bestDistance := None,
                                           lastProgress := gameLoop, cooldownUntil := until, obsolete := obsolete)];
        return Some(OffenseArrived(actor));
      }
      var retry := gameLoop + config.waypointRetry;
      var obsolete := if state.waypoint.Some? then state.obsolete[state.waypoint.value := retry] else state.obsolete;
      offense := offense[actor := state.(phase := ArrivedThere, waypoint := None, bestDistance := None,
                                         lastProgress := gameLoop, cooldownUntil := until, obsolete := obsolete)];
      return Some(WaypointFailed(actor, until));
    }

    method RecordAttack(report: Report, gameLoop: nat) returns (notice: Option<Notice>)
      requires Valid() && report.isAttack && !ActorFailed(report)
      modifies this`focus, this`engagement, this`targetFailures, this`known
      ensures Valid()
      ensures notice.None? <==> report.target.None?
      ensures notice.Some? ==> !notice.value.RetreatArrived? && Tells(notice.value)
      ensures report.target.None? ==>
        && targetFailures == old(targetFailures) && engagement == old(engagement)
        && focus == old(focus) && known == old(known)
      ensures report.target.Some? ==>
        && targetFailures == AttackedFailures(old(targetFailures), report, gameLoop, config)
        && engagement == AttackedEngagement(old(engagement), report, gameLoop)
        && focus == (if LosesFocus(old(targetFailures), report, config) then old(focus) - {report.actor}
          else old(focus))
        && known == (if TellsRemoval(report) then old(known) - {report.target.value} else old(known))
    {
      var actor := report.actor;
      if report.target == None {
        return None;
      }
      var target := report.target.value;
      var key := (actor, target);
      if report.code == ELIMINATED {
        targetFailures := targetFailures - {key};
        engagement := engagement - {actor};
        focus := focus - {actor};
        known := known - {target};
        return Some(SatisfiedByPeer(actor, target));
      }
      if report.status == Succeeded {
        targetFailures := targetFailures - {key};
        if actor in engagement && engagement[actor].target == target {
          engagement := engagement[actor := engagement[actor].(confirmedAt := Some(gameLoop))];
        }
        if report.targetRemoved {
          known := known - {target};
        }
        return Some(Confirmed(actor, target));
      }
      var immediate := report.code in LOST_TARGET;
      var count := FailureCount(Find(targetFailures, key));
      var quarantined := immediate || count >= config.retryLimit;
      var until := if quarantined then gameLoop + config.targetQuarantine else gameLoop;
      targetFailures := targetFailures[key := Failure(count, until)];
      engagement := engagement - {actor};
      if quarantined {
        focus := focus - {actor};
      }
      return Some(TargetFailed(actor, target, count, if quarantined then Some(until) else None));
    }

    // ----- evaluation -------------------------------------------------------------------

    /** A new run or episode starts from nothing. */
    method ActivateEpisode(view: View)
      requires Valid()
      modifies this
      ensures Valid() && episode == Some(view.episode)
      ensures old(episode) == Some(view.episode) ==>
        && focus == old(focus) && engagement == old(engagement) && targetFailures == old(targetFailures)
        && actorFailures == old(actorFailures) && retreats == old(retreats) && offense == old(offense)
        && known == old(known)
      ensures old(episode) != Some(view.episode) ==>
        && focus == map[] && engagement == map[] && targetFailures == map[]
        && actorFailures == map[] && retreats == NO_RETREATS && offense == map[] && known == map[]
    {
      if episode == Some(view.episode) {
        return;
      }
      episode := Some(view.episode);
      focus, engagement, targetFailures, actorFailures := map[], map[], map[], map[];
      retreats, offense, known := NO_RETREATS, map[], map[];
    }

    method RememberEnemyStructures(view: View)
      modifies this`known
      ensures known == Remembered(old(known), view.structures)
    {
      ghost var before := known;
      var i := 0;
      while i < |view.structures|
        invariant 0 <= i <= |view.structures|
        invariant known == Remembered(before, view.structures[..i])
      {
        assert view.structures[..i + 1][..i] == view.structures[..i];
        var enemy := view.structures[i];
        if !enemy.alive {
          known := known - {enemy.tag};
        } else if enemy.position.Some? {
          known := known[enemy.tag := enemy.position.value];
        }
        i := i + 1;
      }
      assert view.structures[..i] == view.structures;
    }

    /** Keeps the actors that are not quarantined and forgets quarantines that are over. */
    method EligibleActors(actors: seq<Actor>, gameLoop: nat) returns (eligible: seq<Actor>)
      modifies this`actorFailures
      ensures eligible == NotQuarantined(actors, old(actorFailures), gameLoop)
      ensures Lifted(old(actorFailures), actorFailures, actors, gameLoop)
    {
      eligible := [];
      ghost var before := actorFailures;
      ghost var lifted := Lifting(before, gameLoop);
      var i := 0;
      while i < |actors|
        invariant 0 <= i <= |actors|
        invariant eligible == NotQuarantined(actors[..i], before, gameLoop)
        invariant lifted(actorFailures, actors[..i])
      {
        var actor := actors[i];
        EligibleOneMore(before, actorFailures, actors, i, gameLoop);
        if actor !in actorFailures {
          assert actorFailures - {actor} == actorFailures;
          eligible := eligible + [actor];
        } else if actorFailures[actor].until <= gameLoop {
          actorFailures := actorFailures - {actor};
          eligible := eligible + [actor];
        }
        i := i + 1;
      }
      assert actors[..i] == actors;
    }

    /** Moves every retreat on and orders the ones that are due. */
    method RetreatIntents(view: View, movers: seq<Actor>) returns (intents: seq<Intent>, retreating: set<Actor>)
      requires Distinct(movers)
      modifies this`retreats
      ensures retreats.arrivals == old(retreats).arrivals && retreats.cooldowns == old(retreats).cooldowns
      ensures MovedOn(old(retreats).states, retreats.states, movers, movers, view, config)
      ensures RetreatedBy(intents, retreating, movers, retreats.states, view, config)
    {
      ghost var before := retreats.states;
      ghost var moved, issued := MovingOn(before, movers, view, config), Issuing(view, config);
      retreats := retreats.(states := AllMarked(retreats.states, movers, view.gameLoop, config));
      intents, retreating := [], {};
      var k := 0;
      while k < |movers|
        invariant 0 <= k <= |movers|
        invariant retreats.arrivals == old(retreats).arrivals && retreats.cooldowns == old(retreats).cooldowns
        invariant moved(movers[..k], retreats.states)
        invariant issued(intents, retreating, movers[..k], retreats.states)
      {
        var actor := movers[k];
        assert actor !in movers[..k];
        TakeOneMore(movers, k);
        ghost var states := retreats.states;
        SettleOneMore(before, states, intents, retreating, movers[..k], actor, movers, view, config);
        if actor in retreats.states {
          var settled := Settled(retreats.states[actor], actor, view, config);
          retreats := retreats.(states := if settled.Some? then retreats.states[actor := settled.value]
                                          else retreats.states - {actor});
        }
        if Retreats(actor, view, config) {
          retreating := retreating + {actor};
          if OrdersRetreat(retreats.states, actor, view, config) {
            intents := intents + [Intent(actor, GoHome)];
          }
        }
        k := k + 1;
      }
      assert movers[..k] == movers;
    }

    /** The targets an actor may attack; bars that are over and were earned by repetition
        are forgotten. */
    method AttackTargetsFor(view: View, actor: Actor) returns (targets: seq<Target>)
      requires ValidView(view)
      modifies this`targetFailures
      ensures targets == EligibleTargets(view, old(targetFailures), actor, Attackable(view, actor))
      ensures Pruned(old(targetFailures), targetFailures, view.gameLoop, config)
    {
      ghost var before := targetFailures;
      var tags := Attackable(view, actor);
      targets := [];
      var i := 0;
      while i < |tags|
        invariant 0 <= i <= |tags|
        invariant targets == EligibleTargets(view, before, actor, tags[..i])
        invariant Pruned(before, targetFailures, view.gameLoop, config)
      {
        assert tags[..i + 1][..i] == tags[..i];
        var tag := tags[i];
        PrunedBarsTheSame(before, targetFailures, view.gameLoop, config, actor, tag);
        if tag in view.targets && !TargetQuarantined(targetFailures, actor, tag, view.gameLoop) {
          if (actor, tag) in targetFailures && targetFailures[(actor, tag)].count >= config.retryLimit {
            targetFailures := targetFailures - {(actor, tag)};
          }
          targets := targets + [view.targets[tag]];
        }
        i := i + 1;
      }
      assert tags[..i] == tags;
    }

    /** Keeps the previous focus while it is eligible. */
    method FocusTarget(actor: Actor, targets: seq<Target>) returns (target: Target)
      requires targets != []
      requires forall i, j :: 0 <= i < |targets| && 0 <= j < |targets| && targets[i].tag == targets[j].tag ==>
        targets[i] == targets[j]
      ensures IsFocus(focus, actor, targets, target)
    {
      if actor in focus {
        var i := 0;
        while i < |targets|
          invariant 0 <= i <= |targets|
          invariant forall t :: t in targets[..i] ==> t.tag != focus[actor]
        {
          if targets[i].tag == focus[actor] {
            return targets[i];
          }
          i := i + 1;
        }
        assert targets[..i] == targets;
      }
      LowestRankIsLowest(targets);
      target := LowestRank(targets);
    }

    /** Orders an attack for every actor that has a target and no such order yet. */
    method AttackIntents(view: View, actors: seq<Actor>) returns (intents: seq<Intent>, engaged: set<Actor>)
      requires ValidView(view) && Distinct(actors)
      modifies this`targetFailures
      ensures Pruned(old(targetFailures), targetFailures, view.gameLoop, config)
      ensures AttackedBy(intents, engaged, actors, AttackDue(view, old(targetFailures), focus, engagement),
                         Engaging(view, old(targetFailures)))
    {
      ghost var before := targetFailures;
      ghost var due, engaging := AttackDue(view, before, focus, engagement), Engaging(view, before);
      intents, engaged := [], {};
      var k := 0;
      while k < |actors|
        invariant 0 <= k <= |actors|
        invariant Pruned(before, targetFailures, view.gameLoop, config)
        invariant AttackedBy(intents, engaged, actors[..k], due, engaging)
      {
        var actor := actors[k];
        assert actor !in actors[..k];
        assert actors[..k + 1] == actors[..k] + [actor];
        ghost var failures := targetFailures;
        PrunedTargetsAgree(view, before, failures, config, actor);
        var targets := AttackTargetsFor(view, actor);
        if targets == [] {
          PostureDecides(view, before, focus, engagement, actor, Idle);
          AttackedByOneMore(intents, engaged, actors[..k], actor, None, false, due, engaging);
        } else {
          var target := FocusTarget(actor, targets);
          if Engages(engagement, view, actor, target.tag) {
            PostureDecides(view, before, focus, engagement, actor, Holding(target.tag));
            AttackedByOneMore(intents, engaged, actors[..k], actor, None, true, due, engaging);
          } else {
            PostureDecides(view, before, focus, engagement, actor, Ordering(target.tag));
            AttackedByOneMore(intents, engaged, actors[..k], actor, Some(target.tag), true, due, engaging);
            intents := intents + [Intent(actor, AttackTarget(target.tag))];
          }
          engaged := engaged + {actor};
        }
        k := k + 1;
      }
      assert actors[..k] == actors;
    }

    method NearestDistance(positions: set<Position>, w: Waypoint) returns (d: real)
      requires positions != {}
      ensures NearestIs(positions, w, config, d)
    {
      var first :| first in positions;
      d := config.distance(first, w);
      var rest := positions - {first};
      while rest != {}
        invariant rest <= positions
        invariant exists p :: p in positions && config.distance(p, w) == d
        invariant forall p :: p in positions - rest ==> d <= config.distance(p, w)
        decreases rest
      {
        var p :| p in rest;
        if config.distance(p, w) < d {
          d := config.distance(p, w);
        }
        rest := rest - {p};
      }
      assert positions - rest == positions;
    }

    method SelectWaypoint(candidates: seq<Waypoint>) returns (chosen: Waypoint)
      requires candidates != []
      ensures IsSelected(candidates, known.Values, config, chosen)
    {
      chosen := candidates[0];
      var positions := known.Values;
      if positions == {} {
        return;
      }
      var nearest := NearestDistance(positions, chosen);
      var k := 1;
      while k < |candidates|
        invariant 1 <= k <= |candidates|
        invariant chosen in candidates && NearestIs(positions, chosen, config, nearest)
        invariant forall w, d :: w in candidates[..k] && NearestIs(positions, w, config, d) ==>
          nearest < d || (nearest == d && !WaypointLess(w, chosen))
      {
        assert candidates[..k + 1] == candidates[..k] + [candidates[k]];
        var w := candidates[k];
        var d := NearestDistance(positions, w);
        if d < nearest || (d == nearest && WaypointLess(w, chosen)) {
          chosen, nearest := w, d;
        }
        k := k + 1;
      }
      assert candidates[..k] == candidates;
    }

    /** Moves one actor's search on and orders its next leg when one is due. */
    method SearchOne(view: View, actor: Actor) returns (intent: Option<Intent>)
      modifies this`offense
      ensures forall a :: a != actor ==> Find(offense, a) == Find(old(offense), a)
      ensures Find(offense, actor) ==
        if actor in old(offense) then NextSearch(old(offense)[actor], actor, view, config) else None
      ensures intent.Some? <==> OrdersSearch(old(offense), offense, actor, view, config)
      ensures intent.Some? ==>
        && intent.value.actor == actor && intent.value.aim.SearchAt?
        && IsSelected(OpenFor(offense, actor, view), known.Values, config, intent.value.aim.waypoint)
    {
      var candidates := CandidatesOf(view, actor);
      if candidates == [] {
        offense := offense - {actor};
        return None;
      }
      if actor in offense {
        var state := Refreshed(offense[actor], candidates, view, config);
        var next := Advanced(state, view.gameLoop, CentroidOf(view, actor), config);
        var arriving := state.waypoint.Some?
          && ProgressOf(state, state.waypoint.value, CentroidOf(view, actor), view.gameLoop, config).Arriving?;
        offense := offense[actor := next];
        if arriving || next.waypoint.Some? || view.gameLoop < next.cooldownUntil {
          return None;
        }
      }
      var available := OpenFor(offense, actor, view);
      if available == [] {
        return None;
      }
      var waypoint := SelectWaypoint(available);
      return Some(Intent(actor, SearchAt(waypoint)));
    }

    /** Searches of actors that may not search now are forgotten; the others move on. */
    method SearchIntents(view: View, actors: seq<Actor>) returns (intents: seq<Intent>)
      requires Distinct(actors)
      modifies this`offense
      ensures Searched(old(offense), offense, actors, actors, view, config)
      ensures SearchedBy(intents, old(offense), offense, actors, view, known.Values, config)
    {
      ghost var before := offense;
      offense := map a | a in offense && a in actors :: offense[a];
      intents := [];
      var k := 0;
      while k < |actors|
        invariant 0 <= k <= |actors|
        invariant Searched(before, offense, actors[..k], actors, view, config)
        invariant SearchedBy(intents, before, offense, actors[..k], view, known.Values, config)
      {
        var actor := actors[k];
        assert actors[..k + 1] == actors[..k] + [actor] && actor !in actors[..k];
        ghost var now := offense;
        var intent := SearchOne(view, actor);
        SearchedOneMore(before, now, offense, actors[..k], actor, actors, view, config);
        assert OrdersSearch(before, offense, actor, view, config) == OrdersSearch(now, offense, actor, view, config);
        SearchedByOneMore(intents, before, now, offense, actors[..k], actor, intent, view, known.Values, config);
        intents := if intent.Some? then intents + [intent.value] else intents;
        k := k + 1;
      }
      assert actors[..k] == actors;
    }

    /** Nothing moves on while the army is not ready or nobody is free. */
    method SearchIfReady(view: View, searchers: seq<Actor>) returns (intents: seq<Intent>)
      requires Distinct(searchers)
      modifies this`offense
      ensures if view.ready then SearchedBy(intents, old(offense), offense, searchers, view, known.Values, config)
              else intents == []
      ensures if view.ready && searchers != [] then Searched(old(offense), offense, searchers, searchers, view, config)
              else offense == old(offense)
    {
      intents := [];
      if view.ready && searchers != [] {
        intents := SearchIntents(view, searchers);
      } else {
        NobodySearches(offense, view, known.Values, config);
      }
    }

    method AvailableActors(view: View) returns (attackers: seq<Actor>, movers: seq<Actor>)
      modifies this`actorFailures
      ensures Distinct(attackers) && Distinct(movers)
      ensures forall a :: a in attackers <==> MayAttack(view, old(actorFailures), a)
      ensures forall a :: a in movers <==> MayMove(view, old(actorFailures), a)
      ensures forall a :: Quarantined(actorFailures, a, view.gameLoop)
                == Quarantined(old(actorFailures), a, view.gameLoop)
    {
      ghost var before := actorFailures;
      attackers := EligibleActors(Unique(view.attackActors), view.gameLoop);
      ghost var between := actorFailures;
      movers := EligibleActors(Unique(view.moveActors), view.gameLoop);
    }

    ghost function Remembers(): Memory
      reads this
    {
      Memory(focus, engagement, targetFailures, actorFailures, retreats, offense, known)
    }

    /** Attacks for the actors that do not withdraw, then searches for those left over. */
    method FightAndSearch(view: View, attackers: seq<Actor>, movers: seq<Actor>, retreating: set<Actor>,
                          ghost before: Memory)
      returns (attacks: seq<Intent>, searches: seq<Intent>,
               ghost engaged: set<Actor>, ghost fighters: seq<Actor>, ghost searchers: seq<Actor>)
      requires ValidView(view) && Distinct(attackers) && Distinct(movers)
      requires targetFailures == before.barred && focus == before.focus && offense == before.offense
      requires engagement == OnScreen(before.engagement, view)
      requires forall a :: a in attackers <==> MayAttack(view, before.failures, a)
      requires forall a :: a in movers <==> MayMove(view, before.failures, a)
      requires forall a :: a in retreating <==> a in movers && Retreats(a, view, config)
      modifies this`targetFailures, this`offense
      ensures Pruned(before.barred, targetFailures, view.gameLoop, config)
      ensures AttackedBy(attacks, engaged, fighters,
                         AttackDue(view, before.barred, before.focus, OnScreen(before.engagement, view)),
                           Engaging(view, before.barred))
      ensures if view.ready then SearchedBy(searches, before.offense, offense, searchers, view, known.Values, config)
              else searches == []
      ensures forall a :: a in fighters <==> Fights(view, before.failures, a, config)
      ensures forall a :: a in searchers <==> Roams(view, before.failures, before.barred, a, config)
      ensures SearchesMovedOn(before, offense, view, config)
    {
      var fighting, free := Without(attackers, retreating), Without(movers, retreating);
      var fought;
      attacks, fought := AttackIntents(view, fighting);
      var searching := Without(free, fought);
      searches := SearchIfReady(view, searching);
      engaged, fighters, searchers := fought, fighting, searching;
      SearchedMovesOn(before, offense, searchers, view, config);
    }

    method DropLostEngagements(view: View)
      requires Valid()
      modifies this`engagement
      ensures Valid() && engagement == OnScreen(old(engagement), view)
    {
      engagement := OnScreen(engagement, view);
    }

    /** One tick: retreats first, then attacks, then searches. */
    method Decide(view: View) returns (intents: seq<Intent>)
      requires Valid() && ValidView(view)
      modifies this`engagement, this`targetFailures, this`actorFailures, this`retreats, this`offense, this`known
      ensures Valid()
      ensures OrdersDue(intents, old(Remembers()), retreats.states, offense, view, known.Values, config)
      ensures engagement == OnScreen(old(engagement), view)
      ensures SearchesMovedOn(old(Remembers()), offense, view, config)
      ensures Pruned(old(targetFailures), targetFailures, view.gameLoop, config)
      ensures known == Remembered(old(known), view.structures)
      ensures EvaluatedRetreats(old(retreats), retreats, view.gameLoop, config)
      ensures RetreatsMovedOn(old(Remembers()), retreats.states, view, config)
    {
      ghost var before := Remembers();
      RememberEnemyStructures(view);
      var attackers, movers := AvailableActors(view);
      DropLostEngagements(view);
      var retreatIntents, retreating := RetreatIntents(view, movers);
      MovedOnEvaluates(before.retreats, retreats, movers, view, config);
      MoversMovedOn(before, retreats.states, movers, view, config);
      var attackIntents, searchIntents, engaged, fighters, searchers :=
        FightAndSearch(view, attackers, movers, retreating, before);
      intents := retreatIntents + attackIntents + searchIntents;
      assert RetreatedBy(retreatIntents, retreating, movers, retreats.states, view, config);
      ghost var orders := Orders(movers, retreatIntents, retreating, fighters, attackIntents, engaged, searchers,
                                 searchIntents);
      OrdersAssemble(orders, before, retreats.states, offense, view, known.Values, config);
    }

    method Evaluate(view: View) returns (intents: seq<Intent>)
      requires Valid() && ValidView(view)
      modifies this
      ensures Valid() && episode == Some(view.episode)
      ensures
        var before := if old(episode) == Some(view.episode) then old(Remembers()) else BLANK;
        && OrdersDue(intents, before, retreats.states, offense, view, known.Values, config)
        && focus == before.focus && engagement == OnScreen(before.engagement, view)
        && SearchesMovedOn(before, offense, view, config)
        && Pruned(before.barred, targetFailures, view.gameLoop, config)
        && known == Remembered(before.known, view.structures)
        && EvaluatedRetreats(before.retreats, retreats, view.gameLoop, config)
        && RetreatsMovedOn(before, retreats.states, view, config)
    {
      ActivateEpisode(view);
      intents := Decide(view);
    }
  }
}
