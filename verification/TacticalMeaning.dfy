/** What one evaluation orders and remembers, said of the observation and the memory alone:
    who is sent home, who fights which target, who is sent searching, and when a retreat or a
    search ends. */
module TacticalMeaning {
  import opened Ordering
  import opened TacticalRules

  /** Offered for moves, or for attacks, with no quarantine running. */
  ghost predicate FreeToMove(before: Memory, view: View, a: Actor) {
    a in view.moveActors && (a in before.failures ==> before.failures[a].until <= view.gameLoop)
  }

  ghost predicate FreeToAttack(before: Memory, view: View, a: Actor) {
    a in view.attackActors && (a in before.failures ==> before.failures[a].until <= view.gameLoop)
  }

  /** Worn down, or facing a critical threat outnumbered. */
  ghost predicate InDanger(view: View, config: Config, a: Actor) {
    && a in view.groups
    && (view.groups[a].durability <= config.retreatHealth
        || (view.critical && view.enemies > view.groups[a].size))
  }

  /** The order it already has: for the same members and threat, with its cooldown running. */
  ghost predicate AlreadyRetreating(retreats: map<Actor, RetreatState>, view: View, a: Actor) {
    && a in retreats && a in view.groups
    && retreats[a].tags == view.groups[a].tags && retreats[a].signature == view.signature
    && view.gameLoop < retreats[a].cooldownUntil
  }

  // ----- who is sent home ---------------------------------------------------------------

  /** An actor is sent home exactly when it is free to move, in danger, away from home and not
      on the same retreat already. */
  lemma SentHomeMeaning(intents: seq<Intent>, before: Memory, retreats: map<Actor, RetreatState>,
                        offense: map<Actor, Offense>, view: View, known: set<Position>, config: Config, a: Actor)
    requires ValidView(view) && OrdersDue(intents, before, retreats, offense, view, known, config)
    ensures Intent(a, GoHome) in intents <==>
      && FreeToMove(before, view, a) && InDanger(view, config, a) && !view.groups[a].atHome
      && !AlreadyRetreating(retreats, view, a)
  {
    var i := Intent(a, GoHome);
    assert i in intents <==> OrderDue(i, before, retreats, offense, view, known, config);
  }

  /** A free actor in danger is ordered nothing but home. */
  lemma EndangeredOnlyRetreat(intents: seq<Intent>, before: Memory, retreats: map<Actor, RetreatState>,
                              offense: map<Actor, Offense>, view: View, known: set<Position>, config: Config, i: Intent)
    requires ValidView(view) && OrdersDue(intents, before, retreats, offense, view, known, config)
    requires i in intents && FreeToMove(before, view, i.actor) && InDanger(view, config, i.actor)
    ensures i.aim == GoHome
  {
    assert OrderDue(i, before, retreats, offense, view, known, config);
  }

  /** A retreat of a present actor ends exactly when the group has recovered, is not
      outnumbered, has arrived, and its cooldown is over; otherwise it stays as it is, except
      that standing at home counts as arriving and renews the cooldown. */
  lemma RetreatEnds(before: Memory, retreats: map<Actor, RetreatState>, view: View, config: Config, a: Actor)
    requires RetreatsMovedOn(before, retreats, view, config)
    requires a in before.retreats.states && FreeToMove(before, view, a) && a in view.groups
    ensures var was, group := before.retreats.states[a], view.groups[a];
      && (a !in retreats <==>
            && group.durability >= config.exitHealth && !(view.critical && view.enemies > group.size)
            && was.phase == Arrived && view.gameLoop >= was.cooldownUntil)
      && (a in retreats && !group.atHome ==> retreats[a] == was.(missingSince := None))
      && (a in retreats && group.atHome ==>
            && retreats[a].phase == Arrived
            && retreats[a].cooldownUntil >= was.cooldownUntil
            && retreats[a].cooldownUntil >= view.gameLoop + config.retreatCooldown
            && retreats[a].cooldownUntil in {was.cooldownUntil, view.gameLoop + config.retreatCooldown}
            && retreats[a].(phase := was.phase, cooldownUntil := was.cooldownUntil) == was.(missingSince := None))
  {
    assert Find(retreats, a) == NextRetreat(before.retreats.states[a], a, MayMove(view, before.failures, a), view,
                                            config);
  }

  /** A retreat of an absent actor is kept for the grace period and then forgotten; one whose
      members are unknown is kept. */
  lemma RetreatOfTheAbsent(before: Memory, retreats: map<Actor, RetreatState>, view: View, config: Config, a: Actor)
    requires RetreatsMovedOn(before, retreats, view, config) && a in before.retreats.states
    ensures var was := before.retreats.states[a];
      && (!FreeToMove(before, view, a) && was.missingSince == None ==>
            a in retreats && retreats[a] == was.(missingSince := Some(view.gameLoop)))
      && (!FreeToMove(before, view, a) && was.missingSince != None ==>
            && (a !in retreats <==> view.gameLoop - was.missingSince.value >= config.grace)
            && (a in retreats ==> retreats[a] == was))
      && (FreeToMove(before, view, a) && a !in view.groups ==>
            a in retreats && retreats[a] == was.(missingSince := None))
  {
    assert Find(retreats, a) == NextRetreat(before.retreats.states[a], a, MayMove(view, before.failures, a), view,
                                            config);
  }

  /** No retreat begins in an evaluation. */
  lemma NoRetreatBegins(before: Memory, retreats: map<Actor, RetreatState>, view: View, config: Config, a: Actor)
    requires RetreatsMovedOn(before, retreats, view, config) && a !in before.retreats.states
    ensures a !in retreats
  {
    assert a !in before.retreats.states.Keys;
  }

  // ----- who fights whom ----------------------------------------------------------------

  /** On screen, within the actor's reach, and with no quarantine of its own running. */
  ghost predicate CanHit(before: Memory, view: View, a: Actor, tag: Tag) {
    && tag in view.targets && a in view.attackable && tag in view.attackable[a]
    && ((a, tag) in before.barred ==> before.barred[(a, tag)].until <= view.gameLoop)
  }

  /** Ahead of another target: by class, then by health, then by tag. */
  ghost predicate Ahead(view: View, tag: Tag, other: Tag)
    requires tag in view.targets && other in view.targets
  {
    var x, y := view.targets[tag], view.targets[other];
    x.class_ < y.class_ || (x.class_ == y.class_
                            && (x.health < y.health || (x.health == y.health && StringLess(tag, other))))
  }

  /** The target kept in focus while it can be hit, and otherwise the foremost. */
  ghost predicate ToHit(before: Memory, view: View, a: Actor, tag: Tag) {
    && CanHit(before, view, a, tag)
    && if a in before.focus && CanHit(before, view, a, before.focus[a]) then tag == before.focus[a]
       else forall other :: CanHit(before, view, a, other) && other != tag ==> Ahead(view, tag, other)
  }

  /** The attack order its members already have. */
  ghost predicate AlreadyAttacking(before: Memory, view: View, a: Actor, tag: Tag) {
    && a in before.engagement && before.engagement[a].target == tag
    && before.engagement[a].tags == if a in view.groups then view.groups[a].tags else []
  }

  lemma TargetsMeaning(before: Memory, view: View, a: Actor, tag: Tag)
    requires ValidView(view)
    ensures CanHit(before, view, a, tag) <==>
            tag in view.targets && view.targets[tag] in EligibleTargets(view, before.barred, a, Attackable(view, a))
  {
  }

  lemma FocusMeaning(before: Memory, view: View, a: Actor, tag: Tag)
    requires ValidView(view) && tag in view.targets
    ensures IsFocus(before.focus, a, EligibleTargets(view, before.barred, a, Attackable(view, a)), view.targets[tag])
       <==> ToHit(before, view, a, tag)
  {
    var targets := EligibleTargets(view, before.barred, a, Attackable(view, a));
    forall t ensures CanHit(before, view, a, t) <==> t in view.targets && view.targets[t] in targets {
      TargetsMeaning(before, view, a, t);
    }
    forall t | t in targets ensures CanHit(before, view, a, t.tag) && view.targets[t.tag] == t {
      TargetsMeaning(before, view, a, t.tag);
    }
    forall other | CanHit(before, view, a, other) && other != tag
      ensures Ahead(view, tag, other) <==> !TargetLess(view.targets[other], view.targets[tag])
    {
      StringTrichotomy(tag, other);
    }
    StringTrichotomy(tag, tag);
  }

  /** An actor is ordered to attack a target exactly when it is free to attack, is not to
      retreat, the target is the one to hit, and its members have no such order yet. */
  lemma AttackMeaning(intents: seq<Intent>, before: Memory, retreats: map<Actor, RetreatState>,
                      offense: map<Actor, Offense>, view: View, known: set<Position>, config: Config, a: Actor,
                      tag: Tag)
    requires ValidView(view) && OrdersDue(intents, before, retreats, offense, view, known, config)
    ensures Intent(a, AttackTarget(tag)) in intents <==>
      && FreeToAttack(before, view, a) && !(FreeToMove(before, view, a) && InDanger(view, config, a))
      && ToHit(before, view, a, tag) && !AlreadyAttacking(before, view, a, tag)
  {
    var i := Intent(a, AttackTarget(tag));
    assert i in intents <==> OrderDue(i, before, retreats, offense, view, known, config);
    if tag in view.targets {
      FocusMeaning(before, view, a, tag);
    }
  }

  // ----- who searches where -------------------------------------------------------------

  /** Free to move and neither to retreat nor able to fight. */
  ghost predicate Idles(before: Memory, view: View, config: Config, a: Actor) {
    && FreeToMove(before, view, a) && !InDanger(view, config, a)
    && !(FreeToAttack(before, view, a) && exists tag :: CanHit(before, view, a, tag))
  }

  lemma IdlesMeaning(before: Memory, view: View, config: Config, a: Actor)
    requires ValidView(view)
    ensures Idles(before, view, config, a) <==> Roams(view, before.failures, before.barred, a, config)
  {
    var targets := EligibleTargets(view, before.barred, a, Attackable(view, a));
    if targets != [] {
      TargetsMeaning(before, view, a, targets[0].tag);
    }
    if tag :| CanHit(before, view, a, tag) {
      TargetsMeaning(before, view, a, tag);
    }
  }

  ghost predicate OnOffer(view: View, a: Actor, w: Waypoint) {
    a in view.waypoints && w in view.waypoints[a]
  }

  ghost function Centre(view: View, a: Actor): Option<Position> {
    if a in view.groups then view.groups[a].centroid else None
  }

  /** The group stands at the waypoint it was heading for. */
  ghost predicate ReachesIts(state: Offense, view: View, config: Config, a: Actor) {
    && state.waypoint.Some? && OnOffer(view, a, state.waypoint.value) && Centre(view, a).Some?
    && config.distance(Centre(view, a).value, state.waypoint.value) <= config.arrivalRadius
  }

  /** No closer by more than half a unit than it was at its best. */
  ghost predicate MakesNoProgress(state: Offense, view: View, config: Config, a: Actor)
    requires state.waypoint.Some? && Centre(view, a).Some?
  {
    && state.bestDistance.Some?
    && config.distance(Centre(view, a).value, state.waypoint.value) >= state.bestDistance.value - 0.5
  }

  /** It has not come closer for the stall time, or cannot be seen and its cooldown is over. */
  ghost predicate GivesUp(state: Offense, view: View, config: Config, a: Actor)
    requires state.waypoint.Some?
  {
    if Centre(view, a).Some?
    then MakesNoProgress(state, view, config, a) && view.gameLoop - state.lastProgress >= config.stall
    else view.gameLoop >= state.cooldownUntil
  }

  /** The search `now` after an evaluation that found it as `was`. */
  ghost predicate SearchStep(was: Offense, now: Offense, view: View, config: Config, a: Actor) {
    && now.ids == was.ids
    && (forall w :: Some(w) != was.waypoint ==>
          (w in now.obsolete <==> w in was.obsolete && was.obsolete[w] > view.gameLoop)
          && (w in now.obsolete ==> now.obsolete[w] == was.obsolete[w]))
    && match was.waypoint
       case None => now == was.(phase := ArrivedThere, obsolete := now.obsolete)
       case Some(w) =>
         if !OnOffer(view, a, w) then
           && w in now.obsolete && now.obsolete[w] == view.gameLoop + config.waypointRetry
           && now == was.(phase := ArrivedThere, waypoint := None, obsolete := now.obsolete)
         else if ReachesIts(was, view, config, a) then
           && w in now.obsolete && now.obsolete[w] == 0x7fff_ffff_ffff_ffff
           && now == was.(phase := Searching, waypoint := None, bestDistance := None, obsolete := now.obsolete,
                         cooldownUntil := view.gameLoop + config.searchCooldown)
         else if GivesUp(was, view, config, a) then
           && w in now.obsolete && now.obsolete[w] == view.gameLoop + config.waypointRetry
           && now == was.(waypoint := None, bestDistance := None, obsolete := now.obsolete)
         else if Centre(view, a).Some? && !MakesNoProgress(was, view, config, a) then
           now == was.(bestDistance := Some(config.distance(Centre(view, a).value, w)), lastProgress := view.gameLoop,
                      obsolete := now.obsolete)
         else now == was.(obsolete := now.obsolete)
  }

  lemma SearchStepMeaning(was: Offense, view: View, config: Config, a: Actor)
    requires CandidatesOf(view, a) != []
    ensures SearchStep(was, NextOffense(was, a, view, config), view, config, a)
  {
    var s := Refreshed(was, CandidatesOf(view, a), view, config);
    if was.waypoint.Some? {
      assert OnOffer(view, a, was.waypoint.value) <==> was.waypoint.value in CandidatesOf(view, a);
    }
  }

  /** While the army is ready and somebody idles, the searches of the others, and of those with
      nowhere to go, are forgotten, and the idlers' move on by one step; otherwise all stay. */
  lemma SearchesAfterwards(before: Memory, offense: map<Actor, Offense>, view: View, config: Config, a: Actor)
    requires ValidView(view) && SearchesMovedOn(before, offense, view, config)
    ensures !view.ready || (forall b :: !Idles(before, view, config, b)) ==> offense == before.offense
    ensures view.ready && (exists b :: Idles(before, view, config, b)) ==>
      && (a in offense <==>
            a in before.offense && Idles(before, view, config, a) && exists w :: OnOffer(view, a, w))
      && (a in offense ==> SearchStep(before.offense[a], offense[a], view, config, a))
  {
    forall b ensures Idles(before, view, config, b) <==> Roams(view, before.failures, before.barred, b, config) {
      IdlesMeaning(before, view, config, b);
    }
    if view.ready && exists b :: Idles(before, view, config, b) {
      assert Find(offense, a) == if a in before.offense && Roams(view, before.failures, before.barred, a, config)
                                 then NextSearch(before.offense[a], a, view, config) else None;
      if CandidatesOf(view, a) != [] {
        assert OnOffer(view, a, CandidatesOf(view, a)[0]);
        if a in before.offense {
          SearchStepMeaning(before.offense[a], view, config, a);
        }
      }
    }
  }

  /** On offer and not barred for the actor. */
  ghost predicate MayGo(offense: map<Actor, Offense>, view: View, a: Actor, w: Waypoint) {
    OnOffer(view, a, w) && (a in offense ==> w !in offense[a].obsolete)
  }

  lemma MayGoMeaning(offense: map<Actor, Offense>, view: View, a: Actor, w: Waypoint)
    ensures MayGo(offense, view, a, w) <==> w in OpenFor(offense, a, view)
  {
  }

  /** An actor is sent searching exactly when the army is ready, it idles, has no way to go and
      no cooldown left, has not just arrived, and some waypoint is open to it. */
  lemma SentSearchingMeaning(intents: seq<Intent>, before: Memory, retreats: map<Actor, RetreatState>,
                             offense: map<Actor, Offense>, view: View, known: set<Position>, config: Config, a: Actor)
    requires ValidView(view) && OrdersDue(intents, before, retreats, offense, view, known, config)
    ensures (exists w :: Intent(a, SearchAt(w)) in intents) <==>
      && view.ready && Idles(before, view, config, a)
      && (a in offense ==> offense[a].waypoint == None && view.gameLoop >= offense[a].cooldownUntil)
      && !(a in before.offense && ReachesIts(before.offense[a], view, config, a))
      && exists w :: MayGo(offense, view, a, w)
  {
    IdlesMeaning(before, view, config, a);
    OrdersSearchMeaning(before, offense, view, config, a);
    if w :| Intent(a, SearchAt(w)) in intents {
      assert OrderDue(Intent(a, SearchAt(w)), before, retreats, offense, view, known, config);
    }
    if SearchDue(before, offense, a, view, config) {
      var i :| i in intents && i.actor == a;
      assert OrderDue(i, before, retreats, offense, view, known, config);
      if i.aim.AttackTarget? {
        OrderedHasTargets(view, before.barred, before.focus, OnScreen(before.engagement, view), a, i.aim.tag);
      }
      assert i == Intent(a, SearchAt(i.aim.waypoint));
    }
  }

  lemma OrdersSearchMeaning(before: Memory, offense: map<Actor, Offense>, view: View, config: Config, a: Actor)
    ensures OrdersSearch(before.offense, offense, a, view, config) <==>
      && (a in offense ==> offense[a].waypoint == None && view.gameLoop >= offense[a].cooldownUntil)
      && !(a in before.offense && ReachesIts(before.offense[a], view, config, a))
      && exists w :: MayGo(offense, view, a, w)
  {
    forall w ensures MayGo(offense, view, a, w) <==> w in OpenFor(offense, a, view) {
      MayGoMeaning(offense, view, a, w);
    }
    if OpenFor(offense, a, view) != [] {
      assert MayGo(offense, view, a, OpenFor(offense, a, view)[0]);
    }
  }

  /** The distance from `w` to the nearest known enemy structure is at least `d`. */
  ghost predicate AtLeastAway(known: set<Position>, w: Waypoint, config: Config, d: real) {
    forall p :: p in known ==> config.distance(p, w) >= d
  }

  /** It is sent to an open waypoint: as near to a known enemy structure as any, and the
      smallest of the equally near; while none is known, to the first that is open. */
  lemma SearchPlaceMeaning(intents: seq<Intent>, before: Memory, retreats: map<Actor, RetreatState>,
                           offense: map<Actor, Offense>, view: View, known: set<Position>, config: Config, a: Actor,
                           w: Waypoint)
    requires ValidView(view) && OrdersDue(intents, before, retreats, offense, view, known, config)
    requires Intent(a, SearchAt(w)) in intents
    ensures MayGo(offense, view, a, w)
    ensures known == {} ==>
      exists k :: 0 <= k < |view.waypoints[a]| && view.waypoints[a][k] == w
               && forall j :: 0 <= j < k ==> !MayGo(offense, view, a, view.waypoints[a][j])
    ensures forall p, other :: p in known && MayGo(offense, view, a, other) ==>
      exists q :: q in known && config.distance(q, w) <= config.distance(p, other)
                  && (AtLeastAway(known, w, config, config.distance(p, other)) ==>
                        w == other || w.0 < other.0 || (w.0 == other.0 && w.1 < other.1))
  {
    assert OrderDue(Intent(a, SearchAt(w)), before, retreats, offense, view, known, config);
    var open := OpenFor(offense, a, view);
    MayGoMeaning(offense, view, a, w);
    if known == {} {
      FirstOpen(CandidatesOf(view, a), if a in offense then offense[a].obsolete else map[]);
    }
    forall p, other | p in known && MayGo(offense, view, a, other)
      ensures exists q :: q in known && config.distance(q, w) <= config.distance(p, other)
                  && (AtLeastAway(known, w, config, config.distance(p, other)) ==>
                        w == other || w.0 < other.0 || (w.0 == other.0 && w.1 < other.1))
    {
      MayGoMeaning(offense, view, a, other);
      var d, q := Nearest(known, other, config);
      var e, r := Nearest(known, w, config);
      assert e < d || (e == d && !WaypointLess(other, w));
      assert config.distance(r, w) <= config.distance(p, other);
    }
  }

  lemma Nearest(known: set<Position>, w: Waypoint, config: Config) returns (d: real, p: Position)
    requires known != {}
    ensures NearestIs(known, w, config, d) && p in known && config.distance(p, w) == d
    decreases |known|
  {
    var q :| q in known;
    d, p := config.distance(q, w), q;
    var rest := known - {q};
    if rest != {} {
      var e, r := Nearest(rest, w, config);
      if e < d {
        d, p := e, r;
      }
    }
    forall x | x in known ensures d <= config.distance(x, w) {
      assert x == q || x in rest;
    }
  }

  lemma {:induction false} FirstOpen(candidates: seq<Waypoint>, obsolete: map<Waypoint, nat>)
    requires Open(candidates, obsolete) != []
    ensures exists k :: 0 <= k < |candidates| && candidates[k] == Open(candidates, obsolete)[0]
                     && forall j :: 0 <= j < k ==> candidates[j] in obsolete
  {
    var n := |candidates| - 1;
    var init := Open(candidates[..n], obsolete);
    if init != [] {
      FirstOpen(candidates[..n], obsolete);
      var k :| 0 <= k < n && candidates[..n][k] == init[0] && forall j :: 0 <= j < k ==> candidates[..n][j] in obsolete;
      assert candidates[k] == init[0] && forall j :: 0 <= j < k ==> candidates[j] == candidates[..n][j];
    } else {
      forall j | 0 <= j < n ensures candidates[j] in obsolete {
        assert candidates[..n][j] == candidates[j];
        assert candidates[j] in obsolete <==> candidates[j] !in init;
      }
      assert candidates[n] == Open(candidates, obsolete)[0];
    }
  }

  // ----- known structures ---------------------------------------------------------------

  /** The sighting says something of the structure: that it is gone, or where it is. */
  ghost predicate Telling(s: Sighting, tag: Tag) {
    s.tag == tag && (!s.alive || s.position.Some?)
  }

  lemma {:induction false} UntoldStays(known: map<Tag, Position>, sightings: seq<Sighting>, tag: Tag)
    requires forall i :: 0 <= i < |sightings| ==> !Telling(sightings[i], tag)
    ensures Find(Remembered(known, sightings), tag) == Find(known, tag)
  {
    if sightings != [] {
      UntoldStays(known, sightings[..|sightings| - 1], tag);
    }
  }

  /** Of each structure the last telling sighting counts; without one, what was known. */
  lemma {:induction false} RememberedMeaning(known: map<Tag, Position>, sightings: seq<Sighting>, tag: Tag, i: nat)
    requires i < |sightings| && Telling(sightings[i], tag)
    requires forall j :: i < j < |sightings| ==> !Telling(sightings[j], tag)
    ensures Find(Remembered(known, sightings), tag) == if sightings[i].alive then sightings[i].position else None
  {
    if i + 1 < |sightings| {
      RememberedMeaning(known, sightings[..|sightings| - 1], tag, i);
    }
  }
}
