/** What the tactical agent decides for one actor: the states it keeps per actor, how an
    evaluation moves them on, and when it issues a retreat, an attack or a search. */
module TacticalRules {
  import opened Ordering

  type Actor = string
  type Tag = string
  type Waypoint = (int, int)
  type Position = (real, real)

  /** Digest of operation, members, threat and the fixed destination "home". */
  datatype Commitment = Commitment(operation: string, tags: seq<Tag>, signature: string)

  datatype Ids = Ids(command: Option<string>, operation: Option<string>, attempt: Option<string>)

  const NO_IDS := Ids(None, None, None)

  datatype RetreatPhase = Retreating | Arrived

  datatype RetreatState = RetreatState(
    phase: RetreatPhase, cooldownUntil: nat, tags: seq<Tag>, signature: string,
    missingSince: Option<nat>, arrivalEmitted: bool, ids: Ids, commitment: Option<Commitment>)

  datatype Engagement = Engagement(target: Tag, tags: seq<Tag>, confirmedAt: Option<nat>, ids: Ids)

  datatype SearchPhase = Advancing | ArrivedThere | Searching | Engaged

  datatype Offense = Offense(
    phase: SearchPhase, cooldownUntil: nat, waypoint: Option<Waypoint>, bestDistance: Option<real>,
    lastProgress: nat, obsolete: map<Waypoint, nat>, ids: Ids)

  datatype Failure = Failure(count: nat, until: nat)

  const FOREVER: nat := 0x7fff_ffff_ffff_ffff

  datatype Config = Config(
    retreatHealth: real, exitHealth: real, retreatCooldown: nat, searchCooldown: nat,
    grace: nat, arrivalRadius: real, stall: nat, waypointRetry: nat,
    retryLimit: nat, targetQuarantine: nat, actorQuarantine: nat,
    distance: (Position, Waypoint) -> real)

  // ----- what an observation shows ------------------------------------------------------

  /** The living members of one actor; `durability` is their median. */
  datatype Group = Group(tags: seq<Tag>, size: nat, durability: real, atHome: bool, centroid: Option<Position>)

  datatype Target = Target(tag: Tag, class_: nat, health: real)

  datatype Sighting = Sighting(tag: Tag, alive: bool, position: Option<Position>)

  datatype View = View(
    episode: (string, string), gameLoop: nat,
    attackActors: seq<Actor>, moveActors: seq<Actor>, groups: map<Actor, Group>,
    critical: bool, enemies: nat, signature: string,
    targets: map<Tag, Target>, attackable: map<Actor, seq<Tag>>,
    waypoints: map<Actor, seq<Waypoint>>, ready: bool, structures: seq<Sighting>)

  ghost predicate ValidView(view: View) {
    && (forall t :: t in view.targets ==> view.targets[t].tag == t)
    && (forall a :: a in view.groups ==> view.groups[a].size >= 1)
  }

  function TagsOf(view: View, actor: Actor): seq<Tag> {
    if actor in view.groups then view.groups[actor].tags else []
  }

  /** `list(dict.fromkeys(...))`. */
  function Unique<T(==,!new)>(s: seq<T>): (r: seq<T>)
    ensures forall x :: x in r <==> x in s
    ensures forall i, j :: 0 <= i < j < |r| ==> r[i] != r[j]
  {
    if s == [] then []
    else
      var init := Unique(s[..|s| - 1]);
      if s[|s| - 1] in init then init else init + [s[|s| - 1]]
  }

  // ----- intents ------------------------------------------------------------------------

  datatype Aim = AttackTarget(tag: Tag) | GoHome | SearchAt(waypoint: Waypoint)

  datatype Intent = Intent(actor: Actor, aim: Aim)

  ghost predicate OneEach(intents: seq<Intent>) {
    forall i, j :: 0 <= i < j < |intents| ==> intents[i].actor != intents[j].actor
  }

  predicate Quarantined(failures: map<Actor, Failure>, actor: Actor, gameLoop: nat) {
    actor in failures && failures[actor].until > gameLoop
  }

  predicate TargetQuarantined(failures: map<(Actor, Tag), Failure>, actor: Actor, tag: Tag, gameLoop: nat) {
    (actor, tag) in failures && failures[(actor, tag)].until > gameLoop
  }

  predicate TargetLess(a: Target, b: Target) {
    if a.class_ != b.class_ then a.class_ < b.class_
    else if a.health != b.health then a.health < b.health
    else StringLess(a.tag, b.tag)
  }

  function LowestRank(targets: seq<Target>): (best: Target)
    requires targets != []
    ensures best in targets
  {
    if |targets| == 1 then targets[0]
    else
      var rest := LowestRank(targets[..|targets| - 1]);
      if TargetLess(targets[|targets| - 1], rest) then targets[|targets| - 1] else rest
  }

  lemma {:induction false} LowestRankIsLowest(targets: seq<Target>)
    requires targets != []
    ensures forall t :: t in targets ==> !TargetLess(t, LowestRank(targets))
  {
    var n := |targets| - 1;
    var last := targets[n];
    StringTrichotomy(last.tag, last.tag);
    if n > 0 {
      LowestRankIsLowest(targets[..n]);
      var rest := LowestRank(targets[..n]);
      forall t | t in targets ensures !TargetLess(t, LowestRank(targets)) {
        if t != last {
          assert t in targets[..n];
        }
        if TargetLess(t, last) && TargetLess(last, rest) {
          TargetLessTransitive(t, last, rest);
        }
      }
    }
  }

  lemma TargetLessTransitive(a: Target, b: Target, c: Target)
    requires TargetLess(a, b) && TargetLess(b, c)
    ensures TargetLess(a, c)
  {
    if StringLess(a.tag, b.tag) && StringLess(b.tag, c.tag) {
      StringTransitive(a.tag, b.tag, c.tag);
    }
  }

  // ----- the retreat book ---------------------------------------------------------------

  /** Everything that outlives a tick about retreats. */
  datatype RetreatBook = RetreatBook(
    states: map<Actor, RetreatState>, arrivals: set<Commitment>, cooldowns: map<Commitment, nat>)

  const NO_RETREATS := RetreatBook(map[], {}, map[])

  function Find<K, V>(m: map<K, V>, k: K): Option<V> {
    if k in m then Some(m[k]) else None
  }

  function NatMax(a: nat, b: nat): nat { if a >= b then a else b }

  /** A retreat dispatched for an operation commits to it, its members and their threat. */
  function CommitmentOf(tags: seq<Tag>, signature: string, ids: Ids): Option<Commitment> {
    if ids.operation.Some? then Some(Commitment(ids.operation.value, tags, signature)) else None
  }

  function StoredCooldown(book: RetreatBook, commitment: Option<Commitment>): nat {
    if commitment.Some? && commitment.value in book.cooldowns then book.cooldowns[commitment.value] else 0
  }

  function DispatchedRetreat(book: RetreatBook, actor: Actor, tags: seq<Tag>, signature: string, ids: Ids,
                             gameLoop: nat, config: Config): RetreatBook {
    var commitment := CommitmentOf(tags, signature, ids);
    book.(states := book.states[actor := RetreatState(
      Retreating, NatMax(gameLoop + config.retreatCooldown, StoredCooldown(book, commitment)), tags, signature, None,
      commitment.Some? && commitment.value in book.arrivals, ids, commitment)])
  }

  datatype Status = Succeeded | Failed | Cancelled | Unconfirmed

  /** The diagnostic returned for a report. */
  datatype Notice =
    | ActorQuarantined(actor: Actor, count: nat, until: nat)
    | SatisfiedByPeer(actor: Actor, target: Tag)
    | Confirmed(actor: Actor, target: Tag)
    | TargetFailed(actor: Actor, target: Tag, count: nat, quarantinedUntil: Option<nat>)
    | RetreatArrived(actor: Actor, commitment: Option<Commitment>)
    | RetreatCooldown(actor: Actor, until: nat)
    | OffenseArrived(actor: Actor)
    | WaypointFailed(actor: Actor, until: nat)

  predicate AlreadyArrived(book: RetreatBook, state: RetreatState) {
    (state.phase == Arrived && state.arrivalEmitted)
    || (state.commitment.Some? && state.commitment.value in book.arrivals)
  }

  /** Whether a move report announces an arrival. */
  predicate Arrives(book: RetreatBook, actor: Actor, status: Status) {
    status == Succeeded && actor in book.states && !AlreadyArrived(book, book.states[actor])
  }

  /** A successful move report for an actor with a retreat state. */
  function ArrivedRetreat(book: RetreatBook, actor: Actor, gameLoop: nat, config: Config): RetreatBook
    requires actor in book.states
  {
    var state := book.states[actor];
    if AlreadyArrived(book, state) then book
    else
      var until := NatMax(state.cooldownUntil, gameLoop + config.retreatCooldown);
      RetreatBook(
        book.states[actor := state.(phase := Arrived, arrivalEmitted := true, cooldownUntil := until)],
        if state.commitment.Some? then book.arrivals + {state.commitment.value} else book.arrivals,
        if state.commitment.Some? then book.cooldowns[state.commitment.value := until] else book.cooldowns)
  }

  function FailedRetreat(book: RetreatBook, actor: Actor, gameLoop: nat, config: Config): RetreatBook
    requires actor in book.states
  {
    var state := book.states[actor];
    book.(states := book.states[actor := state.(cooldownUntil := NatMax(state.cooldownUntil,
                                                                        gameLoop + config.retreatCooldown))])
  }

  function ReportedRetreat(book: RetreatBook, actor: Actor, status: Status, gameLoop: nat, config: Config): RetreatBook
    requires actor in book.states
  {
    match status
    case Succeeded => ArrivedRetreat(book, actor, gameLoop, config)
    case Failed => FailedRetreat(book, actor, gameLoop, config)
    case _ => book
  }

  function ForgottenRetreat(book: RetreatBook, actor: Actor): RetreatBook {
    book.(states := book.states - {actor})
  }

  /** One evaluation adds no retreat, emits no arrival, and leaves each survivor's identity
      alone; a cooldown only grows, to at most a full cooldown from now. */
  ghost predicate EvaluatedRetreats(before: RetreatBook, after: RetreatBook, gameLoop: nat, config: Config) {
    && after.arrivals == before.arrivals && after.cooldowns == before.cooldowns
    && after.states.Keys <= before.states.Keys
    && forall a :: a in after.states ==> EvaluatedRetreat(before.states[a], after.states[a], gameLoop, config)
  }

  ghost predicate EvaluatedRetreat(before: RetreatState, after: RetreatState, gameLoop: nat, config: Config) {
    && after.ids == before.ids && after.commitment == before.commitment
    && after.tags == before.tags && after.signature == before.signature
    && after.arrivalEmitted == before.arrivalEmitted && (before.phase == Arrived ==> after.phase == Arrived)
    && before.cooldownUntil <= after.cooldownUntil <= NatMax(before.cooldownUntil, gameLoop + config.retreatCooldown)
  }

  // ----- what one evaluation forgets ----------------------------------------------------

  function Remembered(known: map<Tag, Position>, sightings: seq<Sighting>): map<Tag, Position> {
    if sightings == [] then known
    else
      var before := Remembered(known, sightings[..|sightings| - 1]);
      var enemy := sightings[|sightings| - 1];
      if !enemy.alive then before - {enemy.tag}
      else if enemy.position.Some? then before[enemy.tag := enemy.position.value]
      else before
  }

  function NotQuarantined(actors: seq<Actor>, failures: map<Actor, Failure>, gameLoop: nat): (r: seq<Actor>)
    ensures forall a :: a in r <==> a in actors && !Quarantined(failures, a, gameLoop)
    ensures Distinct(actors) ==> Distinct(r)
  {
    if actors == [] then []
    else
      var init := NotQuarantined(actors[..|actors| - 1], failures, gameLoop);
      var last := actors[|actors| - 1];
      if Quarantined(failures, last, gameLoop) then init else init + [last]
  }

  /** Only quarantines of `actors` that are over are gone. */
  ghost predicate Lifted(before: map<Actor, Failure>, after: map<Actor, Failure>, actors: seq<Actor>, gameLoop: nat) {
    forall a :: Find(after, a) ==
      if a in actors && !Quarantined(before, a, gameLoop) then None else Find(before, a)
  }

  ghost function Lifting(before: map<Actor, Failure>, gameLoop: nat): (map<Actor, Failure>, seq<Actor>) -> bool {
    (after: map<Actor, Failure>, actors: seq<Actor>) => Lifted(before, after, actors, gameLoop)
  }

  lemma EligibleOneMore(before: map<Actor, Failure>, after: map<Actor, Failure>, actors: seq<Actor>, i: nat,
                        gameLoop: nat)
    requires i < |actors| && Lifting(before, gameLoop)(after, actors[..i])
    ensures Quarantined(after, actors[i], gameLoop) == Quarantined(before, actors[i], gameLoop)
    ensures Lifting(before, gameLoop)(if Quarantined(before, actors[i], gameLoop) then after else after - {actors[i]},
                                      actors[..i + 1])
    ensures NotQuarantined(actors[..i + 1], before, gameLoop) == NotQuarantined(actors[..i], before, gameLoop)
      + if Quarantined(before, actors[i], gameLoop) then [] else [actors[i]]
  {
    assert actors[..i + 1] == actors[..i] + [actors[i]] && actors[..i + 1][..i] == actors[..i];
  }

  /** Only bars that are over, and had reached the retry limit, are gone. */
  ghost predicate Pruned(before: map<(Actor, Tag), Failure>, after: map<(Actor, Tag), Failure>, gameLoop: nat,
                         config: Config) {
    && (forall k :: k in after ==> k in before && after[k] == before[k])
    && (forall k :: k in before && k !in after ==> before[k].until <= gameLoop && before[k].count >= config.retryLimit)
  }

  lemma PrunedBarsTheSame(before: map<(Actor, Tag), Failure>, after: map<(Actor, Tag), Failure>, gameLoop: nat,
                          config: Config, actor: Actor, tag: Tag)
    requires Pruned(before, after, gameLoop, config)
    ensures TargetQuarantined(before, actor, tag, gameLoop) == TargetQuarantined(after, actor, tag, gameLoop)
  {
    var k := (actor, tag);
    if k in before && k !in after {
      assert before[k].until <= gameLoop;
    }
  }

  // ----- one evaluation, retreat by retreat ---------------------------------------------

  predicate Overwhelmed(group: Group, view: View) {
    view.critical && view.enemies > group.size
  }

  predicate ShouldRetreat(group: Group, view: View, config: Config) {
    group.durability <= config.retreatHealth || Overwhelmed(group, view)
  }

  predicate Recovered(state: RetreatState, group: Group, view: View, config: Config) {
    && group.durability >= config.exitHealth && !Overwhelmed(group, view)
    && state.phase == Arrived && view.gameLoop >= state.cooldownUntil
  }

  /** An absent actor's retreat survives a grace period. */
  function Marked(state: RetreatState, present: bool, gameLoop: nat, config: Config): Option<RetreatState> {
    if present then Some(state.(missingSince := None))
    else if state.missingSince.None? then Some(state.(missingSince := Some(gameLoop)))
    else if gameLoop - state.missingSince.value >= config.grace then None
    else Some(state)
  }

  /** A present actor's retreat ends on recovery and is renewed while it stands at home. */
  function Settled(state: RetreatState, actor: Actor, view: View, config: Config): Option<RetreatState> {
    if actor !in view.groups then Some(state)
    else if Recovered(state, view.groups[actor], view, config) then None
    else if view.groups[actor].atHome then
      Some(state.(phase := Arrived, cooldownUntil := NatMax(state.cooldownUntil,
                                                            view.gameLoop + config.retreatCooldown)))
    else Some(state)
  }

  /** What is left of a retreat after one evaluation. */
  function NextRetreat(state: RetreatState, actor: Actor, present: bool, view: View, config: Config)
    : Option<RetreatState>
  {
    match Marked(state, present, view.gameLoop, config)
    case None => None
    case Some(s) => if present then Settled(s, actor, view, config) else Some(s)
  }

  /** Every retreat has moved on, those of `done` all the way. */
  ghost predicate MovedOn(before: map<Actor, RetreatState>, after: map<Actor, RetreatState>, done: seq<Actor>,
                          movers: seq<Actor>, view: View, config: Config) {
    && after.Keys <= before.Keys
    && forall a :: a in before ==>
         Find(after, a) == if a in done then NextRetreat(before[a], a, a in movers, view, config)
                           else Marked(before[a], a in movers, view.gameLoop, config)
  }

  predicate Retreats(actor: Actor, view: View, config: Config) {
    actor in view.groups && ShouldRetreat(view.groups[actor], view, config)
  }

  /** The order already given: same members, same threat, cooldown still running. */
  predicate SameRetreat(state: RetreatState, group: Group, view: View) {
    state.tags == group.tags && state.signature == view.signature && view.gameLoop < state.cooldownUntil
  }

  predicate OrdersRetreat(states: map<Actor, RetreatState>, actor: Actor, view: View, config: Config) {
    && Retreats(actor, view, config) && !view.groups[actor].atHome
    && !(actor in states && SameRetreat(states[actor], view.groups[actor], view))
  }

  /** Moving on forgets or keeps: identity is never touched and cooldowns only grow. */
  lemma MovedOnEvaluates(before: RetreatBook, after: RetreatBook, movers: seq<Actor>, view: View, config: Config)
    requires after.arrivals == before.arrivals && after.cooldowns == before.cooldowns
    requires MovedOn(before.states, after.states, movers, movers, view, config)
    ensures EvaluatedRetreats(before, after, view.gameLoop, config)
  {
    forall a | a in after.states ensures EvaluatedRetreat(before.states[a], after.states[a], view.gameLoop, config) {
      assert Find(after.states, a) == if a in movers then NextRetreat(before.states[a], a, a in movers, view, config)
                                      else Marked(before.states[a], a in movers, view.gameLoop, config);
    }
  }

  function Replaced(states: map<Actor, RetreatState>, actor: Actor, state: Option<RetreatState>)
    : map<Actor, RetreatState>
  {
    if state.Some? then states[actor := state.value] else states - {actor}
  }

  /** `intents` are exactly the retreat orders due among `actors`. */
  ghost predicate RetreatedBy(intents: seq<Intent>, retreating: set<Actor>, actors: seq<Actor>,
                              states: map<Actor, RetreatState>, view: View, config: Config) {
    && OneEach(intents)
    && (forall i :: i in intents ==>
          i.aim == GoHome && i.actor in actors && OrdersRetreat(states, i.actor, view, config))
    && (forall a :: a in actors && OrdersRetreat(states, a, view, config) ==> Intent(a, GoHome) in intents)
    && (forall a :: a in retreating <==> a in actors && Retreats(a, view, config))
  }

  lemma RetreatedByOneMore(intents: seq<Intent>, retreating: set<Actor>, actors: seq<Actor>, actor: Actor,
                           states: map<Actor, RetreatState>, next: map<Actor, RetreatState>, view: View, config: Config)
    requires RetreatedBy(intents, retreating, actors, states, view, config) && actor !in actors
    requires forall a :: a != actor ==> Find(next, a) == Find(states, a)
    ensures RetreatedBy(if OrdersRetreat(next, actor, view, config) then intents + [Intent(actor, GoHome)] else intents,
                        if Retreats(actor, view, config) then retreating + {actor} else retreating,
                        actors + [actor], next, view, config)
  {
    forall a | a != actor ensures OrdersRetreat(next, a, view, config) == OrdersRetreat(states, a, view, config) {
      assert Find(next, a) == Find(states, a);
    }
  }

  /** The first pass over the retreats, before any present actor is looked at. */
  function AllMarked(states: map<Actor, RetreatState>, movers: seq<Actor>, gameLoop: nat, config: Config)
    : map<Actor, RetreatState>
  {
    map a | a in states && Marked(states[a], a in movers, gameLoop, config).Some? :: Marked(states[a], a in movers,
      gameLoop, config).value
  }

  ghost function MovingOn(before: map<Actor, RetreatState>, movers: seq<Actor>, view: View, config: Config)
    : (seq<Actor>, map<Actor, RetreatState>) -> bool
  {
    (done: seq<Actor>, after: map<Actor, RetreatState>) => MovedOn(before, after, done, movers, view, config)
  }

  ghost function Issuing(view: View, config: Config): (seq<Intent>, set<Actor>, seq<Actor>,
                         map<Actor, RetreatState>) -> bool {
    (intents: seq<Intent>, retreating: set<Actor>, actors: seq<Actor>, states: map<Actor, RetreatState>) =>
      RetreatedBy(intents, retreating, actors, states, view, config)
  }

  lemma SettleOneMore(before: map<Actor, RetreatState>, states: map<Actor, RetreatState>, intents: seq<Intent>,
                      retreating: set<Actor>,
                      done: seq<Actor>, actor: Actor, movers: seq<Actor>, view: View, config: Config)
    requires MovingOn(before, movers, view, config)(done, states)
      && Issuing(view, config)(intents, retreating, done, states)
    requires actor in movers && actor !in done
    ensures var next := if actor in states then Replaced(states, actor, Settled(states[actor], actor, view, config))
      else states;
      && MovingOn(before, movers, view, config)(done + [actor], next)
      && Issuing(view, config)(if OrdersRetreat(next, actor, view, config) then intents + [Intent(actor, GoHome)]
        else intents,
                               if Retreats(actor, view, config) then retreating + {actor} else retreating,
                                 done + [actor], next)
  {
    var next := if actor in states then Replaced(states, actor, Settled(states[actor], actor, view, config))
      else states;
    RetreatedByOneMore(intents, retreating, done, actor, states, next, view, config);
  }

  lemma TakeOneMore<T>(s: seq<T>, n: nat)
    requires n < |s|
    ensures s[..n + 1] == s[..n] + [s[n]]
  {
  }

  // ----- one evaluation, attack by attack -----------------------------------------------

  /** The living on-screen targets the actor can hit and is not barred from. */
  function EligibleTargets(view: View, failures: map<(Actor, Tag), Failure>, actor: Actor,
                           tags: seq<Tag>): (r: seq<Target>)
    requires ValidView(view)
    ensures forall t :: t in r ==>
      && t.tag in tags && t.tag in view.targets && t == view.targets[t.tag]
      && !TargetQuarantined(failures, actor, t.tag, view.gameLoop)
    ensures forall tag ::
      tag in tags && tag in view.targets && !TargetQuarantined(failures, actor, tag, view.gameLoop) ==>
        view.targets[tag] in r
  {
    if tags == [] then []
    else
      var init := EligibleTargets(view, failures, actor, tags[..|tags| - 1]);
      var tag := tags[|tags| - 1];
      if tag in view.targets && !TargetQuarantined(failures, actor, tag, view.gameLoop) then init + [view.targets[tag]]
      else init
  }

  function Attackable(view: View, actor: Actor): seq<Tag> {
    if actor in view.attackable then view.attackable[actor] else []
  }

  /** The target already in focus while it is eligible, else the best ranked. */
  ghost predicate IsFocus(focus: map<Actor, Tag>, actor: Actor, targets: seq<Target>, target: Target) {
    && target in targets
    && if actor in focus && (exists t :: t in targets && t.tag == focus[actor]) then target.tag == focus[actor]
       else forall t :: t in targets ==> !TargetLess(t, target)
  }

  datatype Posture = Idle | Holding(tag: Tag) | Ordering(tag: Tag)

  ghost predicate IsPosture(view: View, failures: map<(Actor, Tag), Failure>, focus: map<Actor, Tag>,
                            engagement: map<Actor, Engagement>, actor: Actor, posture: Posture)
    requires ValidView(view)
  {
    var targets := EligibleTargets(view, failures, actor, Attackable(view, actor));
    match posture
    case Idle => targets == []
    case Holding(tag) =>
      && tag in view.targets && IsFocus(focus, actor, targets, view.targets[tag])
      && Engages(engagement, view, actor, tag)
    case Ordering(tag) =>
      && tag in view.targets && IsFocus(focus, actor, targets, view.targets[tag])
      && !Engages(engagement, view, actor, tag)
  }

  /** The same members already have this very attack order. */
  predicate Engages(engagement: map<Actor, Engagement>, view: View, actor: Actor, tag: Tag) {
    actor in engagement && engagement[actor].target == tag && engagement[actor].tags == TagsOf(view, actor)
  }

  /** Postures are decided by the state alone: an actor has only one. */
  lemma PostureIsUnique(view: View, failures: map<(Actor, Tag), Failure>, focus: map<Actor, Tag>,
                        engagement: map<Actor, Engagement>, actor: Actor, a: Posture, b: Posture)
    requires ValidView(view)
    requires IsPosture(view, failures, focus, engagement, actor, a)
    requires IsPosture(view, failures, focus, engagement, actor, b)
    ensures a == b
  {
    var targets := EligibleTargets(view, failures, actor, Attackable(view, actor));
    if !a.Idle? && !b.Idle? {
      var x, y := view.targets[a.tag], view.targets[b.tag];
      StringTrichotomy(x.tag, y.tag);
      assert !TargetLess(x, y) && !TargetLess(y, x) ==> x.tag == y.tag;
    }
  }

  /** With focus and engagement in agreement, an engagement whose target is still eligible
      and whose members are the same is held, never ordered again. */
  lemma UnchangedEngagementHolds(view: View, failures: map<(Actor, Tag), Failure>, focus: map<Actor, Tag>,
                                 engagement: map<Actor, Engagement>, actor: Actor, posture: Posture)
    requires ValidView(view) && IsPosture(view, failures, focus, engagement, actor, posture)
    requires actor in engagement && actor in focus && focus[actor] == engagement[actor].target
    requires engagement[actor].tags == TagsOf(view, actor)
    requires engagement[actor].target in view.targets && engagement[actor].target in Attackable(view, actor)
    requires !TargetQuarantined(failures, actor, engagement[actor].target, view.gameLoop)
    ensures posture == Holding(engagement[actor].target)
  {
    var targets := EligibleTargets(view, failures, actor, Attackable(view, actor));
    assert view.targets[focus[actor]] in targets;
  }

  lemma {:induction false} EligibleTargetsDepend(view: View, f: map<(Actor, Tag), Failure>, g: map<(Actor, Tag),
                                                 Failure>,
                                                 actor: Actor, tags: seq<Tag>)
    requires ValidView(view)
    requires forall t :: TargetQuarantined(f, actor, t, view.gameLoop) == TargetQuarantined(g, actor, t, view.gameLoop)
    ensures EligibleTargets(view, f, actor, tags) == EligibleTargets(view, g, actor, tags)
  {
    if tags != [] {
      EligibleTargetsDepend(view, f, g, actor, tags[..|tags| - 1]);
    }
  }

  lemma PrunedTargetsAgree(view: View, before: map<(Actor, Tag), Failure>, after: map<(Actor, Tag), Failure>,
                           config: Config, actor: Actor)
    requires ValidView(view) && Pruned(before, after, view.gameLoop, config)
    ensures EligibleTargets(view, before, actor, Attackable(view, actor))
         == EligibleTargets(view, after, actor, Attackable(view, actor))
  {
    forall t ensures TargetQuarantined(before, actor, t, view.gameLoop)
      == TargetQuarantined(after, actor, t, view.gameLoop) {
      PrunedBarsTheSame(before, after, view.gameLoop, config, actor, t);
    }
    EligibleTargetsDepend(view, before, after, actor, Attackable(view, actor));
  }

  ghost predicate HasTargets(view: View, failures: map<(Actor, Tag), Failure>, actor: Actor)
    requires ValidView(view)
  {
    EligibleTargets(view, failures, actor, Attackable(view, actor)) != []
  }

  /** The attack orders due, and the actors with something to attack. */
  ghost function AttackDue(view: View, failures: map<(Actor, Tag), Failure>, focus: map<Actor, Tag>,
                           engagement: map<Actor, Engagement>): (Actor, Tag) -> bool
    requires ValidView(view)
  {
    (a: Actor, tag: Tag) => IsPosture(view, failures, focus, engagement, a, Ordering(tag))
  }

  ghost function Engaging(view: View, failures: map<(Actor, Tag), Failure>): Actor -> bool
    requires ValidView(view)
  {
    (a: Actor) => HasTargets(view, failures, a)
  }

  /** `intents` are exactly the attack orders due among `actors`. */
  ghost predicate AttackedBy(intents: seq<Intent>, engaged: set<Actor>, actors: seq<Actor>, due: (Actor, Tag) -> bool,
                             engaging: Actor -> bool) {
    && OneEach(intents)
    && (forall i :: i in intents ==> i.actor in actors && i.aim.AttackTarget? && due(i.actor, i.aim.tag))
    && (forall a, tag :: a in actors && due(a, tag) ==> Intent(a, AttackTarget(tag)) in intents)
    && (forall a :: a in engaged <==> a in actors && engaging(a))
  }

  lemma AttackedByOneMore(intents: seq<Intent>, engaged: set<Actor>, actors: seq<Actor>, actor: Actor,
                          order: Option<Tag>,
                          engages: bool, due: (Actor, Tag) -> bool, engaging: Actor -> bool)
    requires AttackedBy(intents, engaged, actors, due, engaging) && actor !in actors
    requires engaging(actor) == engages && forall tag :: due(actor, tag) <==> order == Some(tag)
    ensures AttackedBy(if order.Some? then intents + [Intent(actor, AttackTarget(order.value))] else intents,
                       if engages then engaged + {actor} else engaged, actors + [actor], due, engaging)
  {
  }

  /** An actor's posture tells which order is due. */
  lemma PostureDecides(view: View, failures: map<(Actor, Tag), Failure>, focus: map<Actor, Tag>,
                       engagement: map<Actor, Engagement>,
                       actor: Actor, posture: Posture)
    requires ValidView(view) && IsPosture(view, failures, focus, engagement, actor, posture)
    ensures Engaging(view, failures)(actor) == !posture.Idle?
    ensures forall tag :: AttackDue(view, failures, focus, engagement)(actor, tag) <==> posture == Ordering(tag)
  {
    forall tag | IsPosture(view, failures, focus, engagement, actor, Ordering(tag)) ensures posture == Ordering(tag) {
      PostureIsUnique(view, failures, focus, engagement, actor, posture, Ordering(tag));
    }
  }

  // ----- one evaluation, search by search -----------------------------------------------

  /** Waypoints still barred at `gameLoop`. */
  function Barred(obsolete: map<Waypoint, nat>, gameLoop: nat): map<Waypoint, nat> {
    map w | w in obsolete && obsolete[w] > gameLoop :: obsolete[w]
  }

  /** Forget expired bars and a waypoint no longer on offer. */
  function Refreshed(state: Offense, candidates: seq<Waypoint>, view: View, config: Config): Offense {
    var s := state.(obsolete := Barred(state.obsolete, view.gameLoop));
    if s.waypoint.None? then s.(phase := ArrivedThere)
    else if s.waypoint.value in candidates then s
    else s.(obsolete := s.obsolete[s.waypoint.value := view.gameLoop + config.waypointRetry],
            phase := ArrivedThere, waypoint := None)
  }

  datatype Progress = Arriving | Closer(distance: real) | Stalled | Underway

  /** How a move towards `waypoint` is going. */
  function ProgressOf(state: Offense, waypoint: Waypoint, centroid: Option<Position>, gameLoop: nat, config: Config)
    : Progress
  {
    if centroid.Some? then
      var d := config.distance(centroid.value, waypoint);
      if d <= config.arrivalRadius then Arriving
      else if state.bestDistance.None? || d < state.bestDistance.value - 0.5 then Closer(d)
      else if gameLoop - state.lastProgress >= config.stall then Stalled
      else Underway
    else if gameLoop >= state.cooldownUntil then Stalled
    else Underway
  }

  /** The search after one evaluation; a waypoint it still holds means no new order. */
  function Advanced(state: Offense, gameLoop: nat, centroid: Option<Position>, config: Config): Offense {
    if state.waypoint.None? then state
    else
      var w := state.waypoint.value;
      match ProgressOf(state, w, centroid, gameLoop, config)
      case Arriving =>
        state.(phase := Searching, obsolete := state.obsolete[w := FOREVER], waypoint := None, bestDistance := None,
               cooldownUntil := gameLoop + config.searchCooldown)
      case Closer(d) => state.(bestDistance := Some(d), lastProgress := gameLoop)
      case Stalled =>
        state.(obsolete := state.obsolete[w := gameLoop + config.waypointRetry], waypoint := None, bestDistance := None)
      case Underway => state
  }

  function CentroidOf(view: View, actor: Actor): Option<Position> {
    if actor in view.groups then view.groups[actor].centroid else None
  }

  function CandidatesOf(view: View, actor: Actor): seq<Waypoint> {
    if actor in view.waypoints then view.waypoints[actor] else []
  }

  function NextOffense(state: Offense, actor: Actor, view: View, config: Config): Offense {
    Advanced(Refreshed(state, CandidatesOf(view, actor), view, config), view.gameLoop, CentroidOf(view, actor), config)
  }

  /** The candidates an actor may be sent to. */
  function Open(candidates: seq<Waypoint>, obsolete: map<Waypoint, nat>): (r: seq<Waypoint>)
    ensures forall w :: w in r <==> w in candidates && w !in obsolete
  {
    if candidates == [] then []
    else
      var init := Open(candidates[..|candidates| - 1], obsolete);
      var last := candidates[|candidates| - 1];
      if last in obsolete then init else init + [last]
  }

  function OpenFor(offense: map<Actor, Offense>, actor: Actor, view: View): seq<Waypoint> {
    Open(CandidatesOf(view, actor), if actor in offense then offense[actor].obsolete else map[])
  }

  /** With the searches already moved on: no move under way, no cooldown, somewhere to go. */
  predicate OrdersSearch(before: map<Actor, Offense>, after: map<Actor, Offense>, actor: Actor, view: View,
                         config: Config) {
    && CandidatesOf(view, actor) != []
    && (actor in after ==> after[actor].waypoint.None? && view.gameLoop >= after[actor].cooldownUntil)
    && (actor in before ==> !JustArrived(before[actor], actor, view, config))
    && OpenFor(after, actor, view) != []
  }

  /** An arrival yields one search window even with no cooldown configured. */
  predicate JustArrived(state: Offense, actor: Actor, view: View, config: Config) {
    var s := Refreshed(state, CandidatesOf(view, actor), view, config);
    s.waypoint.Some? && ProgressOf(s, s.waypoint.value, CentroidOf(view, actor), view.gameLoop, config).Arriving?
  }

  predicate WaypointLess(a: Waypoint, b: Waypoint) {
    a.0 < b.0 || (a.0 == b.0 && a.1 < b.1)
  }

  ghost predicate NearestIs(known: set<Position>, w: Waypoint, config: Config, d: real) {
    (exists p :: p in known && config.distance(p, w) == d) && (forall p :: p in known ==> d <= config.distance(p, w))
  }

  /** The waypoint nearest any known enemy structure, smallest first among equals; with
      none known, the first candidate. */
  ghost predicate IsSelected(candidates: seq<Waypoint>, known: set<Position>, config: Config, chosen: Waypoint) {
    && chosen in candidates
    && if known == {} then chosen == candidates[0]
       else forall w, d, e ::
         w in candidates && NearestIs(known, w, config, d) && NearestIs(known, chosen, config, e) ==>
           e < d || (e == d && !WaypointLess(w, chosen))
  }

  /** The searches after an evaluation that may send `actors` out, those of `done` settled. */
  ghost predicate Searched(before: map<Actor, Offense>, after: map<Actor, Offense>, done: seq<Actor>,
                           actors: seq<Actor>,
                           view: View, config: Config) {
    forall a :: Find(after, a) ==
      if a !in before || a !in actors then None
      else if a !in done then Some(before[a])
      else NextSearch(before[a], a, view, config)
  }

  /** Without candidates the search is forgotten. */
  function NextSearch(state: Offense, actor: Actor, view: View, config: Config): Option<Offense> {
    if CandidatesOf(view, actor) == [] then None else Some(NextOffense(state, actor, view, config))
  }

  /** Who may be sent searching, and where to. */
  function SearchOrder(before: map<Actor, Offense>, after: map<Actor, Offense>, view: View,
                       config: Config): Actor -> bool {
    (a: Actor) => OrdersSearch(before, after, a, view, config)
  }

  ghost function SearchPlace(after: map<Actor, Offense>, view: View, known: set<Position>, config: Config): (Actor,
                             Waypoint) -> bool {
    (a: Actor, w: Waypoint) => IsSelected(OpenFor(after, a, view), known, config, w)
  }

  ghost predicate SearchesIssued(intents: seq<Intent>, done: seq<Actor>, due: Actor -> bool,
                                 place: (Actor, Waypoint) -> bool) {
    && OneEach(intents)
    && (forall i :: i in intents ==>
          i.actor in done && i.aim.SearchAt? && due(i.actor) && place(i.actor, i.aim.waypoint))
    && (forall a :: a in done && due(a) ==> Issued(intents, a))
  }

  ghost predicate Issued(intents: seq<Intent>, actor: Actor) {
    exists i :: i in intents && i.actor == actor
  }

  /** `intents` are exactly the search orders due among `done`. */
  ghost predicate SearchedBy(intents: seq<Intent>, before: map<Actor, Offense>, after: map<Actor, Offense>,
                             done: seq<Actor>,
                             view: View, known: set<Position>, config: Config) {
    SearchesIssued(intents, done, SearchOrder(before, after, view, config), SearchPlace(after, view, known, config))
  }

  lemma NobodySearches(offense: map<Actor, Offense>, view: View, known: set<Position>, config: Config)
    ensures SearchedBy([], offense, offense, [], view, known, config)
  {
  }

  lemma SearchedOneMore(before: map<Actor, Offense>, now: map<Actor, Offense>, next: map<Actor, Offense>,
                        done: seq<Actor>,
                        actor: Actor, actors: seq<Actor>, view: View, config: Config)
    requires Searched(before, now, done, actors, view, config) && actor in actors && actor !in done
    requires forall a :: a != actor ==> Find(next, a) == Find(now, a)
    requires Find(next, actor) == if actor in now then NextSearch(now[actor], actor, view, config) else None
    ensures Searched(before, next, done + [actor], actors, view, config)
    ensures Find(now, actor) == Find(before, actor)
  {
    assert Find(now, actor) == if actor !in before || actor !in actors then None else Some(before[actor]);
    forall a ensures Find(next, a) ==
      if a !in before || a !in actors then None
      else if a !in done + [actor] then Some(before[a])
      else NextSearch(before[a], a, view, config)
    {
      if a != actor {
        assert Find(next, a) == Find(now, a);
      }
    }
  }

  lemma SearchedByOneMore(intents: seq<Intent>, before: map<Actor, Offense>, now: map<Actor, Offense>,
                          next: map<Actor, Offense>,
                          done: seq<Actor>, actor: Actor, intent: Option<Intent>, view: View, known: set<Position>,
                          config: Config)
    requires SearchedBy(intents, before, now, done, view, known, config) && actor !in done
    requires forall a :: a != actor ==> Find(next, a) == Find(now, a)
    requires intent.Some? <==> OrdersSearch(before, next, actor, view, config)
    requires intent.Some? ==>
      && intent.value.actor == actor && intent.value.aim.SearchAt?
      && IsSelected(OpenFor(next, actor, view), known, config, intent.value.aim.waypoint)
    ensures SearchedBy(if intent.Some? then intents + [intent.value] else intents, before, next, done + [actor], view,
                       known, config)
  {
    forall a | a != actor
      ensures SearchOrder(before, next, view, config)(a) == SearchOrder(before, now, view, config)(a)
      ensures forall w :: SearchPlace(next, view, known, config)(a, w) == SearchPlace(now, view, known, config)(a, w)
    {
      SearchDependsOnOwn(before, now, next, a, view, config);
    }
    IssuedOneMore(intents, done, actor, intent, SearchOrder(before, now, view, config),
                  SearchOrder(before, next, view, config),
                  SearchPlace(now, view, known, config), SearchPlace(next, view, known, config));
  }

  lemma SearchDependsOnOwn(before: map<Actor, Offense>, now: map<Actor, Offense>, next: map<Actor, Offense>, a: Actor,
                           view: View,
                           config: Config)
    requires Find(next, a) == Find(now, a)
    ensures OrdersSearch(before, next, a, view, config) == OrdersSearch(before, now, a, view, config)
    ensures OpenFor(next, a, view) == OpenFor(now, a, view)
  {
  }

  lemma IssuedOneMore(intents: seq<Intent>, done: seq<Actor>, actor: Actor, intent: Option<Intent>, due: Actor -> bool,
                      dueNext: Actor -> bool,
                      place: (Actor, Waypoint) -> bool, placeNext: (Actor, Waypoint) -> bool)
    requires SearchesIssued(intents, done, due, place) && actor !in done
    requires forall a :: a != actor ==> dueNext(a) == due(a) && forall w :: placeNext(a, w) == place(a, w)
    requires intent.Some? <==> dueNext(actor)
    requires intent.Some? ==>
      intent.value.actor == actor && intent.value.aim.SearchAt? && placeNext(actor, intent.value.aim.waypoint)
    ensures SearchesIssued(if intent.Some? then intents + [intent.value] else intents, done + [actor], dueNext,
                           placeNext)
  {
    var all := if intent.Some? then intents + [intent.value] else intents;
    forall a | a in done + [actor] && dueNext(a) ensures Issued(all, a) {
      if a == actor {
        assert intent.value in all;
      } else {
        var i :| i in intents && i.actor == a;
        assert i in all;
      }
    }
  }

  /** An evaluation keeps every bar that has not run out; what it adds is the waypoint it
      gives up. So a waypoint that was reached, or failed less than the retry time ago, is
      never among the open candidates. */
  lemma BarsLast(state: Offense, actor: Actor, view: View, config: Config, w: Waypoint)
    requires w in state.obsolete && state.obsolete[w] > view.gameLoop && state.waypoint != Some(w)
    ensures w in NextOffense(state, actor, view, config).obsolete
    ensures NextOffense(state, actor, view, config).obsolete[w] == state.obsolete[w]
    ensures w !in Open(CandidatesOf(view, actor), NextOffense(state, actor, view, config).obsolete)
  {
    var s := Refreshed(state, CandidatesOf(view, actor), view, config);
    assert w in s.obsolete && s.obsolete[w] == state.obsolete[w];
  }

  /** The waypoint chosen is one alone. */
  lemma SelectionIsUnique(candidates: seq<Waypoint>, known: set<Position>, config: Config, a: Waypoint, b: Waypoint,
                          d: real, e: real)
    requires IsSelected(candidates, known, config, a) && IsSelected(candidates, known, config, b)
    requires known != {} ==> NearestIs(known, a, config, d) && NearestIs(known, b, config, e)
    ensures a == b
  {
    if known != {} {
      assert d < e || (d == e && !WaypointLess(b, a));
      assert e < d || (e == d && !WaypointLess(a, b));
    }
  }

  // ----- a whole evaluation -------------------------------------------------------------

  /** Actors offered for attacks, or for moves, and not quarantined. */
  predicate MayAttack(view: View, failures: map<Actor, Failure>, actor: Actor) {
    actor in view.attackActors && !Quarantined(failures, actor, view.gameLoop)
  }

  predicate MayMove(view: View, failures: map<Actor, Failure>, actor: Actor) {
    actor in view.moveActors && !Quarantined(failures, actor, view.gameLoop)
  }

  predicate Withdraws(view: View, failures: map<Actor, Failure>, actor: Actor, config: Config) {
    MayMove(view, failures, actor) && Retreats(actor, view, config)
  }

  /** Fights are for actors that do not withdraw ... */
  predicate Fights(view: View, failures: map<Actor, Failure>, actor: Actor, config: Config) {
    MayAttack(view, failures, actor) && !Withdraws(view, failures, actor, config)
  }

  /** ... and searches for those that neither withdraw nor have anything to fight. */
  ghost predicate Roams(view: View, failures: map<Actor, Failure>, barred: map<(Actor, Tag), Failure>, actor: Actor,
                        config: Config)
    requires ValidView(view)
  {
    && MayMove(view, failures, actor) && !Withdraws(view, failures, actor, config)
    && !(Fights(view, failures, actor, config) && HasTargets(view, barred, actor))
  }

  /** Engagements whose target is still on screen. */
  function OnScreen(engagement: map<Actor, Engagement>, view: View): map<Actor, Engagement> {
    map a | a in engagement && engagement[a].target in view.targets :: engagement[a]
  }

  function Without(actors: seq<Actor>, left: set<Actor>): (r: seq<Actor>)
    ensures forall a :: a in r <==> a in actors && a !in left
    ensures Distinct(actors) ==> Distinct(r)
  {
    if actors == [] then []
    else
      var init := Without(actors[..|actors| - 1], left);
      var last := actors[|actors| - 1];
      if last in left then init else init + [last]
  }

  /** What an evaluation starts from. */
  datatype Memory = Memory(
    focus: map<Actor, Tag>, engagement: map<Actor, Engagement>, barred: map<(Actor, Tag), Failure>,
    failures: map<Actor, Failure>, retreats: RetreatBook, offense: map<Actor, Offense>, known: map<Tag, Position>)

  const BLANK := Memory(map[], map[], map[], map[], NO_RETREATS, map[], map[])

  ghost predicate SearchDue(before: Memory, offense: map<Actor, Offense>, actor: Actor, view: View, config: Config)
    requires ValidView(view)
  {
    && view.ready && Roams(view, before.failures, before.barred, actor, config)
    && OrdersSearch(before.offense, offense, actor, view, config)
  }

  /** While the army is ready and someone is free to search, the searches of all others are
      forgotten and those of the free actors move on; otherwise nothing changes. */
  ghost predicate SearchesMovedOn(before: Memory, after: map<Actor, Offense>, view: View, config: Config)
    requires ValidView(view)
  {
    if view.ready && exists a :: Roams(view, before.failures, before.barred, a, config) then
      forall a :: Find(after, a) ==
        if a in before.offense && Roams(view, before.failures, before.barred, a, config)
        then NextSearch(before.offense[a], a, view, config)
        else None
    else after == before.offense
  }

  lemma SearchedMovesOn(before: Memory, after: map<Actor, Offense>, searchers: seq<Actor>, view: View, config: Config)
    requires ValidView(view)
    requires forall a :: a in searchers <==> Roams(view, before.failures, before.barred, a, config)
    requires if view.ready && searchers != [] then Searched(before.offense, after, searchers, searchers, view, config)
             else after == before.offense
    ensures SearchesMovedOn(before, after, view, config)
  {
    if view.ready && searchers != [] {
      assert Roams(view, before.failures, before.barred, searchers[0], config);
      forall a ensures Find(after, a) ==
        if a in before.offense && Roams(view, before.failures, before.barred, a, config)
        then NextSearch(before.offense[a], a, view, config)
        else None
      {
        assert a in searchers <==> Roams(view, before.failures, before.barred, a, config);
      }
    }
  }

  ghost predicate RetreatsMovedOn(before: Memory, after: map<Actor, RetreatState>, view: View, config: Config) {
    && after.Keys <= before.retreats.states.Keys
    && forall a :: a in before.retreats.states ==>
         Find(after, a) == NextRetreat(before.retreats.states[a], a, MayMove(view, before.failures, a), view, config)
  }

  lemma MoversMovedOn(before: Memory, after: map<Actor, RetreatState>, movers: seq<Actor>, view: View, config: Config)
    requires MovedOn(before.retreats.states, after, movers, movers, view, config)
    requires forall a :: a in movers <==> MayMove(view, before.failures, a)
    ensures RetreatsMovedOn(before, after, view, config)
  {
    forall a | a in before.retreats.states
      ensures Find(after, a) == NextRetreat(before.retreats.states[a], a, MayMove(view, before.failures, a), view,
                                            config)
    {
      assert a in movers <==> MayMove(view, before.failures, a);
    }
  }

  /** Whether an order is due, given the memory the evaluation starts from and the retreats
      and searches it leaves. */
  ghost predicate OrderDue(i: Intent, before: Memory, retreats: map<Actor, RetreatState>, offense: map<Actor, Offense>,
                           view: View, known: set<Position>, config: Config)
    requires ValidView(view)
  {
    match i.aim
    case GoHome => MayMove(view, before.failures, i.actor) && OrdersRetreat(retreats, i.actor, view, config)
    case AttackTarget(tag) =>
      && Fights(view, before.failures, i.actor, config)
      && IsPosture(view, before.barred, before.focus, OnScreen(before.engagement, view), i.actor, Ordering(tag))
    case SearchAt(w) =>
      && SearchDue(before, offense, i.actor, view, config)
      && IsSelected(OpenFor(offense, i.actor, view), known, config, w)
  }

  /** The orders are exactly those due, one for each actor. */
  ghost predicate OrdersDue(intents: seq<Intent>, before: Memory, retreats: map<Actor, RetreatState>,
                            offense: map<Actor, Offense>, view: View, known: set<Position>, config: Config)
    requires ValidView(view)
  {
    && OneEach(intents)
    && (forall i :: i in intents ==> OrderDue(i, before, retreats, offense, view, known, config))
    && (forall i: Intent :: !i.aim.SearchAt? && OrderDue(i, before, retreats, offense, view, known, config) ==>
      i in intents)
    && (forall a :: SearchDue(before, offense, a, view, config) ==> exists i :: i in intents && i.actor == a)
  }

  lemma OrderedHasTargets(view: View, failures: map<(Actor, Tag), Failure>, focus: map<Actor, Tag>,
                          engagement: map<Actor, Engagement>, actor: Actor, tag: Tag)
    requires ValidView(view) && AttackDue(view, failures, focus, engagement)(actor, tag)
    ensures HasTargets(view, failures, actor)
  {
  }

  /** The three phases of an evaluation: whom each of them serves, and with what. */
  datatype Orders = Orders(
    movers: seq<Actor>, home: seq<Intent>, retreating: set<Actor>,
    attackers: seq<Actor>, attacks: seq<Intent>, engaged: set<Actor>,
    searchers: seq<Actor>, searches: seq<Intent>) {

    function All(): seq<Intent> { home + attacks + searches }
  }

  ghost predicate Phases(o: Orders, before: Memory, retreats: map<Actor, RetreatState>, offense: map<Actor, Offense>,
                         view: View, known: set<Position>, config: Config)
    requires ValidView(view)
  {
    && RetreatedBy(o.home, o.retreating, o.movers, retreats, view, config)
    && AttackedBy(o.attacks, o.engaged, o.attackers,
                  AttackDue(view, before.barred, before.focus, OnScreen(before.engagement, view)),
                    Engaging(view, before.barred))
    && (if view.ready then SearchedBy(o.searches, before.offense, offense, o.searchers, view, known, config)
      else o.searches == [])
    && (forall a :: a in o.movers <==> MayMove(view, before.failures, a))
    && (forall a :: a in o.attackers <==> Fights(view, before.failures, a, config))
    && (forall a :: a in o.searchers <==> Roams(view, before.failures, before.barred, a, config))
  }

  lemma PhasesAreApart(o: Orders, before: Memory, retreats: map<Actor, RetreatState>, offense: map<Actor, Offense>,
                       view: View, known: set<Position>, config: Config)
    requires ValidView(view) && Phases(o, before, retreats, offense, view, known, config)
    ensures OneEach(o.All())
  {
    forall x, y | x in o.attacks && y in o.searches ensures x.actor != y.actor {
      OrderedHasTargets(view, before.barred, before.focus, OnScreen(before.engagement, view), x.actor, x.aim.tag);
    }
  }

  lemma OrdersAssemble(o: Orders, before: Memory, retreats: map<Actor, RetreatState>, offense: map<Actor, Offense>,
                       view: View, known: set<Position>, config: Config)
    requires ValidView(view) && Phases(o, before, retreats, offense, view, known, config)
    ensures OrdersDue(o.All(), before, retreats, offense, view, known, config)
  {
    PhasesAreApart(o, before, retreats, offense, view, known, config);
    forall i: Intent | !i.aim.SearchAt? && OrderDue(i, before, retreats, offense, view, known, config)
      ensures i in o.All() {
      match i.aim
      case GoHome => assert i == Intent(i.actor, GoHome);
      case AttackTarget(tag) => assert i == Intent(i.actor, AttackTarget(tag));
    }
    forall i | i in o.All() ensures OrderDue(i, before, retreats, offense, view, known, config) {
      IssuedIsDue(o, before, retreats, offense, view, known, config, i);
    }
  }

  lemma IssuedIsDue(o: Orders, before: Memory, retreats: map<Actor, RetreatState>, offense: map<Actor, Offense>,
                    view: View, known: set<Position>, config: Config, i: Intent)
    requires ValidView(view) && i in o.All() && Phases(o, before, retreats, offense, view, known, config)
    ensures OrderDue(i, before, retreats, offense, view, known, config)
  {
  }

  /** No order for a quarantined actor, and no attack on a target barred for its actor. */
  lemma OrdersRespectQuarantine(intents: seq<Intent>, before: Memory, retreats: map<Actor, RetreatState>,
                                offense: map<Actor, Offense>, view: View, known: set<Position>, config: Config,
                                i: Intent)
    requires ValidView(view) && OrdersDue(intents, before, retreats, offense, view, known, config) && i in intents
    ensures !Quarantined(before.failures, i.actor, view.gameLoop)
    ensures i.aim.AttackTarget? ==>
      && i.aim.tag in view.targets && i.aim.tag in Attackable(view, i.actor)
      && !TargetQuarantined(before.barred, i.actor, i.aim.tag, view.gameLoop)
  {
    assert OrderDue(i, before, retreats, offense, view, known, config);
  }

  /** An engagement in agreement with the focus, still on screen, attackable and unbarred,
      with the same members, is not ordered again; nor is its actor sent searching. */
  lemma EngagementIsNotReordered(intents: seq<Intent>, before: Memory, retreats: map<Actor, RetreatState>,
                                 offense: map<Actor, Offense>, view: View, known: set<Position>, config: Config,
                                 actor: Actor)
    requires ValidView(view) && OrdersDue(intents, before, retreats, offense, view, known, config)
    requires actor in before.engagement && actor in before.focus
      && before.focus[actor] == before.engagement[actor].target
    requires before.engagement[actor].tags == TagsOf(view, actor)
    requires before.engagement[actor].target in view.targets
      && before.engagement[actor].target in Attackable(view, actor)
    requires !TargetQuarantined(before.barred, actor, before.engagement[actor].target, view.gameLoop)
    requires Fights(view, before.failures, actor, config)
    ensures forall i :: i in intents ==> i.actor != actor
  {
    var target := before.engagement[actor].target;
    var targets := EligibleTargets(view, before.barred, actor, Attackable(view, actor));
    assert view.targets[target] in targets;
    forall i | i in intents ensures i.actor != actor {
      assert OrderDue(i, before, retreats, offense, view, known, config);
      if i.actor == actor && i.aim.AttackTarget? {
        UnchangedEngagementHolds(view, before.barred, before.focus, OnScreen(before.engagement, view), actor,
                                 Ordering(i.aim.tag));
      }
    }
  }
}
