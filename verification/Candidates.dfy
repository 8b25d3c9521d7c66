/** Compile an intent into legal candidates, select one, and materialize it as a command. */
module Candidates {
  import opened Ordering

  // ----- the observation and the intent -------------------------------------------------

  datatype Argument = Tag(tag: string) | Point(x: int, y: int) | Plain(text: string)

  type Arguments = seq<Argument>

  /** Which run, episode, step and game loop something belongs to. */
  datatype Moment = Moment(run: string, episode: string, step: nat, gameLoop: nat)

  datatype Action = Action(name: string, hasArguments: bool, actors: seq<string>, candidates: Option<seq<Arguments>>)

  datatype Enemy = Enemy(tag: string, kind: string, health: real)

  /** `attackable` lists the living enemies an actor can hit; tags are already normalized. */
  datatype Observation = Observation(
    moment: Moment, fingerprint: string, available: seq<Action>, attackable: map<string, seq<Enemy>>)

  datatype TargetKind = NoTarget | EnemyTarget | RetreatRegion | OtherTarget

  datatype Target = Target(kind: TargetKind, position: Option<(int, int)>, tag: Option<string>,
                           unitKind: Option<string>)

  datatype Role = Macro | Tactical | Reflex

  datatype Intent = Intent(
    id: string, moment: Moment, role: Role, names: seq<string>, actors: seq<string>, target: Target,
    priority: nat, ttl: nat)

  /** `advancing` are the actions that bring the goal closer. */
  datatype Progress = Progress(moment: Moment, advancing: set<string>)

  // ----- candidates ---------------------------------------------------------------------

  /** What a candidate id digests, next to the moment and the intent. */
  datatype Triple = Triple(action: string, actor: string, arguments: Arguments)

  datatype Features = Features(
    actionRank: nat, actorRank: nat, argumentRank: nat, ordinal: nat, advances: bool, score: real)

  datatype Candidate = Candidate(id: Triple, fingerprint: string, intent: string, features: Features)

  datatype Context = Context(
    observation: Observation, intent: Intent, progress: Option<Progress>, busy: seq<string>, candidates: seq<Candidate>)

  datatype CompileError = StaleIntent | ForeignProgress

  // ----- which arguments an intent admits -----------------------------------------------

  function EnemiesOf(o: Observation, actor: string): seq<Enemy> {
    if actor in o.attackable then o.attackable[actor] else []
  }

  predicate Wanted(target: Target, enemy: Enemy) {
    && (target.unitKind.Some? ==> enemy.kind == target.unitKind.value)
    && (target.tag.Some? ==> enemy.tag == target.tag.value)
  }

  /** The last wanted enemy with this tag, as in a dictionary built in order. */
  function EnemyByTag(enemies: seq<Enemy>, target: Target, tag: string): (e: Option<Enemy>)
    ensures e.Some? ==> e.value in enemies && e.value.tag == tag && Wanted(target, e.value)
    ensures e.None? ==> forall x :: x in enemies && x.tag == tag ==> !Wanted(target, x)
  {
    if enemies == [] then None
    else
      var last := enemies[|enemies| - 1];
      if last.tag == tag && Wanted(target, last) then Some(last)
      else EnemyByTag(enemies[..|enemies| - 1], target, tag)
  }

  function TagOf(arguments: Arguments): string {
    if arguments == [] then ""
    else match arguments[0] case Tag(t) => t case Plain(t) => t case Point(_, _) => ""
  }

  predicate Hits(enemies: seq<Enemy>, target: Target, arguments: Arguments) {
    && arguments != [] && !arguments[0].Point?
    && EnemyByTag(enemies, target, TagOf(arguments)).Some?
  }

  function HitHealth(enemies: seq<Enemy>, target: Target, arguments: Arguments): real {
    if Hits(enemies, target, arguments) then EnemyByTag(enemies, target, TagOf(arguments)).value.health else 0.0
  }

  predicate AimLess(enemies: seq<Enemy>, target: Target, a: Arguments, b: Arguments) {
    var x, y := HitHealth(enemies, target, a), HitHealth(enemies, target, b);
    x < y || (x == y && StringLess(TagOf(a), TagOf(b)))
  }

  /** The weakest enemy first, then the smallest tag. */
  function AimOrder(enemies: seq<Enemy>, target: Target): (Arguments, Arguments) -> bool {
    (a, b) => AimLess(enemies, target, a, b)
  }

  lemma AimOrderIsAKeyOrder(enemies: seq<Enemy>, target: Target)
    ensures KeyOrder(AimOrder(enemies, target))
  {
    forall a, b ensures AimLess(enemies, target, a, b) ==> !AimLess(enemies, target, b, a) {
      StringTrichotomy(TagOf(a), TagOf(b));
    }
    forall a, b, c | AimLess(enemies, target, a, c)
      ensures AimLess(enemies, target, a, b) || AimLess(enemies, target, b, c)
    {
      StringTrichotomy(TagOf(a), TagOf(b));
      if StringLess(TagOf(b), TagOf(a)) && StringLess(TagOf(a), TagOf(c)) {
        StringTransitive(TagOf(b), TagOf(a), TagOf(c));
      }
    }
  }

  function Hitting(s: seq<Arguments>, enemies: seq<Enemy>, target: Target): (r: seq<Arguments>)
    ensures forall a :: a in r <==> a in s && Hits(enemies, target, a)
  {
    if s == [] then []
    else
      var init := Hitting(s[..|s| - 1], enemies, target);
      if Hits(enemies, target, s[|s| - 1]) then init + [s[|s| - 1]] else init
  }

  function SortedByAim(s: seq<Arguments>, enemies: seq<Enemy>, target: Target): seq<Arguments> {
    Sort(s, AimOrder(enemies, target))
  }

  /** A tactical attack is offered precisely the listed arguments that hit a wanted enemy,
      weakest enemy first. */
  lemma AttackArguments(action: Action, intent: Intent, o: Observation, actor: string)
    requires intent.role == Tactical && action.name == "Attack_Unit" && action.hasArguments && action.candidates.Some?
    ensures var enemies := EnemiesOf(o, actor);
      var r := CandidateArguments(action, intent, o, actor);
      && multiset(r) == multiset(Hitting(action.candidates.value, enemies, intent.target))
      && (forall a :: a in r <==> a in action.candidates.value && Hits(enemies, intent.target, a))
      && (forall i, j :: 0 <= i < j < |r| ==>
            HitHealth(enemies, intent.target, r[i]) <= HitHealth(enemies, intent.target, r[j]))
  {
    var enemies := EnemiesOf(o, actor);
    var hitting := Hitting(action.candidates.value, enemies, intent.target);
    var r := CandidateArguments(action, intent, o, actor);
    AimOrderIsAKeyOrder(enemies, intent.target);
    SortSorts(hitting, AimOrder(enemies, intent.target));
    SameMembers(r, hitting);
    forall i, j | 0 <= i < j < |r|
      ensures HitHealth(enemies, intent.target, r[i]) <= HitHealth(enemies, intent.target, r[j])
    {
      assert !AimOrder(enemies, intent.target)(r[j], r[i]);
    }
  }

  predicate GoesTo(arguments: Arguments, position: (int, int)) {
    arguments != [] && arguments[0] == Point(position.0, position.1)
  }

  function GoingTo(s: seq<Arguments>, position: (int, int)): (r: seq<Arguments>)
    ensures forall a :: a in r <==> a in s && GoesTo(a, position)
  {
    if s == [] then []
    else
      var init := GoingTo(s[..|s| - 1], position);
      if GoesTo(s[|s| - 1], position) then init + [s[|s| - 1]] else init
  }

  function CandidateArguments(action: Action, intent: Intent, o: Observation, actor: string): seq<Arguments> {
    if !action.hasArguments then [[]]
    else if action.candidates.None? then []
    else
      var s := action.candidates.value;
      if intent.role != Tactical then s
      else if action.name == "Move_Minimap" && intent.target.kind == RetreatRegion then
        if s == [] then [] else [s[|s| - 1]]
      else if action.name == "Move_Minimap" && intent.target.position.Some? then
        GoingTo(s, intent.target.position.value)
      else if action.name == "Move_Minimap" && intent.target.kind == EnemyTarget && |s| > 1 then s[..|s| - 1]
      else if action.name != "Attack_Unit" then s
      else
        var enemies := EnemiesOf(o, actor);
        SortedByAim(Hitting(s, enemies, intent.target), enemies, intent.target)
  }

  /** Requested actors that are on offer, in the order requested; all of them without a request. */
  function CandidateActors(action: Action, intent: Intent): seq<string> {
    if intent.actors != [] then Kept(FirstOf(intent.actors), action.actors) else FirstOf(action.actors)
  }

  /** `list(dict.fromkeys(s))`. */
  function FirstOf(s: seq<string>): (r: seq<string>)
    ensures forall x :: x in r <==> x in s
  {
    if s == [] then []
    else
      var init := FirstOf(s[..|s| - 1]);
      if s[|s| - 1] in init then init else init + [s[|s| - 1]]
  }

  function Kept(s: seq<string>, wanted: seq<string>): (r: seq<string>)
    ensures forall x :: x in r <==> x in s && x in wanted
  {
    if s == [] then []
    else
      var init := Kept(s[..|s| - 1], wanted);
      if s[|s| - 1] in wanted then init + [s[|s| - 1]] else init
  }

  /** Attacks need a combat actor and a target that actor can hit now. */
  predicate SemanticallyValid(t: Triple, o: Observation) {
    t.action != "Attack_Unit"
    || (&& (t.actor == "army" || "CombatGroup" <= t.actor)
        && t.arguments != [] && !t.arguments[0].Point?
        && exists e :: e in EnemiesOf(o, t.actor) && e.tag == TagOf(t.arguments))
  }

  // ----- what compiling enumerates ------------------------------------------------------

  /** One position of the four nested enumerations. */
  datatype Slot = Slot(id: Triple, actionRank: nat, actorRank: nat, argumentRank: nat)

  function ArgumentSlots(action: string, actor: string, arguments: seq<Arguments>, actionRank: nat, actorRank: nat,
                         n: nat)
    : (r: seq<Slot>)
    requires n <= |arguments|
    ensures |r| == n
    ensures forall k :: 0 <= k < n ==> r[k] == Slot(Triple(action, actor, arguments[k]), actionRank, actorRank, k)
  {
    if n == 0 then []
    else ArgumentSlots(action, actor, arguments, actionRank, actorRank, n - 1)
         + [Slot(Triple(action, actor, arguments[n - 1]), actionRank, actorRank, n - 1)]
  }

  function ActorSlots(o: Observation, intent: Intent, busy: set<string>, action: Action, actionRank: nat,
                      n: nat): seq<Slot>
    requires n <= |CandidateActors(action, intent)|
  {
    if n == 0 then []
    else
      var actor := CandidateActors(action, intent)[n - 1];
      var before := ActorSlots(o, intent, busy, action, actionRank, n - 1);
      if actor in busy then before
      else
        var arguments := CandidateArguments(action, intent, o, actor);
        before + ArgumentSlots(action.name, actor, arguments, actionRank, n - 1, |arguments|)
  }

  function ActionSlots(o: Observation, intent: Intent, busy: set<string>, name: string, actionRank: nat,
                       n: nat): seq<Slot>
    requires n <= |o.available|
  {
    if n == 0 then []
    else
      var action := o.available[n - 1];
      var before := ActionSlots(o, intent, busy, name, actionRank, n - 1);
      if action.name != name then before
      else before + ActorSlots(o, intent, busy, action, actionRank, |CandidateActors(action, intent)|)
  }

  function NameSlots(o: Observation, intent: Intent, busy: set<string>, n: nat): seq<Slot>
    requires n <= |intent.names|
  {
    if n == 0 then []
    else NameSlots(o, intent, busy, n - 1)
         + ActionSlots(o, intent, busy, intent.names[n - 1], n - 1, |o.available|)
  }

  predicate Has(candidates: seq<Candidate>, id: Triple) {
    exists c :: c in candidates && c.id == id
  }

  function Build(slot: Slot, ordinal: nat, o: Observation, intent: Intent, advancing: set<string>): Candidate {
    Candidate(slot.id, o.fingerprint, intent.id,
              Features(slot.actionRank, slot.actorRank, slot.argumentRank, ordinal, slot.id.action in advancing, 0.0))
  }

  function Added(candidates: seq<Candidate>, slot: Slot, o: Observation, intent: Intent,
                 advancing: set<string>): seq<Candidate> {
    if Has(candidates, slot.id) || !SemanticallyValid(slot.id, o) then candidates
    else candidates + [Build(slot, |candidates|, o, intent, advancing)]
  }

  function AddAll(slots: seq<Slot>, o: Observation, intent: Intent, advancing: set<string>): seq<Candidate> {
    if slots == [] then []
    else Added(AddAll(slots[..|slots| - 1], o, intent, advancing), slots[|slots| - 1], o, intent, advancing)
  }

  // ----- compiling ----------------------------------------------------------------------

  /** The body of the innermost loop. */
  method Add(candidates: seq<Candidate>, slot: Slot, o: Observation, intent: Intent, advancing: set<string>,
             ghost slots: seq<Slot>)
    returns (r: seq<Candidate>)
    requires candidates == AddAll(slots, o, intent, advancing)
    ensures r == AddAll(slots + [slot], o, intent, advancing)
  {
    assert (slots + [slot])[..|slots|] == slots;
    r := Added(candidates, slot, o, intent, advancing);
  }

  lemma ArgumentSlotsOneMore(action: string, actor: string, arguments: seq<Arguments>, actionRank: nat, actorRank: nat,
                             k: nat, prefix: seq<Slot>)
    requires k < |arguments|
    ensures prefix + ArgumentSlots(action, actor, arguments, actionRank, actorRank, k + 1)
         == prefix + ArgumentSlots(action, actor, arguments, actionRank, actorRank, k)
            + [Slot(Triple(action, actor, arguments[k]), actionRank, actorRank, k)]
  {
  }

  method AddArguments(candidates: seq<Candidate>, action: Action, actor: string, actionRank: nat, actorRank: nat,
                      o: Observation, intent: Intent, advancing: set<string>, ghost prefix: seq<Slot>)
    returns (r: seq<Candidate>)
    requires candidates == AddAll(prefix, o, intent, advancing)
    ensures var arguments := CandidateArguments(action, intent, o, actor);
      r == AddAll(prefix + ArgumentSlots(action.name, actor, arguments, actionRank, actorRank, |arguments|), o, intent,
                  advancing)
  {
    r := candidates;
    var arguments := CandidateArguments(action, intent, o, actor);
    ghost var slots := prefix;
    var k := 0;
    while k < |arguments|
      invariant 0 <= k <= |arguments|
      invariant slots == prefix + ArgumentSlots(action.name, actor, arguments, actionRank, actorRank, k)
      invariant r == AddAll(slots, o, intent, advancing)
    {
      var slot := Slot(Triple(action.name, actor, arguments[k]), actionRank, actorRank, k);
      ArgumentSlotsOneMore(action.name, actor, arguments, actionRank, actorRank, k, prefix);
      r := Add(r, slot, o, intent, advancing, slots);
      slots := slots + [slot];
      k := k + 1;
    }
  }

  lemma Regroup<T>(a: seq<T>, b: seq<T>, c: seq<T>)
    ensures a + (b + c) == (a + b) + c
  {
  }

  lemma ActorSlotsRegroup(o: Observation, intent: Intent, busy: set<string>, action: Action, actionRank: nat, k: nat,
                          prefix: seq<Slot>)
    requires k < |CandidateActors(action, intent)| && CandidateActors(action, intent)[k] !in busy
    ensures var actor := CandidateActors(action, intent)[k];
      var arguments := CandidateArguments(action, intent, o, actor);
      prefix + ActorSlots(o, intent, busy, action, actionRank, k + 1)
        == prefix + ActorSlots(o, intent, busy, action, actionRank, k)
           + ArgumentSlots(action.name, actor, arguments, actionRank, k, |arguments|)
  {
  }

  method AddActors(candidates: seq<Candidate>, action: Action, actionRank: nat, o: Observation, intent: Intent,
                   busy: set<string>, advancing: set<string>, ghost prefix: seq<Slot>)
    returns (r: seq<Candidate>)
    requires candidates == AddAll(prefix, o, intent, advancing)
    ensures r == AddAll(prefix + ActorSlots(o, intent, busy, action, actionRank, |CandidateActors(action, intent)|), o,
                        intent, advancing)
  {
    r := candidates;
    var actors := CandidateActors(action, intent);
    var k := 0;
    assert prefix + [] == prefix;
    while k < |actors|
      invariant 0 <= k <= |actors|
      invariant r == AddAll(prefix + ActorSlots(o, intent, busy, action, actionRank, k), o, intent, advancing)
    {
      ghost var slots := prefix + ActorSlots(o, intent, busy, action, actionRank, k);
      if actors[k] !in busy {
        r := AddArguments(r, action, actors[k], actionRank, k, o, intent, advancing, slots);
        ActorSlotsRegroup(o, intent, busy, action, actionRank, k, prefix);
      }
      k := k + 1;
    }
  }

  method AddActions(candidates: seq<Candidate>, name: string, actionRank: nat, o: Observation, intent: Intent,
                    busy: set<string>, advancing: set<string>, ghost prefix: seq<Slot>)
    returns (r: seq<Candidate>)
    requires candidates == AddAll(prefix, o, intent, advancing)
    ensures r == AddAll(prefix + ActionSlots(o, intent, busy, name, actionRank, |o.available|), o, intent, advancing)
  {
    r := candidates;
    var k := 0;
    assert prefix + [] == prefix;
    while k < |o.available|
      invariant 0 <= k <= |o.available|
      invariant r == AddAll(prefix + ActionSlots(o, intent, busy, name, actionRank, k), o, intent, advancing)
    {
      ghost var slots := prefix + ActionSlots(o, intent, busy, name, actionRank, k);
      var action := o.available[k];
      if action.name == name {
        r := AddActors(r, action, actionRank, o, intent, busy, advancing, slots);
        Regroup(prefix, ActionSlots(o, intent, busy, name, actionRank, k),
                ActorSlots(o, intent, busy, action, actionRank, |CandidateActors(action, intent)|));
      }
      k := k + 1;
    }
  }

  function Advancing(progress: Option<Progress>): set<string> {
    if progress.Some? then progress.value.advancing else {}
  }

  /** The candidates are the enumerated triples, first occurrence each, that are valid. */
  function Compiled(o: Observation, intent: Intent, progress: Option<Progress>, busy: seq<string>): seq<Candidate> {
    AddAll(NameSlots(o, intent, set b | b in busy, |intent.names|), o, intent, Advancing(progress))
  }

  method Compile(o: Observation, intent: Intent, progress: Option<Progress>, busyActors: seq<string>)
    returns (r: Result<Context, CompileError>)
    ensures r == if intent.moment != o.moment then Err(StaleIntent)
                 else if progress.Some? && progress.value.moment != o.moment then Err(ForeignProgress)
                 else Ok(Context(o, intent, progress, FirstOf(busyActors), Compiled(o, intent, progress, busyActors)))
  {
    if intent.moment != o.moment {
      return Err(StaleIntent);
    }
    var busy := FirstOf(busyActors);
    var busySet := set b | b in busy;
    assert busySet == set b | b in busyActors;
    var advancing := Advancing(progress);
    var candidates := [];
    var rank := 0;
    while rank < |intent.names|
      invariant 0 <= rank <= |intent.names|
      invariant candidates == AddAll(NameSlots(o, intent, busySet, rank), o, intent, advancing)
    {
      candidates := AddActions(candidates, intent.names[rank], rank, o, intent, busySet, advancing,
                               NameSlots(o, intent, busySet, rank));
      rank := rank + 1;
    }
    if progress.Some? && progress.value.moment != o.moment {
      return Err(ForeignProgress);
    }
    return Ok(Context(o, intent, progress, busy, candidates));
  }

  // ----- the candidates are the offered triples, once each ------------------------------

  /** Named by the intent, offered by the observation, for an actor the intent admits and
      that is not busy, with arguments the intent admits. */
  ghost predicate Offered(t: Triple, o: Observation, intent: Intent, busy: set<string>) {
    && t.action in intent.names && t.actor !in busy
    && exists action :: action in o.available && OfferedBy(action, t, o, intent)
  }

  predicate OfferedBy(action: Action, t: Triple, o: Observation, intent: Intent) {
    && action.name == t.action && t.actor in CandidateActors(action, intent)
    && t.arguments in CandidateArguments(action, intent, o, t.actor)
  }

  ghost predicate Listed(slots: seq<Slot>, t: Triple) {
    exists s :: s in slots && s.id == t
  }

  lemma ListedAppend(a: seq<Slot>, b: seq<Slot>, t: Triple)
    ensures Listed(a + b, t) <==> Listed(a, t) || Listed(b, t)
  {
    if Listed(a, t) {
      var s :| s in a && s.id == t;
      assert s in a + b;
    }
    if Listed(b, t) {
      var s :| s in b && s.id == t;
      assert s in a + b;
    }
  }

  lemma {:induction false} ActorSlotsList(o: Observation, intent: Intent, busy: set<string>, action: Action,
                                          actionRank: nat, n: nat, t: Triple)
    requires n <= |CandidateActors(action, intent)|
    ensures Listed(ActorSlots(o, intent, busy, action, actionRank, n), t)
       <==> t.action == action.name && t.actor in CandidateActors(action, intent)[..n] && t.actor !in busy
            && t.arguments in CandidateArguments(action, intent, o, t.actor)
  {
    if n > 0 {
      var actors := CandidateActors(action, intent);
      var actor := actors[n - 1];
      ActorSlotsList(o, intent, busy, action, actionRank, n - 1, t);
      TakeOneMore(actors, n - 1);
      if actor !in busy {
        var arguments := CandidateArguments(action, intent, o, actor);
        ListedAppend(ActorSlots(o, intent, busy, action, actionRank, n - 1),
                     ArgumentSlots(action.name, actor, arguments, actionRank, n - 1, |arguments|), t);
      }
    }
  }

  lemma {:induction false} ActionSlotsList(o: Observation, intent: Intent, busy: set<string>, name: string,
                                           actionRank: nat, n: nat, t: Triple)
    requires n <= |o.available|
    ensures Listed(ActionSlots(o, intent, busy, name, actionRank, n), t)
       <==> t.action == name && t.actor !in busy && exists a :: a in o.available[..n] && OfferedBy(a, t, o, intent)
  {
    if n > 0 {
      var action := o.available[n - 1];
      ActionSlotsList(o, intent, busy, name, actionRank, n - 1, t);
      assert o.available[..n] == o.available[..n - 1] + [action];
      if action.name == name {
        var actors := CandidateActors(action, intent);
        ActorSlotsList(o, intent, busy, action, actionRank, |actors|, t);
        assert actors[..|actors|] == actors;
        ListedAppend(ActionSlots(o, intent, busy, name, actionRank, n - 1),
                     ActorSlots(o, intent, busy, action, actionRank, |actors|), t);
      }
      if exists a :: a in o.available[..n - 1] && OfferedBy(a, t, o, intent) {
        var a :| a in o.available[..n - 1] && OfferedBy(a, t, o, intent);
        assert a in o.available[..n];
      }
      assert action in o.available[..n];
    }
  }

  lemma TakeOneMore<T>(s: seq<T>, n: nat)
    requires n < |s|
    ensures s[..n + 1] == s[..n] + [s[n]]
  {
  }

  lemma {:induction false} NameSlotsList(o: Observation, intent: Intent, busy: set<string>, n: nat, t: Triple)
    requires n <= |intent.names|
    ensures Listed(NameSlots(o, intent, busy, n), t)
       <==> t.action in intent.names[..n] && t.actor !in busy && exists a :: a in o.available
                                                                   && OfferedBy(a, t, o, intent)
  {
    if n > 0 {
      var name := intent.names[n - 1];
      NameSlotsList(o, intent, busy, n - 1, t);
      ActionSlotsList(o, intent, busy, name, n - 1, |o.available|, t);
      ListedAppend(NameSlots(o, intent, busy, n - 1), ActionSlots(o, intent, busy, name, n - 1, |o.available|), t);
    }
  }

  /** Ordinals are positions, ids are unique, no playbook has scored yet, and each id is as
      valid as the observation says. */
  ghost predicate WellFormed(candidates: seq<Candidate>, o: Observation, intent: Intent) {
    && (forall k :: 0 <= k < |candidates| ==>
          && candidates[k].features.ordinal == k && candidates[k].features.score == 0.0
          && candidates[k].fingerprint == o.fingerprint && candidates[k].intent == intent.id
          && SemanticallyValid(candidates[k].id, o))
    && (forall j, k :: 0 <= j < k < |candidates| ==> candidates[j].id != candidates[k].id)
  }

  lemma {:induction false} AddAllIsWellFormed(slots: seq<Slot>, o: Observation, intent: Intent, advancing: set<string>)
    ensures WellFormed(AddAll(slots, o, intent, advancing), o, intent)
  {
    if slots != [] {
      AddAllIsWellFormed(slots[..|slots| - 1], o, intent, advancing);
      var before := AddAll(slots[..|slots| - 1], o, intent, advancing);
      forall j | 0 <= j < |before| && before[j].id == slots[|slots| - 1].id ensures Has(before, slots[|slots| - 1].id) {
        assert before[j] in before;
      }
    }
  }

  lemma {:induction false} AddAllMembers(slots: seq<Slot>, o: Observation, intent: Intent, advancing: set<string>,
                                         t: Triple)
    ensures Has(AddAll(slots, o, intent, advancing), t) <==> Listed(slots, t) && SemanticallyValid(t, o)
  {
    if slots != [] {
      var n := |slots| - 1;
      AddAllMembers(slots[..n], o, intent, advancing, t);
      ListedAppend(slots[..n], [slots[n]], t);
      assert slots[..n] + [slots[n]] == slots;
      assert slots[n] in [slots[n]];
      var before := AddAll(slots[..n], o, intent, advancing);
      var after := Added(before, slots[n], o, intent, advancing);
      if Has(before, t) {
        var c :| c in before && c.id == t;
        assert c in after;
      }
      if after != before {
        assert after[|before|] in after;
      }
    }
  }

  /** The compiled candidates are exactly the offered and valid triples, each once, numbered
      from zero. */
  lemma CandidatesAreTheOffers(o: Observation, intent: Intent, progress: Option<Progress>, busy: seq<string>)
    ensures WellFormed(Compiled(o, intent, progress, busy), o, intent)
    ensures forall t :: Has(Compiled(o, intent, progress, busy), t)
                   <==> Offered(t, o, intent, set b | b in busy) && SemanticallyValid(t, o)
  {
    var busySet := set b | b in busy;
    var slots := NameSlots(o, intent, busySet, |intent.names|);
    AddAllIsWellFormed(slots, o, intent, Advancing(progress));
    forall t
      ensures Has(Compiled(o, intent, progress, busy), t)
         <==> Offered(t, o, intent, busySet) && SemanticallyValid(t, o)
    {
      AddAllMembers(slots, o, intent, Advancing(progress), t);
      NameSlotsList(o, intent, busySet, |intent.names|, t);
      assert intent.names[..|intent.names|] == intent.names;
    }
  }

  /** The ranks of a slot point at where it was enumerated. */
  ghost predicate Pointed(s: Slot, o: Observation, intent: Intent) {
    && s.actionRank < |intent.names| && intent.names[s.actionRank] == s.id.action
    && exists action :: action in o.available && PointedIn(s, action, o, intent)
  }

  ghost predicate PointedIn(s: Slot, action: Action, o: Observation, intent: Intent) {
    && action.name == s.id.action
    && s.actorRank < |CandidateActors(action, intent)| && CandidateActors(action, intent)[s.actorRank] == s.id.actor
    && var arguments := CandidateArguments(action, intent, o, s.id.actor);
       s.argumentRank < |arguments| && arguments[s.argumentRank] == s.id.arguments
  }

  lemma {:induction false} ActorSlotsPoint(o: Observation, intent: Intent, busy: set<string>, action: Action,
                                           actionRank: nat, n: nat)
    requires n <= |CandidateActors(action, intent)|
    ensures forall s :: s in ActorSlots(o, intent, busy, action, actionRank, n) ==>
      s.actionRank == actionRank && PointedIn(s, action, o, intent)
  {
    if n > 0 {
      ActorSlotsPoint(o, intent, busy, action, actionRank, n - 1);
    }
  }

  lemma {:induction false} ActionSlotsPoint(o: Observation, intent: Intent, busy: set<string>, actionRank: nat, n: nat)
    requires n <= |o.available| && actionRank < |intent.names|
    ensures forall s :: s in ActionSlots(o, intent, busy, intent.names[actionRank], actionRank, n) ==>
      s.actionRank == actionRank && Pointed(s, o, intent)
  {
    if n > 0 {
      var action := o.available[n - 1];
      ActionSlotsPoint(o, intent, busy, actionRank, n - 1);
      ActorSlotsPoint(o, intent, busy, action, actionRank, |CandidateActors(action, intent)|);
      assert action in o.available;
    }
  }

  ghost predicate Ranked(slots: seq<Slot>) {
    forall j, k :: 0 <= j < k < |slots| ==> slots[j].actionRank <= slots[k].actionRank
  }

  lemma {:induction false} NameSlotsPoint(o: Observation, intent: Intent, busy: set<string>, n: nat)
    requires n <= |intent.names|
    ensures forall s :: s in NameSlots(o, intent, busy, n) ==> s.actionRank < n && Pointed(s, o, intent)
    ensures Ranked(NameSlots(o, intent, busy, n))
  {
    if n > 0 {
      NameSlotsPoint(o, intent, busy, n - 1);
      ActionSlotsPoint(o, intent, busy, n - 1, |o.available|);
    }
  }

  ghost predicate InPreferenceOrder(r: seq<Candidate>) {
    forall j, k :: 0 <= j < k < |r| ==> r[j].features.actionRank <= r[k].features.actionRank
  }

  function SlotOf(c: Candidate): Slot {
    Slot(c.id, c.features.actionRank, c.features.actorRank, c.features.argumentRank)
  }

  lemma {:induction false} AddAllComesFromSlots(slots: seq<Slot>, o: Observation, intent: Intent,
                                                advancing: set<string>)
    requires Ranked(slots)
    ensures forall c :: c in AddAll(slots, o, intent, advancing) ==>
      SlotOf(c) in slots && (c.features.advances <==> c.id.action in advancing)
    ensures InPreferenceOrder(AddAll(slots, o, intent, advancing))
  {
    if slots != [] {
      var n := |slots| - 1;
      AddAllComesFromSlots(slots[..n], o, intent, advancing);
      var before := AddAll(slots[..n], o, intent, advancing);
      forall j | 0 <= j < |before| ensures before[j].features.actionRank <= slots[n].actionRank {
        assert before[j] in before;
        var i :| 0 <= i < n && slots[i] == SlotOf(before[j]);
        assert slots[i].actionRank <= slots[n].actionRank;
      }
    }
  }

  /** Each candidate's ranks point at an available action, an actor and arguments it was
      built from, the goal flag says whether its action advances the goal, and the intent's
      preference among actions is never inverted by the numbering. */
  lemma RanksPointAtTheirSource(o: Observation, intent: Intent, progress: Option<Progress>, busy: seq<string>)
    ensures forall c :: c in Compiled(o, intent, progress, busy) ==>
      Pointed(SlotOf(c), o, intent) && (c.features.advances <==> c.id.action in Advancing(progress))
    ensures InPreferenceOrder(Compiled(o, intent, progress, busy))
  {
    var busySet := set b | b in busy;
    var slots := NameSlots(o, intent, busySet, |intent.names|);
    NameSlotsPoint(o, intent, busySet, |intent.names|);
    AddAllComesFromSlots(slots, o, intent, Advancing(progress));
    forall c | c in Compiled(o, intent, progress, busy) ensures Pointed(SlotOf(c), o, intent) {
      assert SlotOf(c) in slots;
    }
  }

  // ----- selecting ----------------------------------------------------------------------

  predicate FeatureLess(a: Features, b: Features) {
    if a.actionRank != b.actionRank then a.actionRank < b.actionRank
    else if a.actorRank != b.actorRank then a.actorRank < b.actorRank
    else if a.argumentRank != b.argumentRank then a.argumentRank < b.argumentRank
    else a.ordinal < b.ordinal
  }

  /** Goal first, then the playbook, then the enumeration. */
  predicate RankLess(a: Features, b: Features) {
    if a.advances != b.advances then a.advances
    else if a.score != b.score then a.score > b.score
    else FeatureLess(a, b)
  }

  /** The saved policy has no playbook. */
  predicate SavedRankLess(a: Features, b: Features) {
    if a.advances != b.advances then a.advances else FeatureLess(a, b)
  }

  /** Python's `min` with a key: the first of the smallest. */
  function MinBy(candidates: seq<Candidate>, less: (Features, Features) -> bool): (r: Candidate)
    requires candidates != []
    ensures r in candidates
  {
    if |candidates| == 1 then candidates[0]
    else
      var rest := MinBy(candidates[..|candidates| - 1], less);
      var last := candidates[|candidates| - 1];
      if less(last.features, rest.features) then last else rest
  }

  function Select(candidates: seq<Candidate>): Option<Candidate> {
    if candidates == [] then None else Some(MinBy(candidates, RankLess))
  }

  function SavedSelect(candidates: seq<Candidate>): Option<Candidate> {
    if candidates == [] then None else Some(MinBy(candidates, SavedRankLess))
  }

  ghost predicate StrictOrder(less: (Features, Features) -> bool) {
    && (forall a, b :: less(a, b) ==> !less(b, a))
    && (forall a, b, c :: less(a, b) && less(b, c) ==> less(a, c))
    && (forall a: Features, b: Features :: a.ordinal != b.ordinal ==> less(a, b) || less(b, a))
  }

  ghost predicate Numbered(candidates: seq<Candidate>) {
    forall a, b :: a in candidates && b in candidates && a.features.ordinal == b.features.ordinal ==> a == b
  }

  lemma {:induction false} MinByIsLeast(candidates: seq<Candidate>, less: (Features, Features) -> bool)
    requires candidates != [] && StrictOrder(less)
    ensures forall c :: c in candidates ==> !less(c.features, MinBy(candidates, less).features)
  {
    var n := |candidates| - 1;
    if n > 0 {
      MinByIsLeast(candidates[..n], less);
      var rest := MinBy(candidates[..n], less);
      var last := candidates[n];
      forall c | c in candidates ensures !less(c.features, MinBy(candidates, less).features) {
        assert c == last || c in candidates[..n];
      }
    }
  }

  lemma MinByIsUnique(candidates: seq<Candidate>, less: (Features, Features) -> bool, best: Candidate)
    requires candidates != [] && StrictOrder(less) && Numbered(candidates)
    ensures best == MinBy(candidates, less)
       <==> best in candidates && forall c :: c in candidates && c != best ==> less(best.features, c.features)
  {
    MinByIsLeast(candidates, less);
    var m := MinBy(candidates, less);
    forall c | c in candidates && c != m ensures less(m.features, c.features) {
      assert c.features.ordinal != m.features.ordinal;
    }
  }

  /** The executor picks the one candidate ranked before every other, so the listing order
      of a saved corpus is irrelevant. */
  lemma SelectionIsTheUniqueMinimum(candidates: seq<Candidate>, best: Candidate)
    requires Numbered(candidates)
    ensures Select(candidates) == Some(best)
       <==> best in candidates && forall c :: c in candidates && c != best ==> RankLess(best.features, c.features)
  {
    if candidates != [] {
      MinByIsUnique(candidates, RankLess, best);
    }
  }

  // ----- the saved policy against the executor ------------------------------------------

  /** No candidate of the same goal class has a better playbook score. */
  predicate TopScored(candidates: seq<Candidate>, pick: Candidate) {
    forall c :: c in candidates && c.features.advances == pick.features.advances ==>
      c.features.score <= pick.features.score
  }

  /** The two policies agree exactly when the saved policy's pick has the best playbook score
      among the candidates of its goal class. */
  lemma PoliciesAgreeWhenTopScored(candidates: seq<Candidate>)
    requires Numbered(candidates)
    ensures Select(candidates) == SavedSelect(candidates)
       <==> (candidates != [] ==> TopScored(candidates, SavedSelect(candidates).value))
  {
    if candidates != [] {
      var saved := SavedSelect(candidates).value;
      MinByIsUnique(candidates, SavedRankLess, saved);
      MinByIsUnique(candidates, RankLess, saved);
    }
  }

  /** In particular on everything the compiler produces, before a playbook scores it. */
  lemma PoliciesAgreeOnCompiled(o: Observation, intent: Intent, progress: Option<Progress>, busy: seq<string>)
    ensures Select(Compiled(o, intent, progress, busy)) == SavedSelect(Compiled(o, intent, progress, busy))
  {
    var candidates := Compiled(o, intent, progress, busy);
    CandidatesAreTheOffers(o, intent, progress, busy);
    PoliciesAgreeWhenTopScored(candidates);
  }

  /** A playbook score is enough to part them. */
  lemma PlaybookPartsThePolicies(a: Candidate, b: Candidate)
    requires a.features == Features(0, 0, 0, 0, false, 0.0) && b.features == Features(0, 0, 1, 1, false, 1.0)
    ensures SavedSelect([a, b]) == Some(a) && Select([a, b]) == Some(b)
  {
    assert [a, b][..1] == [a];
  }

  // ----- materializing ------------------------------------------------------------------

  datatype Selection = Selected(intent: string, candidate: Triple) | Abstained(intent: string)

  datatype Source = FromReflex | FromPlanner

  datatype Command = Command(id: string, action: Triple, priority: nat, ttl: nat, created: nat, source: Source)

  datatype MaterializeError = ForeignSelection | NothingSelected | UnknownCandidate | StaleCandidate | IllegalCandidate

  /** The first candidate with the selected id. */
  function Lookup(candidates: seq<Candidate>, id: Triple): (r: Option<Candidate>)
    ensures r.Some? ==> r.value in candidates && r.value.id == id
    ensures r.None? <==> !Has(candidates, id)
  {
    if candidates == [] then None
    else if candidates[0].id == id then Some(candidates[0])
    else
      assert forall c :: c in candidates[1..] ==> c in candidates;
      Lookup(candidates[1..], id)
  }

  function Materialize(context: Context, selection: Selection, commandId: string): Result<Command, MaterializeError> {
    if selection.intent != context.intent.id then Err(ForeignSelection)
    else if selection.Abstained? then Err(NothingSelected)
    else
      match Lookup(context.candidates, selection.candidate)
      case None => Err(UnknownCandidate)
      case Some(c) =>
        if c.fingerprint != context.observation.fingerprint then Err(StaleCandidate)
        else if !SemanticallyValid(c.id, context.observation) then Err(IllegalCandidate)
        else Ok(Command(commandId, c.id, context.intent.priority, context.intent.ttl, context.intent.moment.gameLoop,
                        if context.intent.role == Reflex then FromReflex else FromPlanner))
  }

  function Executed(context: Context): Selection {
    match Select(context.candidates)
    case None => Abstained(context.intent.id)
    case Some(c) => Selected(context.intent.id, c.id)
  }

  /** Whatever is materialized, from any selection over any context, is one of the context's
      candidates, current and valid. */
  lemma CommandsAreCandidates(context: Context, selection: Selection, commandId: string)
    ensures Materialize(context, selection, commandId).Ok? <==>
      && selection.Selected? && selection.intent == context.intent.id
      && (exists c :: Lookup(context.candidates, selection.candidate) == Some(c)
                      && c.fingerprint == context.observation.fingerprint)
      && SemanticallyValid(selection.candidate, context.observation)
    ensures Materialize(context, selection, commandId).Ok? ==>
      Materialize(context, selection, commandId).value.action == selection.candidate
  {
    var found := if selection.Selected? then Lookup(context.candidates, selection.candidate) else None;
    if found.Some? {
      assert Lookup(context.candidates, selection.candidate) == Some(found.value);
    }
  }

  /** Compile, select, materialize: on anything that compiles, selection abstains exactly
      when nothing is offered; otherwise materializing never fails and the command carries
      an offered triple for an actor that is not busy. */
  lemma PipelineStaysLegal(o: Observation, intent: Intent, progress: Option<Progress>, busy: seq<string>,
                           commandId: string)
    requires intent.moment == o.moment && (progress.Some? ==> progress.value.moment == o.moment)
    ensures var context := Context(o, intent, progress, FirstOf(busy), Compiled(o, intent, progress, busy));
      && (Executed(context).Abstained? <==>
            forall t :: !(Offered(t, o, intent, set b | b in busy) && SemanticallyValid(t, o)))
      && (Executed(context).Selected? ==>
            && Materialize(context, Executed(context), commandId).Ok?
            && var t := Materialize(context, Executed(context), commandId).value.action;
               Offered(t, o, intent, set b | b in busy) && SemanticallyValid(t, o) && t.actor !in busy)
  {
    var candidates := Compiled(o, intent, progress, busy);
    CandidatesAreTheOffers(o, intent, progress, busy);
    if candidates == [] {
      forall t ensures !Has(candidates, t) {
      }
    } else {
      var best := Select(candidates).value;
      assert Has(candidates, best.id);
    }
  }
}
