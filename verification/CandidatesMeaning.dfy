/** What compiling and selecting mean, branch by branch: which actors and arguments an intent
    is offered, which triples become candidates, and which of them is selected. */
module CandidatesMeaning {
  import opened Candidates
  import opened Counting
  import opened Ordering

  // ----- arguments ----------------------------------------------------------------------

  function StartsAt(p: (int, int)): Arguments -> bool {
    (a: Arguments) => a != [] && a[0] == Point(p.0, p.1)
  }

  lemma {:induction false} GoingToIsFiltered(s: seq<Arguments>, p: (int, int))
    ensures GoingTo(s, p) == Filter(s, StartsAt(p))
  {
    if s != [] {
      GoingToIsFiltered(s[..|s| - 1], p);
    }
  }

  /** Without argument names there is one way to act, without arguments; without a list there
      is none; and an intent that is not tactical, or an action that is neither a move nor an
      attack, is offered the list as it is. */
  lemma PlainArguments(action: Action, intent: Intent, o: Observation, actor: string)
    ensures var r := CandidateArguments(action, intent, o, actor);
      && (!action.hasArguments ==> r == [[]])
      && (action.hasArguments && action.candidates == None ==> r == [])
      && (action.hasArguments && action.candidates != None
          && (intent.role != Tactical || (action.name != "Move_Minimap" && action.name != "Attack_Unit")) ==>
            r == action.candidates.value)
  {
  }

  /** A tactical move: a retreat is offered the last of the list; a move to a position what
      leads there; a move against an enemy everything but the last, if there is a choice; and
      any other move everything. */
  lemma MoveArguments(action: Action, intent: Intent, o: Observation, actor: string)
    requires action.hasArguments && action.candidates.Some? && intent.role == Tactical
    requires action.name == "Move_Minimap"
    ensures var s, r := action.candidates.value, CandidateArguments(action, intent, o, actor);
      && (intent.target.kind == RetreatRegion ==> if s == [] then r == [] else r == [s[|s| - 1]])
      && (intent.target.kind != RetreatRegion && intent.target.position != None ==>
            r == Filter(s, StartsAt(intent.target.position.value)))
      && (intent.target.kind == EnemyTarget && intent.target.position == None ==>
            if |s| > 1 then r == s[..|s| - 1] else r == s)
      && (intent.target.kind !in {RetreatRegion, EnemyTarget} && intent.target.position == None ==> r == s)
  {
    if intent.target.position.Some? {
      GoingToIsFiltered(action.candidates.value, intent.target.position.value);
    }
  }

  /** What an argument list aims at. */
  ghost predicate AimsAt(a: Arguments, tag: string) {
    a != [] && (a[0] == Tag(tag) || a[0] == Plain(tag))
  }

  /** An enemy the actor can hit, of the kind and with the tag the intent asks for. */
  ghost predicate Quarry(o: Observation, actor: string, intent: Intent, e: Enemy) {
    && actor in o.attackable && e in o.attackable[actor]
    && (intent.target.unitKind == None || intent.target.unitKind == Some(e.kind))
    && (intent.target.tag == None || intent.target.tag == Some(e.tag))
  }

  /** No two enemies that an actor can hit share a tag. */
  ghost predicate TagsIdentify(o: Observation, actor: string) {
    actor in o.attackable ==>
      forall i, j :: 0 <= i < j < |o.attackable[actor]| ==> o.attackable[actor][i].tag != o.attackable[actor][j].tag
  }

  lemma HitsMeaning(o: Observation, actor: string, intent: Intent, a: Arguments)
    ensures Hits(EnemiesOf(o, actor), intent.target, a) <==> exists e :: Quarry(o, actor, intent, e) && AimsAt(a, e.tag)
  {
    if Hits(EnemiesOf(o, actor), intent.target, a) {
      var e := EnemyByTag(EnemiesOf(o, actor), intent.target, TagOf(a)).value;
      assert Quarry(o, actor, intent, e) && AimsAt(a, e.tag);
    }
  }

  lemma HealthMeaning(o: Observation, actor: string, intent: Intent, a: Arguments, e: Enemy)
    requires TagsIdentify(o, actor) && Quarry(o, actor, intent, e) && AimsAt(a, e.tag)
    ensures HitHealth(EnemiesOf(o, actor), intent.target, a) == e.health && TagOf(a) == e.tag
  {
    var enemies := EnemiesOf(o, actor);
    var f := EnemyByTag(enemies, intent.target, TagOf(a)).value;
    var i :| 0 <= i < |enemies| && enemies[i] == e;
    var j :| 0 <= j < |enemies| && enemies[j] == f;
  }

  /** A tactical attack is offered the listed arguments that aim at its quarry, the weakest
      first, and of equally weak enemies the one with the smallest tag. */
  lemma AttacksAimAtTheWeakest(action: Action, intent: Intent, o: Observation, actor: string)
    requires action.hasArguments && action.candidates.Some? && intent.role == Tactical
    requires action.name == "Attack_Unit" && TagsIdentify(o, actor)
    ensures var s, r := action.candidates.value, CandidateArguments(action, intent, o, actor);
      && (forall a :: a in r <==> a in s && exists e :: Quarry(o, actor, intent, e) && AimsAt(a, e.tag))
      && (forall i, j, e, f ::
            0 <= i < j < |r| && Quarry(o, actor, intent, e) && AimsAt(r[i], e.tag)
            && Quarry(o, actor, intent, f) && AimsAt(r[j], f.tag) ==>
              e.health < f.health || (e.health == f.health && !StringLess(f.tag, e.tag)))
  {
    var enemies := EnemiesOf(o, actor);
    var hitting := Hitting(action.candidates.value, enemies, intent.target);
    var r := CandidateArguments(action, intent, o, actor);
    AimOrderIsAKeyOrder(enemies, intent.target);
    SortSorts(hitting, AimOrder(enemies, intent.target));
    SameMembers(r, hitting);
    forall a ensures Hits(enemies, intent.target, a) <==> exists e :: Quarry(o, actor, intent, e) && AimsAt(a, e.tag) {
      HitsMeaning(o, actor, intent, a);
    }
    forall i, j, e, f | 0 <= i < j < |r| && Quarry(o, actor, intent, e) && AimsAt(r[i], e.tag)
                        && Quarry(o, actor, intent, f) && AimsAt(r[j], f.tag)
      ensures e.health < f.health || (e.health == f.health && !StringLess(f.tag, e.tag))
    {
      assert !AimOrder(enemies, intent.target)(r[j], r[i]);
      HealthMeaning(o, actor, intent, r[i], e);
      HealthMeaning(o, actor, intent, r[j], f);
    }
  }

  // ----- actors -------------------------------------------------------------------------

  /** `r` is `s` without repetitions and without what is not wanted, in order. */
  ghost predicate Thinned(r: seq<string>, s: seq<string>, wanted: string -> bool) {
    && (forall a :: a in r <==> a in s && wanted(a))
    && (forall i, j :: 0 <= i < j < |r| ==> r[i] != r[j])
    && (forall i, j :: 0 <= i < j < |r| ==> Sooner(s, r[i], r[j]))
  }

  /** The first `a` in the list is before the first `b`. */
  ghost predicate Sooner(s: seq<string>, a: string, b: string) {
    exists i :: 0 <= i < |s| && s[i] == a && forall j :: 0 <= j <= i ==> s[j] != b
  }

  lemma SoonerStays(s: seq<string>, t: seq<string>, a: string, b: string)
    requires Sooner(s, a, b)
    ensures Sooner(s + t, a, b)
  {
    var i :| 0 <= i < |s| && s[i] == a && forall j :: 0 <= j <= i ==> s[j] != b;
    assert (s + t)[i] == a && forall j :: 0 <= j <= i ==> (s + t)[j] == s[j];
  }

  lemma {:induction false} FirstOfIsThinned(s: seq<string>)
    ensures Thinned(FirstOf(s), s, a => true)
  {
    if s != [] {
      var n := |s| - 1;
      var init, r := FirstOf(s[..n]), FirstOf(s);
      FirstOfIsThinned(s[..n]);
      assert s == s[..n] + [s[n]];
      forall i, j | 0 <= i < j < |r| ensures Sooner(s, r[i], r[j]) {
        if j < |init| {
          SoonerStays(s[..n], [s[n]], r[i], r[j]);
        } else {
          assert r[i] in s[..n];
          var k :| 0 <= k < n && s[..n][k] == r[i];
          assert s[k] == r[i] && forall m :: 0 <= m <= k ==> s[m] == s[..n][m] && s[m] in s[..n];
        }
      }
    }
  }

  lemma {:induction false} KeptIsFiltered(s: seq<string>, wanted: seq<string>)
    ensures Kept(s, wanted) == Filter(s, a => a in wanted)
  {
    if s != [] {
      KeptIsFiltered(s[..|s| - 1], wanted);
    }
  }

  lemma {:induction false} FilterKeepsThinned(r: seq<string>, s: seq<string>, wanted: string -> bool)
    requires Thinned(r, s, a => true)
    ensures Thinned(Filter(r, wanted), s, wanted)
  {
    FilterMembers(r, wanted);
    FilterKeepsOrder(r, s, wanted);
  }

  ghost predicate InOrder(r: seq<string>, s: seq<string>) {
    forall i, j :: 0 <= i < j < |r| ==> r[i] != r[j] && Sooner(s, r[i], r[j])
  }

  lemma {:induction false} FilterKeepsOrder(r: seq<string>, s: seq<string>, wanted: string -> bool)
    requires InOrder(r, s)
    ensures InOrder(Filter(r, wanted), s)
  {
    if r != [] {
      var n := |r| - 1;
      FilterKeepsOrder(r[..n], s, wanted);
      FilterMembers(r[..n], wanted);
      var init := Filter(r[..n], wanted);
      forall i | 0 <= i < |init| ensures init[i] != r[n] && Sooner(s, init[i], r[n]) {
        assert init[i] in r[..n];
        var k :| 0 <= k < n && r[..n][k] == init[i];
        assert r[k] == init[i];
      }
    }
  }

  /** The actors tried: those requested that are on offer, in the order of the request; without
      a request all on offer, in the order of the offer; nobody twice. */
  lemma ActorsMeaning(action: Action, intent: Intent)
    ensures var r := CandidateActors(action, intent);
      if intent.actors == [] then Thinned(r, action.actors, a => true)
      else Thinned(r, intent.actors, a => a in action.actors)
  {
    FirstOfIsThinned(action.actors);
    FirstOfIsThinned(intent.actors);
    KeptIsFiltered(FirstOf(intent.actors), action.actors);
    FilterKeepsThinned(FirstOf(intent.actors), intent.actors, a => a in action.actors);
  }

  // ----- candidates ---------------------------------------------------------------------

  /** An available action of this name is offered to this actor with these arguments, and the
      intent asks for the action and does not ask for other actors. */
  ghost predicate OnOffer(t: Triple, o: Observation, intent: Intent) {
    && t.action in intent.names && (intent.actors == [] || t.actor in intent.actors)
    && exists action :: action in o.available && action.name == t.action && t.actor in action.actors
                     && t.arguments in CandidateArguments(action, intent, o, t.actor)
  }

  /** An attack is by the army or one of its groups, on an enemy the actor can hit. */
  ghost predicate Sensible(t: Triple, o: Observation) {
    t.action == "Attack_Unit" ==>
      && (t.actor == "army" || "CombatGroup" <= t.actor)
      && t.actor in o.attackable && exists e :: e in o.attackable[t.actor] && AimsAt(t.arguments, e.tag)
  }

  lemma SensibleMeaning(t: Triple, o: Observation)
    ensures Sensible(t, o) <==> SemanticallyValid(t, o)
  {
  }

  lemma OnOfferMeaning(t: Triple, o: Observation, intent: Intent, busy: set<string>)
    ensures Offered(t, o, intent, busy) <==> OnOffer(t, o, intent) && t.actor !in busy
  {
    forall action: Action
      ensures t.actor in CandidateActors(action, intent) <==>
              t.actor in action.actors && (intent.actors == [] || t.actor in intent.actors)
    {
      ActorsMeaning(action, intent);
    }
    if Offered(t, o, intent, busy) {
      var action :| action in o.available && OfferedBy(action, t, o, intent);
      assert t.actor in action.actors;
    }
    if action :| action in o.available && action.name == t.action && t.actor in action.actors
                 && t.arguments in CandidateArguments(action, intent, o, t.actor) {
      assert t.action in intent.names && t.actor !in busy && (intent.actors == [] || t.actor in intent.actors)
             ==> OfferedBy(action, t, o, intent);
    }
  }

  /** What is compiled: every sensible triple on offer to an actor that is not busy, once, with
      its position as its number and no playbook score. */
  lemma CompiledMeaning(o: Observation, intent: Intent, progress: Option<Progress>, busy: seq<string>, t: Triple)
    ensures var r := Compiled(o, intent, progress, busy);
      && ((exists k :: 0 <= k < |r| && r[k].id == t) <==> OnOffer(t, o, intent) && t.actor !in busy && Sensible(t, o))
      && (forall j, k :: 0 <= j < k < |r| ==> r[j].id != r[k].id)
      && (forall k :: 0 <= k < |r| ==> Filled(r, k, o, intent, progress))
  {
    var r := Compiled(o, intent, progress, busy);
    CandidatesAreTheOffers(o, intent, progress, busy);
    OnOfferMeaning(t, o, intent, set b | b in busy);
    SensibleMeaning(t, o);
    assert Has(r, t) <==> exists k :: 0 <= k < |r| && r[k].id == t;
    forall k | 0 <= k < |r| ensures Filled(r, k, o, intent, progress) {
      CompiledAt(o, intent, progress, busy, k);
    }
  }

  /** What else a candidate says, and its number. */
  ghost predicate Filled(r: seq<Candidate>, k: nat, o: Observation, intent: Intent, progress: Option<Progress>)
    requires k < |r|
  {
    && r[k].features.ordinal == k && r[k].features.score == 0.0
    && r[k].fingerprint == o.fingerprint && r[k].intent == intent.id
    && (r[k].features.advances <==> progress.Some? && r[k].id.action in progress.value.advancing)
  }

  lemma CompiledAt(o: Observation, intent: Intent, progress: Option<Progress>, busy: seq<string>, k: nat)
    requires k < |Compiled(o, intent, progress, busy)|
    ensures Filled(Compiled(o, intent, progress, busy), k, o, intent, progress)
  {
    var r := Compiled(o, intent, progress, busy);
    CandidatesAreTheOffers(o, intent, progress, busy);
    RanksPointAtTheirSource(o, intent, progress, busy);
    assert r[k] in r;
  }

  // ----- the selection ------------------------------------------------------------------

  /** By the position of its action in the intent, then of its actor, then of its arguments,
      and then by its number. */
  ghost predicate Earlier(a: Features, b: Features) {
    || a.actionRank < b.actionRank
    || (a.actionRank == b.actionRank && a.actorRank < b.actorRank)
    || (a.actionRank == b.actionRank && a.actorRank == b.actorRank && a.argumentRank < b.argumentRank)
    || (a.actionRank == b.actionRank && a.actorRank == b.actorRank && a.argumentRank == b.argumentRank
        && a.ordinal < b.ordinal)
  }

  /** What is selected: a candidate that brings the goal closer if any does; among those, one
      with the best playbook score; and among those, the earliest. The saved policy leaves out
      the score. */
  lemma SelectionMeaning(candidates: seq<Candidate>, best: Candidate, c: Candidate)
    requires Numbered(candidates) && c in candidates && c != best
    ensures Select(candidates) == Some(best) ==>
      && best in candidates
      && (c.features.advances ==> best.features.advances)
      && (c.features.advances == best.features.advances ==> c.features.score <= best.features.score)
      && (c.features.advances == best.features.advances && c.features.score == best.features.score ==>
            Earlier(best.features, c.features))
    ensures SavedSelect(candidates) == Some(best) ==>
      && best in candidates
      && (c.features.advances ==> best.features.advances)
      && (c.features.advances == best.features.advances ==> Earlier(best.features, c.features))
  {
    if Select(candidates) == Some(best) {
      MinByIsUnique(candidates, RankLess, best);
    }
    if SavedSelect(candidates) == Some(best) {
      MinByIsUnique(candidates, SavedRankLess, best);
    }
  }

  // ----- commands -----------------------------------------------------------------------

  /** What a command carries: the action selected, and the intent's priority, lifetime, loop
      and origin. */
  lemma CommandMeaning(context: Context, selection: Selection, commandId: string)
    requires Materialize(context, selection, commandId).Ok?
    ensures var command := Materialize(context, selection, commandId).value;
      && selection.Selected? && selection.intent == context.intent.id
      && command.id == commandId && command.action == selection.candidate
      && command.priority == context.intent.priority && command.ttl == context.intent.ttl
      && command.created == context.intent.moment.gameLoop
      && (command.source == FromReflex <==> context.intent.role == Reflex)
      && Sensible(selection.candidate, context.observation)
      && exists k :: 0 <= k < |context.candidates| && context.candidates[k].id == selection.candidate
                  && context.candidates[k].fingerprint == context.observation.fingerprint
  {
    SensibleMeaning(selection.candidate, context.observation);
    var c := Lookup(context.candidates, selection.candidate).value;
    var k :| 0 <= k < |context.candidates| && context.candidates[k] == c;
  }

  /** Why a selection is refused. */
  lemma RefusalMeaning(context: Context, selection: Selection, commandId: string)
    requires forall j, k :: 0 <= j < k < |context.candidates| ==> context.candidates[j].id != context.candidates[k].id
    ensures var r, cs := Materialize(context, selection, commandId), context.candidates;
      && (r == Err(ForeignSelection) <==> selection.intent != context.intent.id)
      && (r == Err(NothingSelected) <==> selection.intent == context.intent.id && selection.Abstained?)
      && (r == Err(UnknownCandidate) <==>
            && selection.intent == context.intent.id && selection.Selected?
            && forall k :: 0 <= k < |cs| ==> cs[k].id != selection.candidate)
      && (r == Err(StaleCandidate) <==>
            && selection.intent == context.intent.id && selection.Selected?
            && exists k :: 0 <= k < |cs| && cs[k].id == selection.candidate
                        && cs[k].fingerprint != context.observation.fingerprint)
  {
    if selection.Selected? && Lookup(context.candidates, selection.candidate).Some? {
      var c := Lookup(context.candidates, selection.candidate).value;
      var k :| 0 <= k < |context.candidates| && context.candidates[k] == c;
    }
    assert forall k :: 0 <= k < |context.candidates| ==> context.candidates[k] in context.candidates;
  }
}
