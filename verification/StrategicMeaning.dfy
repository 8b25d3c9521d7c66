/** The published arbitration in plain numbers: what each decision is scored, which verdict it
    carries, and which of the intents on offer win. Nothing here speaks of how the arbiter
    gets there. */
module StrategicMeaning {
  import opened Ordering
  import opened Strategic
  import opened StrategicTheorems
  import opened StrategicRuns
  import opened StrategicReplay

  // ----- scores -------------------------------------------------------------------------

  /** The part of what is available that a claim takes; one unit is the least there can be. */
  function Share(claimed: nat, available: int): real {
    claimed as real / (if available > 1 then available else 1) as real
  }

  /** The largest of the three shares, and never more than everything. */
  function Scarcity(claim: ResourceClaim, obs: Observation): real {
    var m, v, s := Share(claim.minerals, obs.minerals), Share(claim.vespene, obs.vespene),
      Share(claim.supply, obs.supplyCap - obs.supplyUsed);
    if m >= 1.0 || v >= 1.0 || s >= 1.0 then 1.0
    else if m >= v && m >= s then m
    else if v >= s then v
    else s
  }

  lemma ScarcityIsPressure(claim: ResourceClaim, obs: Observation)
    ensures ResourcePressure(claim, obs) == Scarcity(claim, obs)
  {
  }

  /** Every field of the score published for the k-th intent of the batch. */
  lemma DecisionScores(tick: Tick, r: Arbitration, k: nat)
    requires tick.Yields(r) && k < |tick.intents|
    ensures |r.decisions| == |tick.intents|
    ensures var x, s := tick.intents[k], r.decisions[k].score;
      && s.progress == 4.0 * x.progress && s.urgency == 3.0 * x.urgency
      && s.alignment == 2.0 * x.alignment && s.confidence == x.confidence && s.risk == 3.0 * x.risk
      && s.playbook == (if x.id in tick.advice.deltas then tick.advice.deltas[x.id] else 0.0)
      && s.switching == (match tick.previous
                         case None => 0.0
                         case Some(agenda) =>
                           if agenda.activeKeys == [] || x.continuityKey in agenda.activeKeys || x.emergency
                           then 0.0 else 2.0)
      && s.resources == Scarcity(x.claim, tick.obs)
      && s.total == 4.0 * x.progress + 3.0 * x.urgency + 2.0 * x.alignment + x.confidence - 3.0 * x.risk
                    + s.playbook - s.switching - s.resources
  {
    var best :| IsBest(best, tick.Eligible(), tick.obs, tick.Scores(), tick.Conflicts()) && r == tick.Settle(best);
    var x := tick.intents[k];
    DecisionsMeaning(tick, tick.intents, tick.Chosen(best));
    ScarcityIsPressure(x.claim, tick.obs);
    assert r.decisions[k].score == ScoreOf(x, tick.obs, tick.previous, DeltaOf(x, tick.advice));
  }

  // ----- verdicts -----------------------------------------------------------------------

  lemma SelectedIds(tick: Tick, selected: seq<Intent>)
    requires tick.Check() == None && Subsequence(selected, tick.Eligible())
    ensures forall x :: x in selected ==> x in tick.intents && Rejection(x, tick.obs) == None
    ensures forall x :: x in tick.intents ==> (x in selected <==> x.id in SortStrings(Ids(selected)))
    ensures forall id :: id in SortStrings(Ids(selected)) ==> exists x :: x in selected && x.id == id
  {
    EligibleMeaning(tick);
    SubsequenceFacts(selected, tick.Eligible());
    var sorted := SortStrings(Ids(selected));
    SortStringsPermutes(Ids(selected));
    SameMembers(sorted, Ids(selected));
    forall x | x in tick.intents ensures x in selected <==> x.id in sorted {
      IdIdentifies(selected, tick.intents, x);
    }
    forall id | id in sorted ensures exists x :: x in selected && x.id == id {
      var i :| 0 <= i < |Ids(selected)| && Ids(selected)[i] == id;
      assert selected[i] in selected;
    }
  }

  /** The intents behind the published selection. */
  lemma Published(tick: Tick, r: Arbitration) returns (selected: seq<Intent>)
    requires tick.Check() == None && tick.Yields(r)
    ensures Subsequence(selected, tick.Eligible()) && Feasible(selected, tick.obs, tick.Conflicts())
    ensures r == Arbitration(tick.Decisions(selected), SortStrings(Ids(selected)), tick.Conflicts(),
                             tick.NextAgenda(selected))
  {
    var best :| IsBest(best, tick.Eligible(), tick.obs, tick.Scores(), tick.Conflicts()) && r == tick.Settle(best);
    selected := tick.Chosen(best);
    ChosenIsFeasible(tick, best);
  }

  ghost predicate Expired(x: Intent, obs: Observation) {
    obs.gameLoop >= x.created + x.ttl
  }

  ghost predicate EmergencySelected(tick: Tick, r: Arbitration) {
    exists e :: e in tick.intents && e.emergency && e.id in r.selectedIds
  }

  ghost predicate Verdict(tick: Tick, r: Arbitration, x: Intent, d: Decision) {
    && d.id == x.id
    && d.rules == (if x.id in tick.advice.rules then tick.advice.rules[x.id] else [])
    && (x.id in r.selectedIds ==>
          && d.status == Selected && d.reason == SelectedFeasibleSet && !Expired(x, tick.obs) && x.blockers == []
          && d.reserved == x.claim && d.committedUntil == Some(tick.obs.gameLoop + x.claim.loops))
    && (x.id !in r.selectedIds ==>
          && d.reserved == ResourceClaim(0, 0, 0, 1) && d.committedUntil == None
          && (d.status, d.reason) ==
             if Expired(x, tick.obs) then (Rejected, IntentExpired)
             else if x.blockers != [] then (Rejected, HardPreconditionFailed)
             else if tick.previous.Some? && x.continuityKey in tick.previous.value.activeKeys
                     && EmergencySelected(tick, r)
             then (Preempted, EmergencyPreemption)
             else (Deferred, NotInBestFeasibleSet))
  }

  /** The verdict published for the k-th intent, in every case. */
  lemma Verdicts(tick: Tick, r: Arbitration, k: nat)
    requires tick.Check() == None && tick.Yields(r) && k < |tick.intents|
    ensures |r.decisions| == |tick.intents| && Verdict(tick, r, tick.intents[k], r.decisions[k])
  {
    var selected := Published(tick, r);
    SelectedIds(tick, selected);
    VerdictOf(tick, r, selected, k);
  }

  lemma VerdictOf(tick: Tick, r: Arbitration, selected: seq<Intent>, k: nat)
    requires k < |tick.intents| && r.decisions == tick.Decisions(selected)
    requires forall x :: x in selected ==> x in tick.intents && Rejection(x, tick.obs) == None
    requires forall x :: x in tick.intents ==> (x in selected <==> x.id in r.selectedIds)
    ensures Verdict(tick, r, tick.intents[k], r.decisions[k])
  {
    var x := tick.intents[k];
    DecisionsMeaning(tick, tick.intents, selected);
    assert r.decisions[k] == tick.Decide(x, selected);
    assert EmergencySelected(tick, r) <==> exists i :: i in selected && i.emergency;
  }

  /** The first of these things that two intents share. */
  ghost function Shared(x: Intent, y: Intent): Option<ConflictKind> {
    if exists a :: a in x.actors && a in y.actors then Some(ActorConflict)
    else if exists p :: p in x.producers && p in y.producers then Some(ProducerConflict)
    else if exists g :: g in x.groups && g in y.groups then Some(ObjectiveConflict)
    else if x.role == y.role && (x.actors == [] || y.actors == []) then Some(RoleConflict)
    else None
  }

  /** The conflicts published between two intents of the batch. */
  lemma ConflictsPublished(tick: Tick, r: Arbitration, x: Intent, y: Intent, kind: ConflictKind)
    requires tick.Check() == None && tick.Yields(r)
    requires x in tick.intents && y in tick.intents && StringLess(x.id, y.id)
    ensures Conflict(kind, x.id, y.id) in r.conflicts <==> Shared(x, y) == Some(kind)
  {
    var selected := Published(tick, r);
    ConflictBetween(tick.intents, x, y, kind);
  }

  lemma ConflictBetween(intents: seq<Intent>, x: Intent, y: Intent, kind: ConflictKind)
    requires UniqueIds(intents) && x in intents && y in intents && StringLess(x.id, y.id)
    ensures Conflict(kind, x.id, y.id) in ConflictsOf(intents) <==> Shared(x, y) == Some(kind)
  {
    var c := Conflict(kind, x.id, y.id);
    ConflictMeaning(intents, c);
    StringTrichotomy(x.id, y.id);
    assert ClashKind(x, y) == Shared(x, y);
    assert PairConflict(x, y) == [c] <==> Shared(x, y) == Some(kind);
    if a, b :| a in intents && b in intents && a != b && PairConflict(a, b) == [c] {
      ConflictNames(a, b, c);
      if a.id == x.id {
        SameIntent(intents, a, x);
        SameIntent(intents, b, y);
      } else {
        SameIntent(intents, a, y);
        SameIntent(intents, b, x);
        ClashIsSymmetric(a, b);
      }
    }
  }

  lemma ConflictNames(a: Intent, b: Intent, c: Conflict)
    requires PairConflict(a, b) == [c]
    ensures (a.id == c.low && b.id == c.high) || (a.id == c.high && b.id == c.low)
  {
  }

  /** Each decision lists the published conflicts that name its intent. */
  lemma ConflictsAttributed(tick: Tick, r: Arbitration, k: nat, c: Conflict)
    requires tick.Check() == None && tick.Yields(r) && k < |tick.intents|
    ensures |r.decisions| == |tick.intents|
    ensures c in r.decisions[k].conflicts <==>
            c in r.conflicts && (c.low == tick.intents[k].id || c.high == tick.intents[k].id)
  {
    var selected := Published(tick, r);
    DecisionsMeaning(tick, tick.intents, selected);
    ConflictsAboutMembers(tick.intents[k].id, tick.Conflicts(), c);
  }

  // ----- which intents are considered ---------------------------------------------------

  ghost predicate Open(x: Intent, obs: Observation) {
    obs.gameLoop < x.created + x.ttl && x.blockers == []
  }

  ghost predicate Outranks(y: Intent, x: Intent) {
    y.priority > x.priority || (y.priority == x.priority && StringLess(y.id, x.id))
  }

  ghost function Betters(tick: Tick, x: Intent): set<Intent> {
    set y | y in tick.intents && Open(y, tick.obs) && Outranks(y, x)
  }

  lemma {:induction false} MembersCount(s: seq<Intent>)
    requires UniqueIds(s)
    ensures |set y | y in s| == |s|
  {
    if s != [] {
      var init, last := s[..|s| - 1], s[|s| - 1];
      MembersCount(init);
      assert last !in init;
      assert (set y | y in s) == (set y | y in init) + {last};
    }
  }

  lemma AdmittedMeaning(tick: Tick)
    requires tick.Check() == None
    ensures StrictlyRanked(tick.Admitted()) && UniqueIds(tick.Admitted())
    ensures forall x :: x in tick.Admitted() <==> x in tick.intents && Open(x, tick.obs)
  {
    var ranked, admitted := tick.Ranked(), tick.Admitted();
    RankedIsPermutation(tick.intents);
    RankedStrictly(tick.intents);
    AdmittedIsSubsequence(ranked, tick.obs);
    SubsequenceFacts(admitted, ranked);
    forall i, j | 0 <= i < j < |admitted| ensures Before(admitted[i], admitted[j]) {
      SubsequenceKeepsOrder(admitted, ranked, i, j);
    }
  }

  lemma BettersBefore(tick: Tick, i: nat)
    requires tick.Check() == None && i < |tick.Admitted()|
    ensures |Betters(tick, tick.Admitted()[i])| == i
  {
    var admitted := tick.Admitted();
    AdmittedMeaning(tick);
    MembersCount(admitted[..i]);
    forall y ensures y in Betters(tick, admitted[i]) <==> y in admitted[..i] {
      if y in Betters(tick, admitted[i]) {
        var j :| 0 <= j < |admitted| && admitted[j] == y;
        StringTrichotomy(y.id, admitted[i].id);
      }
    }
    assert Betters(tick, admitted[i]) == set y | y in admitted[..i];
  }

  /** An intent is considered exactly when it is open and fewer than `maxIntents` open
      intents outrank it. */
  lemma ConsideredMeaning(tick: Tick, x: Intent)
    requires tick.Check() == None
    ensures x in tick.Eligible() <==>
            x in tick.intents && Open(x, tick.obs) && |Betters(tick, x)| < tick.config.maxIntents
  {
    var admitted, eligible := tick.Admitted(), tick.Eligible();
    AdmittedMeaning(tick);
    assert eligible == admitted[..|eligible|];
    if x in admitted {
      var i :| 0 <= i < |admitted| && admitted[i] == x;
      BettersBefore(tick, i);
      if x in eligible {
        var j :| 0 <= j < |eligible| && eligible[j] == x;
        assert admitted[j].id == admitted[i].id;
      } else {
        assert i >= |eligible|;
      }
    }
  }

  // ----- adding and removing one intent --------------------------------------------------

  /** `u` is `t` and `z`. */
  ghost predicate Adds(u: seq<Intent>, t: seq<Intent>, z: Intent) {
    && (forall x :: x in u <==> x in t || x == z)
    && |u| == |t| + 1
    && Emergencies(u) == Emergencies(t) + (if z.emergency then 1 else 0)
    && SumClaims(u).minerals == SumClaims(t).minerals + z.claim.minerals
    && SumClaims(u).vespene == SumClaims(t).vespene + z.claim.vespene
    && SumClaims(u).supply == SumClaims(t).supply + z.claim.supply
  }

  lemma AddsAhead(u: seq<Intent>, t: seq<Intent>, z: Intent, head: Intent, scoring: Scoring)
    requires Adds(u, t, z) && TotalScore(u, scoring) == TotalScore(t, scoring) + scoring.Of(z).total
    ensures Adds([head] + u, [head] + t, z)
    ensures TotalScore([head] + u, scoring) == TotalScore([head] + t, scoring) + scoring.Of(z).total
  {
    assert ([head] + u)[1..] == u && ([head] + t)[1..] == t;
  }

  lemma {:induction false} WithOne(t: seq<Intent>, s: seq<Intent>, z: Intent, scoring: Scoring)
    returns (u: seq<Intent>)
    requires UniqueIds(s) && Subsequence(t, s) && z in s && z !in t
    ensures Subsequence(u, s) && Adds(u, t, z)
    ensures TotalScore(u, scoring) == TotalScore(t, scoring) + scoring.Of(z).total
    decreases |s|
  {
    SplitHead(t, s);
    if z == s[0] {
      u := [z] + t;
      assert u[1..] == t;
    } else if t != [] && t[0] == s[0] {
      var rest := WithOne(t[1..], s[1..], z, scoring);
      u := [t[0]] + rest;
      assert u[1..] == rest && t == [t[0]] + t[1..];
      AddsAhead(rest, t[1..], z, t[0], scoring);
    } else {
      u := WithOne(t, s[1..], z, scoring);
    }
  }

  lemma {:induction false} WithoutOne(u: seq<Intent>, z: Intent, scoring: Scoring) returns (t: seq<Intent>)
    requires UniqueIds(u) && z in u
    ensures Subsequence(t, u) && Adds(u, t, z) && z !in t
    ensures TotalScore(u, scoring) == TotalScore(t, scoring) + scoring.Of(z).total
  {
    assert u == [u[0]] + u[1..];
    if z == u[0] {
      t := u[1..];
      WholeIsSubsequence(t);
    } else {
      var rest := WithoutOne(u[1..], z, scoring);
      t := [u[0]] + rest;
      assert t[1..] == rest;
      AddsAhead(u[1..], rest, z, u[0], scoring);
    }
  }

  lemma WholeIsSubsequence(s: seq<Intent>)
    ensures Subsequence(s, s)
  {
    PrefixIsSubsequence(s, |s|);
    assert s[..|s|] == s;
  }

  // ----- which intents win --------------------------------------------------------------

  /** No commitment of an earlier tick is still running. */
  ghost predicate Unbound(tick: Tick) {
    tick.previous.Some? ==> tick.previous.value.committedUntil <= tick.obs.gameLoop
  }

  lemma UnboundIsBest(tick: Tick, r: Arbitration) returns (best: seq<Intent>)
    requires tick.Check() == None && tick.Yields(r) && Unbound(tick)
    ensures IsBest(best, tick.Eligible(), tick.obs, tick.Scores(), tick.Conflicts())
    ensures r.decisions == tick.Decisions(best) && r.agenda == tick.NextAgenda(best)
    ensures r.selectedIds == SortStrings(Ids(best))
  {
    best :| IsBest(best, tick.Eligible(), tick.obs, tick.Scores(), tick.Conflicts()) && r == tick.Settle(best);
  }

  lemma ClashMeaning(x: Intent, y: Intent)
    ensures Clash(x, y) <==> Shared(x, y).Some?
    ensures Shared(x, y) == Shared(y, x)
  {
  }

  lemma AddingStaysCoherent(tick: Tick, t: seq<Intent>, u: seq<Intent>, z: Intent)
    requires tick.Check() == None && Coherent(t, tick.obs) && Adds(u, t, z)
    requires forall x :: x in t ==> Shared(x, z) == None
    requires forall d :: d in z.dependencies ==> exists x :: x in t && x.id == d
    requires Affordable(SumClaims(u), tick.obs)
    ensures Coherent(u, tick.obs)
  {
    forall a, b | a in u && b in u && a != b ensures !Clash(a, b) {
      ClashMeaning(a, b);
    }
    forall a, d | a in u && d in a.dependencies ensures exists b :: b in u && b.id == d {
      var x :| x in t && x.id == d;
      assert x in u;
    }
  }

  lemma RemovingStaysCoherent(obs: Observation, t: seq<Intent>, u: seq<Intent>, z: Intent)
    requires Coherent(u, obs) && Adds(u, t, z)
    requires forall x :: x in u ==> z.id !in x.dependencies
    ensures Coherent(t, obs)
  {
    forall a, d | a in t && d in a.dependencies ensures exists b :: b in t && b.id == d {
      assert a in u;
      var b :| b in u && b.id == d;
      assert b in t;
    }
  }

  /** What is left after the published reservations suffices for `claim`. */
  ghost predicate StillAffordable(claim: ResourceClaim, agenda: Agenda, obs: Observation) {
    && agenda.reserved.minerals + claim.minerals <= obs.minerals
    && agenda.reserved.vespene + claim.vespene <= obs.vespene
    && agenda.reserved.supply + claim.supply <= (if obs.supplyCap > obs.supplyUsed then obs.supplyCap - obs.supplyUsed
      else 0)
  }

  lemma AddingIsFeasible(tick: Tick, t: seq<Intent>, z: Intent) returns (u: seq<Intent>)
    requires tick.Check() == None && z in tick.Eligible() && z !in t
    requires Subsequence(t, tick.Eligible()) && Feasible(t, tick.obs, tick.Conflicts())
    requires StillAffordable(z.claim, tick.NextAgenda(t), tick.obs)
    requires forall x :: x in t ==> Shared(x, z) == None
    requires forall d :: d in z.dependencies ==> exists x :: x in t && x.id == d
    ensures Subsequence(u, tick.Eligible()) && Feasible(u, tick.obs, tick.Conflicts()) && Adds(u, t, z)
    ensures TotalScore(u, tick.Scores()) == TotalScore(t, tick.Scores()) + tick.Scores().Of(z).total
  {
    EligibleMeaning(tick);
    u := WithOne(t, tick.Eligible(), z, tick.Scores());
    EligibleFeasibleIsCoherent(tick, t);
    AddingStaysCoherent(tick, t, u, z);
    EligibleFeasibleIsCoherent(tick, u);
  }

  lemma NotWorthAdding(tick: Tick, best: seq<Intent>, z: Intent)
    requires tick.Check() == None && z in tick.Eligible() && z !in best
    requires IsBest(best, tick.Eligible(), tick.obs, tick.Scores(), tick.Conflicts())
    requires StillAffordable(z.claim, tick.NextAgenda(best), tick.obs)
    requires forall x :: x in best ==> Shared(x, z) == None
    requires forall d :: d in z.dependencies ==> exists x :: x in best && x.id == d
    ensures !z.emergency && tick.Scores().Of(z).total < 0.0
  {
    var u := AddingIsFeasible(tick, best, z);
    assert !KeyLess(KeyOf(best, tick.Scores()), KeyOf(u, tick.Scores()));
  }

  /** An intent that could have been selected on top of the selection is no emergency and
      scores below zero. */
  lemma NoWorthyIntentIsLeftOut(tick: Tick, r: Arbitration, k: nat)
    requires tick.Check() == None && tick.Yields(r) && Unbound(tick) && k < |tick.intents|
      && |r.decisions| == |tick.intents|
    requires var z := tick.intents[k];
      && z in tick.Eligible() && z.id !in r.selectedIds && StillAffordable(z.claim, r.agenda, tick.obs)
      && (forall x :: x in tick.intents && x.id in r.selectedIds ==> Shared(x, z) == None)
      && (forall d :: d in z.dependencies ==> d in r.selectedIds)
    ensures !tick.intents[k].emergency && r.decisions[k].score.total < 0.0
  {
    var z := tick.intents[k];
    var best := UnboundIsBest(tick, r);
    SelectedIds(tick, best);
    NotWorthAdding(tick, best, z);
    DecisionsMeaning(tick, tick.intents, best);
  }

  lemma RemovingIsFeasible(tick: Tick, u: seq<Intent>, z: Intent) returns (t: seq<Intent>)
    requires tick.Check() == None && z in u && forall x :: x in u ==> z.id !in x.dependencies
    requires Subsequence(u, tick.Eligible()) && Feasible(u, tick.obs, tick.Conflicts())
    ensures Subsequence(t, tick.Eligible()) && Feasible(t, tick.obs, tick.Conflicts()) && Adds(u, t, z)
    ensures TotalScore(u, tick.Scores()) == TotalScore(t, tick.Scores()) + tick.Scores().Of(z).total
  {
    EligibleMeaning(tick);
    SubsequenceFacts(u, tick.Eligible());
    t := WithoutOne(u, z, tick.Scores());
    SubsequenceTransitive(t, u, tick.Eligible());
    EligibleFeasibleIsCoherent(tick, u);
    RemovingStaysCoherent(tick.obs, t, u, z);
    EligibleFeasibleIsCoherent(tick, t);
  }

  lemma WorthKeeping(tick: Tick, best: seq<Intent>, z: Intent)
    requires tick.Check() == None && z in best && forall x :: x in best ==> z.id !in x.dependencies
    requires IsBest(best, tick.Eligible(), tick.obs, tick.Scores(), tick.Conflicts())
    ensures z.emergency || tick.Scores().Of(z).total >= 0.0
  {
    var t := RemovingIsFeasible(tick, best, z);
    assert !KeyLess(KeyOf(best, tick.Scores()), KeyOf(t, tick.Scores()));
  }

  /** A selected intent on which no selected intent depends is an emergency or scores at
      least zero. */
  lemma NothingWorthlessIsSelected(tick: Tick, r: Arbitration, k: nat)
    requires tick.Check() == None && tick.Yields(r) && Unbound(tick) && k < |tick.intents|
      && |r.decisions| == |tick.intents|
    requires var z := tick.intents[k];
      && z.id in r.selectedIds
      && (forall x :: x in tick.intents && x.id in r.selectedIds ==> z.id !in x.dependencies)
    ensures tick.intents[k].emergency || r.decisions[k].score.total >= 0.0
  {
    var z := tick.intents[k];
    var best := UnboundIsBest(tick, r);
    SelectedIds(tick, best);
    WorthKeeping(tick, best, z);
    DecisionsMeaning(tick, tick.intents, best);
  }

  /** Affordable on its own, with no dependencies. */
  ghost predicate Independent(x: Intent, obs: Observation) {
    && x.dependencies == []
    && x.claim.minerals <= obs.minerals && x.claim.vespene <= obs.vespene
    && (x.claim.supply == 0 || obs.supplyUsed + x.claim.supply <= obs.supplyCap)
  }

  lemma {:induction false} LoneIsSubsequence(x: Intent, s: seq<Intent>)
    requires x in s
    ensures Subsequence([x], s)
  {
    if x != s[0] {
      LoneIsSubsequence(x, s[1..]);
    }
  }

  lemma LoneIsFeasible(tick: Tick, x: Intent)
    requires tick.Check() == None && x in tick.Eligible() && Independent(x, tick.obs)
    ensures Subsequence([x], tick.Eligible()) && Feasible([x], tick.obs, tick.Conflicts())
  {
    LoneIsSubsequence(x, tick.Eligible());
    LoneIsCoherent(x, tick.obs);
    EligibleFeasibleIsCoherent(tick, [x]);
  }

  /** Whatever the scores and commitments, an emergency that could be served alone is not
      passed over for intents that are none. */
  lemma EmergenciesComeFirst(tick: Tick, r: Arbitration, e: Intent)
    requires tick.Check() == None && tick.Yields(r)
    requires e in tick.Eligible() && e.emergency && Independent(e, tick.obs)
    ensures EmergencySelected(tick, r)
  {
    var best :| IsBest(best, tick.Eligible(), tick.obs, tick.Scores(), tick.Conflicts()) && r == tick.Settle(best);
    ChosenIsFeasible(tick, best);
    BestServesOne(tick, best, e);
    var x := SomeEmergency(tick.Chosen(best));
    SelectedIds(tick, tick.Chosen(best));
  }

  lemma BestServesOne(tick: Tick, best: seq<Intent>, e: Intent)
    requires tick.Check() == None && IsBest(best, tick.Eligible(), tick.obs, tick.Scores(), tick.Conflicts())
    requires e in tick.Eligible() && e.emergency && Independent(e, tick.obs)
    ensures Emergencies(best) > 0
  {
    LoneIsFeasible(tick, e);
    assert !KeyLess(KeyOf(best, tick.Scores()), KeyOf([e], tick.Scores()));
  }

  lemma {:induction false} SomeEmergency(s: seq<Intent>) returns (x: Intent)
    requires Emergencies(s) > 0
    ensures x in s && x.emergency
  {
    if s[0].emergency {
      x := s[0];
    } else {
      x := SomeEmergency(s[1..]);
    }
  }

  // ----- rivals -------------------------------------------------------------------------

  ghost predicate Plain(x: Intent, tick: Tick) {
    && Open(x, tick.obs) && Independent(x, tick.obs) && !x.emergency && x.claim.loops >= 1
    && x.id !in tick.advice.deltas
  }

  /** A batch of two ordinary intents without advice; both may be considered. */
  ghost predicate Two(tick: Tick, x: Intent, y: Intent) {
    && tick.Check() == None && (tick.intents == [x, y] || tick.intents == [y, x])
    && tick.config.maxIntents >= 2 && Plain(x, tick) && Plain(y, tick)
  }

  lemma BothAreConsidered(tick: Tick, x: Intent, y: Intent)
    requires Two(tick, x, y)
    ensures x in tick.Eligible() && y in tick.Eligible() && x.id != y.id
    ensures forall z :: z in tick.Eligible() ==> z == x || z == y
  {
    assert x in tick.intents && y in tick.intents;
    assert tick.intents[0].id != tick.intents[1].id;
    EligibleMeaning(tick);
  }

  lemma RivalSubsets(tick: Tick, x: Intent, y: Intent, t: seq<Intent>)
    requires Two(tick, x, y) && Shared(x, y).Some?
    requires Subsequence(t, tick.Eligible()) && Coherent(t, tick.obs)
    ensures t == [] || t == [x] || t == [y]
  {
    BothAreConsidered(tick, x, y);
    EligibleMeaning(tick);
    SubsequenceFacts(t, tick.Eligible());
    ClashMeaning(x, y);
    ClashIsSymmetric(x, y);
    assert !(x in t && y in t);
    OneOfTwo(t, x, y);
  }

  lemma OneOfTwo(t: seq<Intent>, x: Intent, y: Intent)
    requires UniqueIds(t) && !(x in t && y in t) && forall z :: z in t ==> z == x || z == y
    ensures t == [] || t == [x] || t == [y]
  {
    var z := if x in t then x else y;
    forall i | 0 <= i < |t| ensures t[i] == z {
      assert t[i] in t;
    }
    if |t| > 1 {
      var first, second := t[0].id, t[1].id;
      assert false;
    }
  }

  lemma LoneSums(x: Intent, scoring: Scoring)
    ensures TotalScore([x], scoring) == scoring.Of(x).total && TotalScore([], scoring) == 0.0
    ensures Emergencies([x]) == (if x.emergency then 1 else 0) && Emergencies([]) == 0
    ensures SumClaims([x]) == ResourceClaim(x.claim.minerals, x.claim.vespene, x.claim.supply,
                                            NatMax(x.claim.loops, 1))
  {
    var none: seq<Intent> := [];
    assert [x][1..] == none;
    assert TotalScore(none, scoring) == 0.0 && Emergencies(none) == 0 && SumClaims(none) == NO_CLAIM;
  }

  lemma LoneKey(x: Intent, scoring: Scoring)
    requires !x.emergency
    ensures KeyOf([x], scoring) == RankKey(0, scoring.Of(x).total, 1, [x.id])
    ensures KeyOf([], scoring) == RankKey(0, 0.0, 0, [])
  {
    LoneSums(x, scoring);
    LoneId(x.id);
    assert Ids([x]) == [x.id] && Ids([]) == [];
  }

  lemma LoneId(id: string)
    ensures SortStrings([id]) == [id]
  {
    var less := (a, b) => StringLess(a, b);
    assert [id][..0] == [];
    assert Sort([], less) == [];
  }

  /** Ahead by total, or level and with the larger identifier. */
  ghost predicate Ahead(x: Intent, y: Intent, scoring: Scoring) {
    || scoring.Of(x).total > scoring.Of(y).total
    || (scoring.Of(x).total == scoring.Of(y).total && StringLess(y.id, x.id))
  }

  lemma RivalWins(tick: Tick, x: Intent, y: Intent, best: seq<Intent>)
    requires Two(tick, x, y) && Shared(x, y).Some?
    requires IsBest(best, tick.Eligible(), tick.obs, tick.Scores(), tick.Conflicts())
    requires Ahead(x, y, tick.Scores()) && tick.Scores().Of(x).total >= 0.0
    ensures best == [x]
  {
    BothAreConsidered(tick, x, y);
    EligibleFeasibleIsCoherent(tick, best);
    RivalSubsets(tick, x, y, best);
    LoneIsFeasible(tick, x);
    LoneKey(x, tick.Scores());
    LoneKey(y, tick.Scores());
    assert !KeyLess(KeyOf(best, tick.Scores()), KeyOf([x], tick.Scores()));
  }

  /** What one intent is worth without advice and before any switch. */
  ghost function Worth(x: Intent, obs: Observation): real {
    4.0 * x.progress + 3.0 * x.urgency + 2.0 * x.alignment + x.confidence - 3.0 * x.risk - Scarcity(x.claim, obs)
  }

  lemma PlainTotal(tick: Tick, x: Intent)
    requires Plain(x, tick)
    ensures tick.Scores().Of(x).total == Worth(x, tick.obs) - 2.0 * SwitchPenalty(x, tick.previous)
  {
    ScarcityIsPressure(x.claim, tick.obs);
  }

  /** The agenda that reserves for `x` alone. */
  ghost predicate ReservesFor(agenda: Agenda, x: Intent, obs: Observation) {
    && agenda.batch == obs.batch && agenda.gameLoop == obs.gameLoop
    && agenda.activeIds == [x.id] && agenda.activeKeys == [x.continuityKey] && agenda.reserved == x.claim
    && agenda.committedUntil == obs.gameLoop + x.claim.loops
  }

  lemma LoneAgenda(tick: Tick, x: Intent)
    requires x.claim.loops >= 1
    ensures ReservesFor(tick.NextAgenda([x]), x, tick.obs)
    ensures tick.NextAgenda([x]).totalScore == tick.Scores().Of(x).total
  {
    LoneId(x.id);
    LoneId(x.continuityKey);
    LoneSums(x, tick.Scores());
    assert Ids([x]) == [x.id] && Keys([x]) == [x.continuityKey];
  }

  lemma RivalAnswer(tick: Tick, x: Intent, y: Intent, r: Arbitration)
    requires Two(tick, x, y) && tick.Yields(r) && tick.previous == None && Shared(x, y).Some?
    requires Worth(x, tick.obs) >= 0.0
    requires Worth(x, tick.obs) > Worth(y, tick.obs)
          || (Worth(x, tick.obs) == Worth(y, tick.obs) && StringLess(y.id, x.id))
    ensures r.selectedIds == [x.id] && r.agenda == tick.NextAgenda([x])
  {
    PlainTotal(tick, x);
    PlainTotal(tick, y);
    var best := UnboundIsBest(tick, r);
    RivalWins(tick, x, y, best);
    LoneId(x.id);
    assert Ids([x]) == [x.id];
  }

  /** Of two clashing intents with equal claims, the one whose factors weigh more is selected
      alone: progress fourfold, urgency threefold, alignment twofold, confidence once, and
      risk threefold against it. */
  lemma RivalsAreWeighed(tick: Tick, x: Intent, y: Intent, r: Arbitration)
    requires Two(tick, x, y) && tick.Yields(r) && tick.previous == None && x.claim == y.claim
    requires Shared(x, y).Some?
    requires 4.0 * (x.progress - y.progress) + 3.0 * (x.urgency - y.urgency) + 2.0 * (x.alignment - y.alignment)
             + (x.confidence - y.confidence) - 3.0 * (x.risk - y.risk) > 0.0
    requires 4.0 * x.progress + 3.0 * x.urgency + 2.0 * x.alignment + x.confidence - 3.0 * x.risk
             > Scarcity(x.claim, tick.obs)
    ensures r.selectedIds == [x.id] && ReservesFor(r.agenda, x, tick.obs)
    ensures r.agenda.totalScore == Worth(x, tick.obs)
  {
    RivalAnswer(tick, x, y, r);
    LoneAgenda(tick, x);
    PlainTotal(tick, x);
  }

  /** Between intents that weigh the same, the larger identifier is selected. */
  lemma EqualRivals(tick: Tick, x: Intent, y: Intent, r: Arbitration)
    requires Two(tick, x, y) && tick.Yields(r) && tick.previous == None && Shared(x, y).Some?
    requires Worth(x, tick.obs) == Worth(y, tick.obs) >= 0.0 && StringLess(y.id, x.id)
    ensures r.selectedIds == [x.id] && ReservesFor(r.agenda, x, tick.obs)
  {
    RivalAnswer(tick, x, y, r);
    LoneAgenda(tick, x);
  }

  /** `y` was committed to by the last tick, until `until`, and `x` was not. */
  ghost predicate Committed(tick: Tick, x: Intent, y: Intent, until: nat) {
    && tick.previous.Some? && tick.previous.value.committedUntil == until
    && y.continuityKey in tick.previous.value.activeKeys && x.continuityKey !in tick.previous.value.activeKeys
  }

  lemma OnlyIsRetained(tick: Tick, x: Intent, y: Intent, until: nat)
    requires Two(tick, x, y) && Committed(tick, x, y, until)
    ensures tick.Retained() == [y]
  {
    BothAreConsidered(tick, x, y);
    EligibleMeaning(tick);
    RetainedIsSubsequence(tick.Eligible(), tick.previous);
    LoneIsSubsequence(y, tick.Eligible());
    SameMembersSameSubsequence(tick.Retained(), [y], tick.Eligible());
  }

  lemma CommitmentDecides(tick: Tick, x: Intent, y: Intent, until: nat, best: seq<Intent>)
    requires Two(tick, x, y) && Committed(tick, x, y, until) && (best == [x] || best == [y])
    ensures tick.Chosen(best) ==
      if best == [x] && tick.obs.gameLoop < until
         && tick.Scores().Of(x).total < tick.Scores().Of(y).total + tick.config.switchMargin
      then [y] else best
  {
    BothAreConsidered(tick, x, y);
    OnlyIsRetained(tick, x, y, until);
    LoneIsFeasible(tick, y);
    LoneSums(x, tick.Scores());
    LoneSums(y, tick.Scores());
  }

  lemma BestBehind(tick: Tick, r: Arbitration) returns (best: seq<Intent>)
    requires tick.Yields(r)
    ensures IsBest(best, tick.Eligible(), tick.obs, tick.Scores(), tick.Conflicts())
    ensures r.selectedIds == SortStrings(Ids(tick.Chosen(best)))
  {
    best :| IsBest(best, tick.Eligible(), tick.obs, tick.Scores(), tick.Conflicts()) && r == tick.Settle(best);
  }

  /** A newcomer against a commitment it clashes with: it must be worth more than 2 above it,
      and while the commitment runs, the switch margin above that. */
  lemma NewcomerIsWeighed(tick: Tick, x: Intent, y: Intent, until: nat, r: Arbitration)
    requires Two(tick, x, y) && Committed(tick, x, y, until) && tick.Yields(r) && Shared(x, y).Some?
    requires Worth(y, tick.obs) >= 0.0 && Worth(x, tick.obs) != Worth(y, tick.obs) + 2.0
    ensures var gain := Worth(x, tick.obs) - Worth(y, tick.obs);
      r.selectedIds ==
      if gain < 2.0 || (tick.obs.gameLoop < until && gain < 2.0 + tick.config.switchMargin)
      then [y.id] else [x.id]
  {
    var best := BestBehind(tick, r);
    NewcomerAnswer(tick, x, y, until, best);
    LoneIdOf(x);
    LoneIdOf(y);
  }

  lemma NewcomerAnswer(tick: Tick, x: Intent, y: Intent, until: nat, best: seq<Intent>)
    requires Two(tick, x, y) && Committed(tick, x, y, until) && Shared(x, y).Some?
    requires IsBest(best, tick.Eligible(), tick.obs, tick.Scores(), tick.Conflicts())
    requires Worth(y, tick.obs) >= 0.0 && Worth(x, tick.obs) != Worth(y, tick.obs) + 2.0
    ensures var gain := Worth(x, tick.obs) - Worth(y, tick.obs);
      tick.Chosen(best) ==
      if gain < 2.0 || (tick.obs.gameLoop < until && gain < 2.0 + tick.config.switchMargin) then [y] else [x]
  {
    OneRivalIsBest(tick, x, y, until, best);
    CommitmentDecides(tick, x, y, until, best);
    PlainTotal(tick, x);
    PlainTotal(tick, y);
  }

  lemma LoneIdOf(x: Intent)
    ensures SortStrings(Ids([x])) == [x.id]
  {
    LoneId(x.id);
    assert Ids([x]) == [x.id];
  }

  lemma OneRivalIsBest(tick: Tick, x: Intent, y: Intent, until: nat, best: seq<Intent>)
    requires Two(tick, x, y) && Committed(tick, x, y, until) && Shared(x, y).Some?
    requires IsBest(best, tick.Eligible(), tick.obs, tick.Scores(), tick.Conflicts())
    requires Worth(y, tick.obs) >= 0.0 && Worth(x, tick.obs) != Worth(y, tick.obs) + 2.0
    ensures best == if Worth(x, tick.obs) - Worth(y, tick.obs) < 2.0 then [y] else [x]
  {
    PlainTotal(tick, x);
    PlainTotal(tick, y);
    ClashMeaning(x, y);
    if Worth(x, tick.obs) - Worth(y, tick.obs) > 2.0 {
      RivalWins(tick, x, y, best);
    } else {
      RivalWins(tick, y, x, best);
    }
  }

  // ----- allies -------------------------------------------------------------------------

  lemma AlliedSums(x: Intent, y: Intent, tick: Tick)
    ensures SumClaims([x, y]).minerals == x.claim.minerals + y.claim.minerals
    ensures SumClaims([x, y]).vespene == x.claim.vespene + y.claim.vespene
    ensures SumClaims([x, y]).supply == x.claim.supply + y.claim.supply
    ensures x.claim.loops >= 1 ==>
      SumClaims([x, y]).loops == if x.claim.loops >= y.claim.loops then x.claim.loops else y.claim.loops
    ensures Emergencies([x, y]) == (if x.emergency then 1 else 0) + (if y.emergency then 1 else 0)
    ensures TotalScore([x, y], tick.Scores()) == tick.Scores().Of(x).total + tick.Scores().Of(y).total
    ensures tick.CommittedUntil([x, y]) ==
      tick.obs.gameLoop + if x.claim.loops >= y.claim.loops then x.claim.loops else y.claim.loops
  {
    assert [x, y][1..] == [y];
    LoneSums(y, tick.Scores());
    assert tick.CommittedUntil([y]) == tick.obs.gameLoop + y.claim.loops;
  }

  /** What can be afforded. */
  lemma AffordableMeaning(claim: ResourceClaim, obs: Observation)
    ensures Affordable(claim, obs) <==>
      && claim.minerals <= obs.minerals && claim.vespene <= obs.vespene
      && (claim.supply == 0 || obs.supplyUsed + claim.supply <= obs.supplyCap)
  {
  }

  lemma AlliesFeasible(tick: Tick, x: Intent, y: Intent, t: seq<Intent>)
    requires Two(tick, x, y) && Shared(x, y) == None && t == [x, y]
    ensures Coherent(t, tick.obs) <==> BothFit(x, y, tick.obs)
  {
    AlliedSums(x, y, tick);
    AffordableMeaning(SumClaims(t), tick.obs);
    ClashMeaning(x, y);
    ClashMeaning(y, x);
  }

  /** The claims of both fit into what is there. */
  ghost predicate BothFit(x: Intent, y: Intent, obs: Observation) {
    && x.claim.minerals + y.claim.minerals <= obs.minerals
    && x.claim.vespene + y.claim.vespene <= obs.vespene
    && (x.claim.supply + y.claim.supply == 0 || obs.supplyUsed + x.claim.supply + y.claim.supply <= obs.supplyCap)
  }

  ghost predicate ReservesForBoth(agenda: Agenda, x: Intent, y: Intent, obs: Observation) {
    && agenda.reserved.minerals == x.claim.minerals + y.claim.minerals
    && agenda.reserved.vespene == x.claim.vespene + y.claim.vespene
    && agenda.reserved.supply == x.claim.supply + y.claim.supply
    && agenda.reserved.loops == (if x.claim.loops >= y.claim.loops then x.claim.loops else y.claim.loops)
    && agenda.committedUntil == obs.gameLoop + agenda.reserved.loops
    && agenda.totalScore == Worth(x, obs) + Worth(y, obs)
    && multiset(agenda.activeIds) == multiset{x.id, y.id}
    && multiset(agenda.activeKeys) == multiset{x.continuityKey, y.continuityKey}
  }

  lemma AlliedAgenda(tick: Tick, x: Intent, y: Intent)
    requires Plain(x, tick) && Plain(y, tick) && tick.previous == None
    ensures ReservesForBoth(tick.NextAgenda([x, y]), x, y, tick.obs)
  {
    AlliedSums(x, y, tick);
    PlainTotal(tick, x);
    PlainTotal(tick, y);
    AlliedNames(x, y);
  }

  lemma AlliedNames(x: Intent, y: Intent)
    ensures multiset(SortStrings(Ids([x, y]))) == multiset{x.id, y.id}
    ensures multiset(SortStrings(Keys([x, y]))) == multiset{x.continuityKey, y.continuityKey}
  {
    assert Keys([x, y]) == [x.continuityKey, y.continuityKey] && Ids([x, y]) == [x.id, y.id];
    SortStringsPermutes(Keys([x, y]));
    SortStringsPermutes(Ids([x, y]));
  }

  lemma RankedPair(tick: Tick, x: Intent, y: Intent)
    requires Two(tick, x, y) && Outranks(x, y)
    ensures tick.Eligible() == [x, y]
  {
    BothAreConsidered(tick, x, y);
    AdmittedMeaning(tick);
    EligibleMeaning(tick);
    PairInOrder(tick.Eligible(), x, y);
  }

  lemma PairInOrder(s: seq<Intent>, x: Intent, y: Intent)
    requires StrictlyRanked(s) && UniqueIds(s) && x in s && y in s && x.id != y.id && Outranks(x, y)
    requires forall z :: z in s ==> z == x || z == y
    ensures s == [x, y]
  {
    StringTrichotomy(x.id, y.id);
    MembersCount(s);
    assert (set z | z in s) == {x, y};
  }

  /** Two intents that do not clash, each worth something, are selected together exactly when
      their claims fit together; the agenda then reserves for both. */
  lemma AlliesAreSelectedTogether(tick: Tick, x: Intent, y: Intent, r: Arbitration)
    requires Two(tick, x, y) && tick.Yields(r) && tick.previous == None && Shared(x, y) == None
    requires Worth(x, tick.obs) >= 0.0 && Worth(y, tick.obs) >= 0.0 && Outranks(x, y)
    ensures x.id in r.selectedIds && y.id in r.selectedIds <==> BothFit(x, y, tick.obs)
    ensures BothFit(x, y, tick.obs) ==> ReservesForBoth(r.agenda, x, y, tick.obs)
  {
    var best := UnboundIsBest(tick, r);
    RankedPair(tick, x, y);
    SelectedIds(tick, best);
    AlliesFeasible(tick, x, y, [x, y]);
    AlliedChoice(tick, x, y, best);
    if x in best && y in best {
      AlliedAgenda(tick, x, y);
    }
  }

  lemma AlliedChoice(tick: Tick, x: Intent, y: Intent, best: seq<Intent>)
    requires Two(tick, x, y) && tick.previous == None && Shared(x, y) == None
    requires IsBest(best, tick.Eligible(), tick.obs, tick.Scores(), tick.Conflicts())
    requires Worth(x, tick.obs) >= 0.0 && Worth(y, tick.obs) >= 0.0 && tick.Eligible() == [x, y]
    ensures x in best && y in best <==> Coherent([x, y], tick.obs)
    ensures x in best && y in best ==> best == [x, y]
  {
    PlainTotal(tick, x);
    PlainTotal(tick, y);
    BothAreConsidered(tick, x, y);
    PairSubsequences(x, y);
    EligibleFeasibleIsCoherent(tick, [x, y]);
    AlliedBest(tick, x, y, best);
  }

  lemma AlliedBest(tick: Tick, x: Intent, y: Intent, best: seq<Intent>)
    requires Two(tick, x, y) && tick.Eligible() == [x, y]
    requires IsBest(best, tick.Eligible(), tick.obs, tick.Scores(), tick.Conflicts())
    requires tick.Scores().Of(x).total >= 0.0 && tick.Scores().Of(y).total >= 0.0
    ensures Feasible([x, y], tick.obs, tick.Conflicts()) ==> best == [x, y]
    ensures best == [x, y] || best == [x] || best == [y] || best == []
  {
    PairSubsequences(x, y);
    AlliedSums(x, y, tick);
    LoneKey(x, tick.Scores());
    LoneKey(y, tick.Scores());
    if Feasible([x, y], tick.obs, tick.Conflicts()) {
      assert !KeyLess(KeyOf(best, tick.Scores()), KeyOf([x, y], tick.Scores()));
    }
  }

  // ----- the agenda ---------------------------------------------------------------------

  /** The agenda names the tick, lists the selection with its keys, and an empty selection
      reserves nothing. */
  lemma AgendaHeader(tick: Tick, r: Arbitration)
    requires tick.Check() == None && tick.Yields(r)
    ensures r.agenda.batch == tick.obs.batch && r.agenda.gameLoop == tick.obs.gameLoop
    ensures r.agenda.activeIds == r.selectedIds
    ensures forall key :: key in r.agenda.activeKeys <==>
                          exists x :: x in tick.intents && x.id in r.selectedIds && x.continuityKey == key
    ensures r.selectedIds == [] ==>
      && r.agenda.reserved == ResourceClaim(0, 0, 0, 1) && r.agenda.totalScore == 0.0
      && r.agenda.committedUntil == tick.obs.gameLoop
  {
    var selected := Published(tick, r);
    SelectedIds(tick, selected);
    forall key
      ensures key in r.agenda.activeKeys <==>
              exists x :: x in tick.intents && x.id in r.selectedIds && x.continuityKey == key
    {
      KeysMembers(selected, key);
    }
    if r.selectedIds == [] {
      assert selected == [] by {
        SortStringsPermutes(Ids(selected));
      }
      assert tick.NextAgenda([]).reserved == NO_CLAIM;
    }
  }
}
