/** What the arbiter's answer means: exhaustive optimality, independence of listing order,
    bounded loss under the commitment override, conservation, and behaviour over runs. */
module StrategicTheorems {
  import opened Ordering
  import opened Strategic

  // ----- subsequences -------------------------------------------------------------------

  lemma {:induction false} SubsequenceFacts(t: seq<Intent>, s: seq<Intent>)
    requires Subsequence(t, s) && UniqueIds(s)
    ensures UniqueIds(t)
    ensures forall x :: x in t ==> x in s
  {
    if t != [] {
      assert UniqueIds(s[1..]);
      if t[0] == s[0] && Subsequence(t[1..], s[1..]) {
        SubsequenceFacts(t[1..], s[1..]);
        forall i | 1 <= i < |t| ensures t[i].id != t[0].id {
          assert t[i] == t[1..][i - 1] && t[i] in s[1..];
        }
        forall i, j | 1 <= i < j < |t| ensures t[i].id != t[j].id {
          assert t[i] == t[1..][i - 1] && t[j] == t[1..][j - 1];
        }
        assert t == [t[0]] + t[1..];
      } else {
        SubsequenceFacts(t, s[1..]);
      }
    }
  }

  lemma {:induction false} SubsequenceSkip(t: seq<Intent>, s: seq<Intent>, x: Intent)
    requires Subsequence(t, s)
    ensures Subsequence(t, s + [x])
  {
    if t != [] {
      assert (s + [x])[1..] == s[1..] + [x];
      if t[0] == s[0] && Subsequence(t[1..], s[1..]) {
        SubsequenceSkip(t[1..], s[1..], x);
      } else {
        SubsequenceSkip(t, s[1..], x);
      }
    }
  }

  lemma {:induction false} SubsequenceTake(t: seq<Intent>, s: seq<Intent>, x: Intent)
    requires Subsequence(t, s)
    ensures Subsequence(t + [x], s + [x])
  {
    if s == [] {
      assert (t + [x])[1..] == [] && (s + [x])[1..] == [];
    } else {
      assert (s + [x])[1..] == s[1..] + [x];
      if t == [] {
        SubsequenceTake(t, s[1..], x);
      } else if t[0] == s[0] && Subsequence(t[1..], s[1..]) {
        assert (t + [x])[1..] == t[1..] + [x];
        SubsequenceTake(t[1..], s[1..], x);
      } else {
        SubsequenceTake(t, s[1..], x);
      }
    }
  }

  lemma {:induction false} PrefixIsSubsequence(s: seq<Intent>, k: nat)
    requires k <= |s|
    ensures Subsequence(s[..k], s)
  {
    if k > 0 {
      PrefixIsSubsequence(s[1..], k - 1);
      assert s[..k][1..] == s[1..][..k - 1];
    }
  }

  lemma {:induction false} SubsequenceTransitive(a: seq<Intent>, b: seq<Intent>, c: seq<Intent>)
    requires Subsequence(a, b) && Subsequence(b, c)
    ensures Subsequence(a, c)
    decreases |c|
  {
    if a != [] {
      if b[0] == c[0] && Subsequence(b[1..], c[1..]) {
        if a[0] == b[0] && Subsequence(a[1..], b[1..]) {
          SubsequenceTransitive(a[1..], b[1..], c[1..]);
        } else {
          SubsequenceTransitive(a, b[1..], c[1..]);
        }
      } else {
        SubsequenceTransitive(a, b, c[1..]);
      }
    }
  }

  lemma {:induction false} SameMembersSameSubsequence(a: seq<Intent>, b: seq<Intent>, s: seq<Intent>)
    requires Subsequence(a, s) && Subsequence(b, s) && UniqueIds(s)
    requires forall x :: x in a <==> x in b
    ensures a == b
  {
    if s == [] {
    } else {
      SplitHead(a, s);
      SplitHead(b, s);
      var a', b' := DropHead(a, s), DropHead(b, s);
      forall x ensures x in a' <==> x in b' {
        HeadOnce(a, s, x);
        HeadOnce(b, s, x);
      }
      SameMembersSameSubsequence(a', b', s[1..]);
      assert s[0] in a <==> s[0] in b;
    }
  }

  function DropHead(t: seq<Intent>, s: seq<Intent>): seq<Intent>
    requires s != []
  {
    if t != [] && t[0] == s[0] then t[1..] else t
  }

  lemma SplitHead(t: seq<Intent>, s: seq<Intent>)
    requires Subsequence(t, s) && UniqueIds(s) && s != []
    ensures Subsequence(DropHead(t, s), s[1..]) && UniqueIds(s[1..])
    ensures s[0] in t <==> t != [] && t[0] == s[0]
    ensures s[0] !in DropHead(t, s)
  {
    assert UniqueIds(s[1..]);
    assert s[0] !in s[1..];
    if t != [] && !(t[0] == s[0] && Subsequence(t[1..], s[1..])) {
      SubsequenceFacts(t, s[1..]);
    } else if t != [] {
      SubsequenceFacts(t[1..], s[1..]);
    }
  }

  lemma HeadOnce(t: seq<Intent>, s: seq<Intent>, x: Intent)
    requires Subsequence(t, s) && UniqueIds(s) && s != []
    ensures x in DropHead(t, s) <==> x in t && x != s[0]
  {
    SplitHead(t, s);
    if t != [] {
      assert t == [t[0]] + t[1..];
    }
  }

  // ----- eligibility --------------------------------------------------------------------

  lemma {:induction false} AdmittedIsSubsequence(s: seq<Intent>, obs: Observation)
    ensures Subsequence(AdmittedFrom(s, obs), s)
    ensures forall x :: x in AdmittedFrom(s, obs) <==> x in s && Rejection(x, obs) == None
  {
    if s != [] {
      var init, x := s[..|s| - 1], s[|s| - 1];
      var kept := AdmittedFrom(init, obs);
      AdmittedIsSubsequence(init, obs);
      assert s == init + [x] && kept + [] == kept;
      SubsequenceSkip(kept, init, x);
      SubsequenceTake(kept, init, x);
    }
  }

  lemma {:induction false} RetainedIsSubsequence(s: seq<Intent>, previous: Option<Agenda>)
    ensures Subsequence(RetainedFrom(s, previous), s)
    ensures forall x :: x in RetainedFrom(s, previous) <==> x in s && WasActive(x, previous)
  {
    if s != [] {
      var init, x := s[..|s| - 1], s[|s| - 1];
      var kept := RetainedFrom(init, previous);
      RetainedIsSubsequence(init, previous);
      assert s == init + [x] && kept + [] == kept;
      SubsequenceSkip(kept, init, x);
      SubsequenceTake(kept, init, x);
    }
  }

  /** The eligible list: at most `maxIntents` unrejected intents of the batch, and every
      unrejected intent left out ranks below every one let in. */
  lemma EligibleMeaning(tick: Tick)
    requires tick.Check() == None
    ensures var eligible := tick.Eligible();
      && UniqueIds(eligible) && |eligible| <= tick.config.maxIntents
      && (forall x :: x in eligible ==> x in tick.intents && Rejection(x, tick.obs) == None)
      && (forall x, y :: x in tick.intents && Rejection(x, tick.obs) == None && x !in eligible && y in eligible
            ==> Before(y, x) && |eligible| == tick.config.maxIntents)
      && (forall x :: x in tick.intents && Rejection(x, tick.obs) == None && tick.config.maxIntents >= |tick.intents|
            ==> x in eligible)
  {
    RankedIsPermutation(tick.intents);
    var ranked, admitted, eligible := tick.Ranked(), tick.Admitted(), tick.Eligible();
    SameMembers(ranked, tick.intents);
    AdmittedIsSubsequence(ranked, tick.obs);
    SubsequenceFacts(admitted, ranked);
    SubsequenceIsShorter(admitted, ranked);
    PrefixIsSubsequence(admitted, |eligible|);
    assert eligible == admitted[..|eligible|];
    SubsequenceFacts(eligible, admitted);
    RankedStrictly(tick.intents);
    forall x, y | x in admitted && x !in eligible && y in eligible
      ensures Before(y, x)
    {
      var i :| 0 <= i < |admitted| && admitted[i] == x;
      var j :| 0 <= j < |eligible| && eligible[j] == y;
      assert i >= |eligible|;
      SubsequenceKeepsOrder(admitted, ranked, j, i);
    }
  }

  ghost predicate StrictlyRanked(s: seq<Intent>) {
    forall i, j :: 0 <= i < j < |s| ==> Before(s[i], s[j])
  }

  lemma RankedStrictly(intents: seq<Intent>)
    requires UniqueIds(intents)
    ensures StrictlyRanked(Ranking(intents))
  {
    var s := Ranking(intents);
    RankedIsPermutation(intents);
    BeforeIsKeyOrder();
    SortSorts(intents, (a, b) => Before(a, b));
    forall i, j | 0 <= i < j < |s| ensures Before(s[i], s[j]) {
      StringTrichotomy(s[i].id, s[j].id);
      assert !Before(s[j], s[i]);
    }
  }

  lemma {:induction false} SubsequenceKeepsOrder(t: seq<Intent>, s: seq<Intent>, i: nat, j: nat)
    requires Subsequence(t, s) && StrictlyRanked(s) && i < j < |t|
    ensures Before(t[i], t[j])
  {
    if t[0] == s[0] && Subsequence(t[1..], s[1..]) {
      if i > 0 {
        SubsequenceKeepsOrder(t[1..], s[1..], i - 1, j - 1);
      } else {
        SubsequenceIsShorter(t[1..], s[1..]);
        assert t[j] == t[1..][j - 1] && t[j] in s[1..];
        var k :| 0 <= k < |s[1..]| && s[1..][k] == t[j];
        assert s[k + 1] == t[j];
      }
    } else {
      SubsequenceKeepsOrder(t, s[1..], i, j);
    }
  }

  // ----- what the conflict list means ---------------------------------------------------

  lemma ClashIsSymmetric(a: Intent, b: Intent)
    requires a.id != b.id
    ensures PairConflict(a, b) == PairConflict(b, a)
    ensures Clash(a, b) == Clash(b, a)
  {
    StringTrichotomy(a.id, b.id);
    assert ClashKind(a, b) == ClashKind(b, a);
  }

  lemma {:induction false} ConflictsWithMembers(left: Intent, rest: seq<Intent>, c: Conflict)
    ensures c in ConflictsWith(left, rest) <==>
            exists q :: 0 <= q < |rest| && PairConflict(left, rest[q]) == [c]
  {
    if rest != [] {
      var n := |rest| - 1;
      ConflictsWithMembers(left, rest[..n], c);
      if c in ConflictsWith(left, rest) && c !in ConflictsWith(left, rest[..n]) {
        assert PairConflict(left, rest[n]) == [c];
      }
      if q :| 0 <= q < |rest| && PairConflict(left, rest[q]) == [c] {
        if q < n {
          assert rest[..n][q] == rest[q];
        }
      }
    }
  }

  lemma {:induction false} ConflictsFromMembers(intents: seq<Intent>, i: nat, c: Conflict)
    requires i <= |intents|
    ensures c in ConflictsFrom(intents, i) <==>
            exists p, q :: i <= p < q < |intents| && PairConflict(intents[p], intents[q]) == [c]
    decreases |intents| - i
  {
    if i < |intents| {
      ConflictsWithMembers(intents[i], intents[i + 1..], c);
      ConflictsFromMembers(intents, i + 1, c);
      if c in ConflictsWith(intents[i], intents[i + 1..]) {
        var q :| 0 <= q < |intents[i + 1..]| && PairConflict(intents[i], intents[i + 1..][q]) == [c];
        assert intents[i + 1..][q] == intents[i + 1 + q];
      }
      if p, q :| i <= p < q < |intents| && PairConflict(intents[p], intents[q]) == [c] {
        if p == i {
          assert intents[i + 1..][q - i - 1] == intents[q];
        }
      }
    }
  }

  /** A conflict is reported exactly for a pair of distinct intents that clash. */
  lemma ConflictMeaning(intents: seq<Intent>, c: Conflict)
    requires UniqueIds(intents)
    ensures c in ConflictsOf(intents) <==>
            exists a, b :: a in intents && b in intents && a != b && PairConflict(a, b) == [c]
  {
    ConflictsFromMembers(intents, 0, c);
    if a, b :| a in intents && b in intents && a != b && PairConflict(a, b) == [c] {
      var p :| 0 <= p < |intents| && intents[p] == a;
      var q :| 0 <= q < |intents| && intents[q] == b;
      ClashIsSymmetric(a, b);
      if p < q {
        assert PairConflict(intents[p], intents[q]) == [c];
      } else {
        assert PairConflict(intents[q], intents[p]) == [c];
      }
    }
    if p, q :| 0 <= p < q < |intents| && PairConflict(intents[p], intents[q]) == [c] {
      assert intents[p] in intents && intents[q] in intents && intents[p] != intents[q];
    }
  }

  /** Feasibility without the conflict list: no two members clash, every dependency is
      met by a member, and the summed claims fit minerals, vespene and free supply. */
  ghost predicate Coherent(subset: seq<Intent>, obs: Observation) {
    && (forall a, b :: a in subset && b in subset && a != b ==> !Clash(a, b))
    && (forall a, d :: a in subset && d in a.dependencies ==> exists b :: b in subset && b.id == d)
    && Affordable(SumClaims(subset), obs)
  }

  lemma FeasibleMeaning(subset: seq<Intent>, obs: Observation, intents: seq<Intent>)
    requires UniqueIds(intents) && forall x :: x in subset ==> x in intents
    ensures Feasible(subset, obs, ConflictsOf(intents)) <==> Coherent(subset, obs)
  {
    forall a, b | a in subset && b in subset && a != b
      ensures Clash(a, b) <==> exists c :: c in ConflictsOf(intents) && PairConflict(a, b) == [c]
    {
      if Clash(a, b) {
        var c := MakeConflict(ClashKind(a, b).value, a, b);
        assert PairConflict(a, b) == [c];
        ConflictMeaning(intents, c);
      }
    }
    forall d ensures d in Ids(subset) <==> exists b :: b in subset && b.id == d {
      if d in Ids(subset) {
        var k :| 0 <= k < |subset| && Ids(subset)[k] == d;
        assert subset[k] in subset;
      }
    }
    ConflictFreeMeaning(subset, intents);
  }

  /** No reported conflict lies inside `subset` exactly when no two members clash. */
  lemma ConflictFreeMeaning(subset: seq<Intent>, intents: seq<Intent>)
    requires UniqueIds(intents) && forall x :: x in subset ==> x in intents
    ensures (forall c :: c in ConflictsOf(intents) ==> !(c.low in Ids(subset) && c.high in Ids(subset)))
       <==> (forall a, b :: a in subset && b in subset && a != b ==> !Clash(a, b))
  {
    if a, b :| a in subset && b in subset && a != b && Clash(a, b) {
      var c := MakeConflict(ClashKind(a, b).value, a, b);
      assert PairConflict(a, b) == [c];
      ConflictMeaning(intents, c);
    }
    if c :| c in ConflictsOf(intents) && c.low in Ids(subset) && c.high in Ids(subset) {
      ConflictMeaning(intents, c);
      var a, b :| a in intents && b in intents && a != b && PairConflict(a, b) == [c];
      IdIdentifies(subset, intents, a);
      IdIdentifies(subset, intents, b);
      assert Clash(a, b);
    }
  }

  lemma IdIdentifies(subset: seq<Intent>, intents: seq<Intent>, a: Intent)
    requires UniqueIds(intents) && a in intents && forall x :: x in subset ==> x in intents
    ensures a.id in Ids(subset) <==> a in subset
  {
    if a.id in Ids(subset) {
      var k :| 0 <= k < |subset| && Ids(subset)[k] == a.id;
      assert subset[k] in intents;
      var p :| 0 <= p < |intents| && intents[p] == subset[k];
      var q :| 0 <= q < |intents| && intents[q] == a;
      assert p == q;
    }
  }

  // ----- the optimum is unique ----------------------------------------------------------

  lemma BestIsUnique(a: seq<Intent>, b: seq<Intent>, eligible: seq<Intent>, obs: Observation,
                     scoring: Scoring, conflicts: seq<Conflict>)
    requires UniqueIds(eligible)
    requires IsBest(a, eligible, obs, scoring, conflicts)
    requires IsBest(b, eligible, obs, scoring, conflicts)
    ensures a == b
  {
    TupleTrichotomy(KeyOf(a, scoring).ids, KeyOf(b, scoring).ids);
    SortStringsPermutes(Ids(a));
    SortStringsPermutes(Ids(b));
    SameMembers(Ids(a), Ids(b));
    SubsequenceFacts(a, eligible);
    SubsequenceFacts(b, eligible);
    forall x | x in eligible ensures x in a <==> x in b {
      IdIdentifies(a, eligible, x);
      IdIdentifies(b, eligible, x);
    }
    SameMembersSameSubsequence(a, b, eligible);
  }

  // ----- the answer does not depend on how the batch was listed -------------------------

  ghost predicate SameBatch(t: Tick, u: Tick) {
    && multiset(t.intents) == multiset(u.intents)
    && t.obs == u.obs && t.previous == u.previous && t.advice == u.advice && t.config == u.config
  }

  lemma SameBatchSameEligible(t: Tick, u: Tick)
    requires SameBatch(t, u) && t.Check() == None
    ensures t.Eligible() == u.Eligible() && t.Retained() == u.Retained()
    ensures UniqueIds(u.intents)
  {
    UniqueIdsArePermutable(t.intents, u.intents);
    BeforeIsKeyOrder();
    forall a, b | a in t.intents && b in t.intents && a != b ensures Before(a, b) || Before(b, a) {
      StringTrichotomy(a.id, b.id);
      var p :| 0 <= p < |t.intents| && t.intents[p] == a;
      var q :| 0 <= q < |t.intents| && t.intents[q] == b;
    }
    SortForgetsOrder(t.intents, u.intents, (a, b) => Before(a, b));
  }

  lemma SameBatchSameFeasible(subset: seq<Intent>, t: Tick, u: Tick)
    requires SameBatch(t, u) && UniqueIds(t.intents) && UniqueIds(u.intents)
    requires forall x :: x in subset ==> x in t.intents
    ensures Feasible(subset, t.obs, t.Conflicts()) == Feasible(subset, u.obs, u.Conflicts())
  {
    SameMembers(t.intents, u.intents);
    FeasibleMeaning(subset, t.obs, t.intents);
    FeasibleMeaning(subset, u.obs, u.intents);
  }

  lemma SameBatchSameChoice(t: Tick, u: Tick, a: seq<Intent>, b: seq<Intent>)
    requires SameBatch(t, u) && t.Check() == None && u.Check() == None
    requires IsBest(a, t.Eligible(), t.obs, t.Scores(), t.Conflicts())
    requires IsBest(b, u.Eligible(), u.obs, u.Scores(), u.Conflicts())
    ensures a == b && t.Chosen(a) == u.Chosen(b)
  {
    SameBatchSameEligible(t, u);
    EligibleMeaning(t);
    var eligible := t.Eligible();
    forall s | Subsequence(s, eligible)
      ensures Feasible(s, t.obs, t.Conflicts()) == Feasible(s, u.obs, u.Conflicts())
    {
      SubsequenceFacts(s, eligible);
      SameBatchSameFeasible(s, t, u);
    }
    assert IsBest(b, eligible, t.obs, t.Scores(), t.Conflicts());
    BestIsUnique(a, b, eligible, t.obs, t.Scores(), t.Conflicts());
    RetainedIsSubsequence(eligible, t.previous);
  }

  ghost predicate SameUpToConflictOrder(d: Decision, e: Decision) {
    && d.(conflicts := []) == e.(conflicts := [])
    && forall c :: c in d.conflicts <==> c in e.conflicts
  }

  /** Permuting the batch changes neither the selection nor the agenda, and every intent
      gets the same verdict with the same conflicts. */
  lemma ListingOrderIsIrrelevant(t: Tick, u: Tick, r: Arbitration, q: Arbitration)
    requires SameBatch(t, u) && t.Check() == None && u.Check() == None
    requires t.Yields(r) && u.Yields(q)
    ensures r.selectedIds == q.selectedIds && r.agenda == q.agenda
    ensures forall d, e :: d in r.decisions && e in q.decisions && d.id == e.id ==> SameUpToConflictOrder(d, e)
  {
    var a :| IsBest(a, t.Eligible(), t.obs, t.Scores(), t.Conflicts()) && r == t.Settle(a);
    var b :| IsBest(b, u.Eligible(), u.obs, u.Scores(), u.Conflicts()) && q == u.Settle(b);
    SameBatchSameChoice(t, u, a, b);
    SameBatchSameAgenda(t, u, t.Chosen(a));
    SameBatchSameVerdicts(t, u, t.Chosen(a));
  }

  lemma SameBatchSameAgenda(t: Tick, u: Tick, selected: seq<Intent>)
    requires SameBatch(t, u)
    ensures t.NextAgenda(selected) == u.NextAgenda(selected)
  {
    SameBatchSameDeadline(t, u, selected);
  }

  lemma {:induction false} SameBatchSameDeadline(t: Tick, u: Tick, selected: seq<Intent>)
    requires t.obs == u.obs
    ensures t.CommittedUntil(selected) == u.CommittedUntil(selected)
  {
    if |selected| > 1 {
      SameBatchSameDeadline(t, u, selected[1..]);
    }
  }

  lemma SameBatchSameVerdicts(t: Tick, u: Tick, selected: seq<Intent>)
    requires SameBatch(t, u) && t.Check() == None && u.Check() == None
    ensures forall d, e :: d in t.Decisions(selected) && e in u.Decisions(selected) && d.id == e.id ==>
      SameUpToConflictOrder(d, e)
  {
    SameMembers(t.intents, u.intents);
    forall d, e | d in t.Decisions(selected) && e in u.Decisions(selected) && d.id == e.id
      ensures SameUpToConflictOrder(d, e)
    {
      var x := DecisionSource(t, selected, d);
      var y := DecisionSource(u, selected, e);
      SameIntent(t.intents, x, y);
      SameVerdict(t, u, x, selected);
    }
  }

  lemma DecisionSource(tick: Tick, selected: seq<Intent>, d: Decision) returns (x: Intent)
    requires d in tick.Decisions(selected)
    ensures x in tick.intents && d == tick.Decide(x, selected) && d.id == x.id
  {
    var k :| 0 <= k < |tick.Decisions(selected)| && tick.Decisions(selected)[k] == d;
    DecisionsMeaning(tick, tick.intents, selected);
    x := tick.intents[k];
  }

  lemma SameVerdict(t: Tick, u: Tick, x: Intent, selected: seq<Intent>)
    requires SameBatch(t, u) && UniqueIds(t.intents) && UniqueIds(u.intents)
    ensures SameUpToConflictOrder(t.Decide(x, selected), u.Decide(x, selected))
  {
    SameMembers(t.intents, u.intents);
    forall c ensures c in ConflictsAbout(x.id, t.Conflicts()) <==> c in ConflictsAbout(x.id, u.Conflicts()) {
      ConflictsAboutMembers(x.id, t.Conflicts(), c);
      ConflictsAboutMembers(x.id, u.Conflicts(), c);
      ConflictMeaning(t.intents, c);
      ConflictMeaning(u.intents, c);
    }
  }

  lemma SameIntent(intents: seq<Intent>, a: Intent, b: Intent)
    requires UniqueIds(intents) && a in intents && b in intents && a.id == b.id
    ensures a == b
  {
  }

  lemma {:induction false} DecisionsMeaning(tick: Tick, s: seq<Intent>, selected: seq<Intent>)
    ensures forall i :: 0 <= i < |s| ==> tick.DecisionsFor(s, selected)[i] == tick.Decide(s[i], selected)
  {
    if s != [] {
      DecisionsMeaning(tick, s[..|s| - 1], selected);
    }
  }

  lemma {:induction false} ConflictsAboutMembers(id: string, conflicts: seq<Conflict>, c: Conflict)
    ensures c in ConflictsAbout(id, conflicts) <==> c in conflicts && (c.low == id || c.high == id)
  {
    if conflicts != [] {
      ConflictsAboutMembers(id, conflicts[..|conflicts| - 1], c);
      assert conflicts == conflicts[..|conflicts| - 1] + [conflicts[|conflicts| - 1]];
    }
  }

  // ----- what a score can be ------------------------------------------------------------

  lemma ShareBounds(claim: nat, available: int)
    ensures var share := claim as real / AtLeastOne(available) as real;
      share >= 0.0 && (share >= 1.0 <==> claim >= AtLeastOne(available))
  {
    var d := AtLeastOne(available) as real;
    var share := claim as real / d;
    assert share * d == claim as real;
  }

  /** Pressure is a fraction, and it saturates exactly when one claim takes all there is. */
  lemma PressureMeaning(claim: ResourceClaim, obs: Observation)
    ensures 0.0 <= ResourcePressure(claim, obs) <= 1.0
    ensures ResourcePressure(claim, obs) == 1.0 <==>
      || claim.minerals >= AtLeastOne(obs.minerals)
      || claim.vespene >= AtLeastOne(obs.vespene)
      || claim.supply >= AtLeastOne(obs.supplyCap - obs.supplyUsed)
  {
    ShareBounds(claim.minerals, obs.minerals);
    ShareBounds(claim.vespene, obs.vespene);
    ShareBounds(claim.supply, obs.supplyCap - obs.supplyUsed);
  }

  predicate Fraction(x: real) { 0.0 <= x <= 1.0 }

  /** Without playbook advice every score lies between -6 and 10; the top needs no risk, no
      pressure and no switch, and an emergency's score never depends on the commitments. */
  lemma ScoreRange(x: Intent, obs: Observation, previous: Option<Agenda>)
    requires Fraction(x.urgency) && Fraction(x.alignment) && Fraction(x.confidence)
    requires Fraction(x.progress) && Fraction(x.risk)
    ensures -6.0 <= ScoreOf(x, obs, previous, 0.0).total <= 10.0
    ensures ScoreOf(x, obs, previous, 0.0).total == 10.0 <==>
      && x.urgency == x.alignment == x.confidence == x.progress == 1.0 && x.risk == 0.0
      && ResourcePressure(x.claim, obs) == 0.0 && SwitchPenalty(x, previous) == 0.0
    ensures x.emergency ==> ScoreOf(x, obs, previous, 0.0) == ScoreOf(x, obs, None, 0.0)
  {
    PressureMeaning(x.claim, obs);
  }

  // ----- bounded loss, and why a commitment is dropped ----------------------------------

  lemma {:induction false} FewerEmergencies(t: seq<Intent>, s: seq<Intent>, all: seq<Intent>)
    requires UniqueIds(all) && Subsequence(t, all) && Subsequence(s, all)
    requires forall x :: x in t && x.emergency ==> x in s
    ensures Emergencies(t) <= Emergencies(s)
  {
    if all != [] {
      SplitHead(t, all);
      SplitHead(s, all);
      forall x | x in DropHead(t, all) && x.emergency ensures x in DropHead(s, all) {
        HeadOnce(t, all, x);
        HeadOnce(s, all, x);
      }
      FewerEmergencies(DropHead(t, all), DropHead(s, all), all[1..]);
    }
  }

  lemma EligibleFeasibleIsCoherent(tick: Tick, t: seq<Intent>)
    requires tick.Check() == None && Subsequence(t, tick.Eligible())
    ensures Feasible(t, tick.obs, tick.Conflicts()) <==> Coherent(t, tick.obs)
  {
    EligibleMeaning(tick);
    SubsequenceFacts(t, tick.Eligible());
    FeasibleMeaning(t, tick.obs, tick.intents);
  }

  /** `t` neither serves more emergencies than `selected` nor, serving as many, beats its
      score by the margin (without a margin: beats it at all). */
  ghost predicate NotClearlyBetter(t: seq<Intent>, selected: seq<Intent>, scoring: Scoring, margin: real) {
    && Emergencies(t) <= Emergencies(selected)
    && (Emergencies(t) == Emergencies(selected) ==>
          || TotalScore(t, scoring) <= TotalScore(selected, scoring)
          || TotalScore(t, scoring) < TotalScore(selected, scoring) + margin)
  }

  lemma ChosenIsFeasible(tick: Tick, best: seq<Intent>)
    requires tick.Check() == None
    requires IsBest(best, tick.Eligible(), tick.obs, tick.Scores(), tick.Conflicts())
    ensures Subsequence(tick.Chosen(best), tick.Eligible())
    ensures Feasible(tick.Chosen(best), tick.obs, tick.Conflicts())
    ensures Emergencies(tick.Chosen(best)) == Emergencies(best)
  {
    EligibleMeaning(tick);
    RetainedIsSubsequence(tick.Eligible(), tick.previous);
    if tick.KeepsCommitment(best) {
      FewerEmergencies(best, tick.Retained(), tick.Eligible());
      assert !KeyLess(KeyOf(best, tick.Scores()), KeyOf(tick.Retained(), tick.Scores()));
    }
  }

  /** Whatever is selected is feasible, serves as many emergencies as any feasible choice
      could, and scores the optimum or strictly less than `switchMargin` below it. */
  lemma SelectionIsNearOptimal(tick: Tick, best: seq<Intent>, t: seq<Intent>)
    requires tick.Check() == None
    requires IsBest(best, tick.Eligible(), tick.obs, tick.Scores(), tick.Conflicts())
    requires Subsequence(t, tick.Eligible()) && Coherent(t, tick.obs)
    ensures Coherent(tick.Chosen(best), tick.obs)
    ensures NotClearlyBetter(t, tick.Chosen(best), tick.Scores(), tick.config.switchMargin)
  {
    ChosenIsFeasible(tick, best);
    EligibleFeasibleIsCoherent(tick, tick.Chosen(best));
    EligibleFeasibleIsCoherent(tick, t);
    assert !KeyLess(KeyOf(best, tick.Scores()), KeyOf(t, tick.Scores()));
  }
}
