/** The agenda adds up: it reserves and promises exactly what the decisions do, and no more
    than there is. */
module StrategicAccounts {
  import opened Counting
  import opened Ordering
  import opened Strategic
  import opened StrategicMeaning
  import opened StrategicReplay
  import opened StrategicRuns
  import opened StrategicTheorems

  /** What the decisions reserve between them; time is reserved once, for the longest. */
  function Reserving(decisions: seq<Decision>): ResourceClaim {
    if decisions == [] then ResourceClaim(0, 0, 0, 1)
    else
      var before, last := Reserving(decisions[..|decisions| - 1]), decisions[|decisions| - 1].reserved;
      ResourceClaim(before.minerals + last.minerals, before.vespene + last.vespene, before.supply + last.supply,
                    if before.loops >= last.loops then before.loops else last.loops)
  }

  /** What the selected decisions score between them. */
  function Earning(decisions: seq<Decision>): real {
    if decisions == [] then 0.0
    else
      var last := decisions[|decisions| - 1];
      Earning(decisions[..|decisions| - 1]) + if last.status == Selected then last.score.total else 0.0
  }

  // ----- sums do not depend on order ----------------------------------------------------

  /** One more claim on top of a sum. */
  function Plus(sum: ResourceClaim, claim: ResourceClaim): ResourceClaim {
    ResourceClaim(claim.minerals + sum.minerals, claim.vespene + sum.vespene, claim.supply + sum.supply,
                  NatMax(claim.loops, sum.loops))
  }

  lemma {:induction false} SumWithOne(left: seq<Intent>, x: Intent, right: seq<Intent>, scoring: Scoring)
    ensures SumClaims(left + [x] + right) == Plus(SumClaims(left + right), x.claim)
    ensures TotalScore(left + [x] + right, scoring) == scoring.Of(x).total + TotalScore(left + right, scoring)
  {
    if left == [] {
      assert left + [x] + right == [x] + right && left + right == right;
      assert ([x] + right)[1..] == right;
    } else {
      var tail := left[1..];
      SumWithOne(tail, x, right, scoring);
      SumFromFirst(left[0], tail + [x] + right, scoring);
      SumFromFirst(left[0], tail + right, scoring);
      assert left + [x] + right == [left[0]] + (tail + [x] + right) && left + right == [left[0]] + (tail + right);
    }
  }

  lemma SumFromFirst(first: Intent, rest: seq<Intent>, scoring: Scoring)
    ensures SumClaims([first] + rest) == Plus(SumClaims(rest), first.claim)
    ensures TotalScore([first] + rest, scoring) == scoring.Of(first).total + TotalScore(rest, scoring)
  {
    assert ([first] + rest)[1..] == rest;
  }

  lemma TakeOut(b: seq<Intent>, x: Intent) returns (left: seq<Intent>, right: seq<Intent>)
    requires x in b
    ensures b == left + [x] + right && multiset(left + right) == multiset(b) - multiset{x}
  {
    var i :| 0 <= i < |b| && b[i] == x;
    left, right := b[..i], b[i + 1..];
    assert b == left + [x] + right;
  }

  lemma {:induction false} SumPermutes(a: seq<Intent>, b: seq<Intent>, scoring: Scoring)
    requires multiset(a) == multiset(b)
    ensures SumClaims(a) == SumClaims(b) && TotalScore(a, scoring) == TotalScore(b, scoring)
    decreases |a|
  {
    SameMembers(a, b);
    if a != [] {
      var left, right := TakeOut(b, a[0]);
      TailMultiset(a);
      SumPermutes(a[1..], left + right, scoring);
      SumWithOne(left, a[0], right, scoring);
    }
  }

  lemma {:induction false} DistinctCounts(s: seq<Intent>, x: Intent)
    requires UniqueIds(s)
    ensures multiset(s)[x] == if x in s then 1 else 0
  {
    if s != [] {
      var n := |s| - 1;
      DistinctCounts(s[..n], x);
      assert s == s[..n] + [s[n]];
      assert s[n] !in s[..n];
    }
  }

  lemma SameDistinct(a: seq<Intent>, b: seq<Intent>)
    requires UniqueIds(a) && UniqueIds(b) && forall x :: x in a <==> x in b
    ensures multiset(a) == multiset(b)
  {
    forall x ensures multiset(a)[x] == multiset(b)[x] {
      DistinctCounts(a, x);
      DistinctCounts(b, x);
    }
  }

  lemma {:induction false} FilterKeepsIds(s: seq<Intent>, p: Intent -> bool)
    requires UniqueIds(s)
    ensures UniqueIds(Filter(s, p))
  {
    if s != [] {
      var n := |s| - 1;
      FilterKeepsIds(s[..n], p);
      FilterMembers(s[..n], p);
      forall x | x in Filter(s[..n], p) ensures x.id != s[n].id {
        var i :| 0 <= i < n && s[..n][i] == x;
        assert s[i].id != s[n].id;
      }
    }
  }

  // ----- the decisions of one answer ----------------------------------------------------

  function Among(selected: seq<Intent>): Intent -> bool {
    (x: Intent) => x.id in Ids(selected)
  }

  lemma OneDecisionMore(before: seq<Decision>, d: Decision)
    ensures var sum := Reserving(before);
      Reserving(before + [d]) ==
      ResourceClaim(sum.minerals + d.reserved.minerals, sum.vespene + d.reserved.vespene,
                    sum.supply + d.reserved.supply,
                    if sum.loops >= d.reserved.loops then sum.loops else d.reserved.loops)
    ensures Earning(before + [d]) == Earning(before) + if d.status == Selected then d.score.total else 0.0
  {
    assert (before + [d])[..|before|] == before;
  }

  lemma SumOneMore(init: seq<Intent>, last: Intent, scoring: Scoring)
    ensures SumClaims(init + [last]) == Plus(SumClaims(init), last.claim) && SumClaims(init).loops >= 1
    ensures TotalScore(init + [last], scoring) == scoring.Of(last).total + TotalScore(init, scoring)
  {
    assert init + [last] + [] == init + [last] && init + [] == init;
    SumWithOne(init, last, [], scoring);
    LoopsArePositive(init);
  }

  lemma StepAddsUp(before: seq<Decision>, d: Decision, kept: seq<Intent>, last: Intent, scoring: Scoring)
    requires Reserving(before) == SumClaims(kept) && Earning(before) == TotalScore(kept, scoring)
    requires d.reserved == (if d.status == Selected then last.claim else NO_CLAIM) && d.score == scoring.Of(last)
    ensures var more := if d.status == Selected then kept + [last] else kept;
      Reserving(before + [d]) == SumClaims(more) && Earning(before + [d]) == TotalScore(more, scoring)
  {
    OneDecisionMore(before, d);
    SumOneMore(kept, last, scoring);
  }

  lemma {:induction false} DecisionsAddUp(tick: Tick, s: seq<Intent>, selected: seq<Intent>)
    ensures Reserving(tick.DecisionsFor(s, selected)) == SumClaims(Filter(s, Among(selected)))
    ensures Earning(tick.DecisionsFor(s, selected)) == TotalScore(Filter(s, Among(selected)), tick.Scores())
  {
    if s != [] {
      var init, last := s[..|s| - 1], s[|s| - 1];
      var before, d := tick.DecisionsFor(init, selected), tick.Decide(last, selected);
      DecisionsAddUp(tick, init, selected);
      StepAddsUp(before, d, Filter(init, Among(selected)), last, tick.Scores());
      assert d.status == Selected <==> Among(selected)(last);
    }
  }

  lemma {:induction false} LoopsArePositive(s: seq<Intent>)
    ensures SumClaims(s).loops >= 1
  {
    if s != [] {
      LoopsArePositive(s[1..]);
    }
  }

  lemma SelectedOnce(tick: Tick, selected: seq<Intent>)
    requires tick.Check() == None && Subsequence(selected, tick.Eligible())
    ensures multiset(Filter(tick.intents, Among(selected))) == multiset(selected)
  {
    EligibleMeaning(tick);
    SubsequenceFacts(selected, tick.Eligible());
    FilterKeepsIds(tick.intents, Among(selected));
    FilterMembers(tick.intents, Among(selected));
    SelectedIds(tick, selected);
    SortStringsPermutes(Ids(selected));
    SameMembers(SortStrings(Ids(selected)), Ids(selected));
    SameDistinct(Filter(tick.intents, Among(selected)), selected);
  }

  /** The agenda reserves what the decisions reserve, which is there to be spent, and scores
      what the selected ones score. */
  lemma AgendaAddsUp(tick: Tick, r: Arbitration)
    requires tick.Check() == None && tick.Yields(r)
    ensures r.agenda.reserved == Reserving(r.decisions) && r.agenda.totalScore == Earning(r.decisions)
    ensures var sum := Reserving(r.decisions);
      && sum.minerals <= tick.obs.minerals && sum.vespene <= tick.obs.vespene
      && (sum.supply == 0 || tick.obs.supplyUsed + sum.supply <= tick.obs.supplyCap)
  {
    var selected := Published(tick, r);
    SelectedOnce(tick, selected);
    SumPermutes(Filter(tick.intents, Among(selected)), selected, tick.Scores());
    DecisionsAddUp(tick, tick.intents, selected);
    AffordableMeaning(SumClaims(selected), tick.obs);
  }
}
