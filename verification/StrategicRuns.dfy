/** The arbiter over whole runs: each tick's agenda is the next tick's commitment. */
module StrategicRuns {
  import opened Ordering
  import opened Strategic
  import opened StrategicTheorems

  // ----- every intent is accounted for --------------------------------------------------

  /** One decision per intent in batch order; SELECTED exactly for the published
      selection; the rest carry the verdict their own state calls for. */
  lemma DecisionsConserve(tick: Tick, best: seq<Intent>)
    requires tick.Check() == None
    requires IsBest(best, tick.Eligible(), tick.obs, tick.Scores(), tick.Conflicts())
    ensures var r := tick.Settle(best);
      && |r.decisions| == |tick.intents|
      && (forall i :: 0 <= i < |r.decisions| ==> r.decisions[i].id == tick.intents[i].id)
      && (forall i, j :: 0 <= i < j < |r.decisions| ==> r.decisions[i].id != r.decisions[j].id)
      && (forall id :: id in r.selectedIds <==> exists d :: d in r.decisions && d.id == id && d.status == Selected)
      && (forall i :: 0 <= i < |r.decisions| ==>
            && (r.decisions[i].status == Rejected <==> Rejection(tick.intents[i], tick.obs).Some?)
            && (r.decisions[i].status == Preempted ==>
                  && WasActive(tick.intents[i], tick.previous)
                  && exists e :: e in tick.Chosen(best) && e.emergency && e != tick.intents[i]))
  {
    var selected := tick.Chosen(best);
    var r := tick.Settle(best);
    ChosenIsFeasible(tick, best);
    EligibleMeaning(tick);
    SubsequenceFacts(selected, tick.Eligible());
    DecisionsMeaning(tick, tick.intents, selected);
    SortStringsPermutes(Ids(selected));
    SameMembers(r.selectedIds, Ids(selected));
    forall i | 0 <= i < |r.decisions|
      ensures r.decisions[i].status == Rejected <==> Rejection(tick.intents[i], tick.obs).Some?
      ensures r.decisions[i].status == Preempted ==>
        && WasActive(tick.intents[i], tick.previous)
        && exists e :: e in selected && e.emergency && e != tick.intents[i]
    {
      assert r.decisions[i] == tick.Decide(tick.intents[i], selected);
      IdIdentifies(selected, tick.intents, tick.intents[i]);
    }
    forall id
      ensures id in r.selectedIds <==> exists d :: d in r.decisions && d.id == id && d.status == Selected
    {
      SelectedDecision(tick, selected, id);
    }
  }

  lemma SelectedDecision(tick: Tick, selected: seq<Intent>, id: string)
    requires UniqueIds(tick.intents) && forall x :: x in selected ==> x in tick.intents
    ensures id in Ids(selected) <==>
            exists d :: d in tick.Decisions(selected) && d.id == id && d.status == Selected
  {
    DecisionsMeaning(tick, tick.intents, selected);
    if id in Ids(selected) {
      var k :| 0 <= k < |selected| && Ids(selected)[k] == id;
      assert selected[k] in tick.intents;
      var i :| 0 <= i < |tick.intents| && tick.intents[i] == selected[k];
      assert tick.Decisions(selected)[i].status == Selected;
      assert tick.Decisions(selected)[i] in tick.Decisions(selected);
    }
    if d :| d in tick.Decisions(selected) && d.id == id && d.status == Selected {
      var x := DecisionSource(tick, selected, d);
    }
  }

  // ----- runs ---------------------------------------------------------------------------

  /** What validated batches and configurations guarantee about any tick. */
  ghost predicate ValidTick(tick: Tick) {
    && tick.Check() == None && ValidConfig(tick.config)
    && forall x :: x in tick.intents ==> x.claim.loops >= 1
  }

  /** `bests[k]` is the exhaustive optimum of tick k, and tick k+1 is handed the agenda
      tick k published. */
  ghost predicate Run(ticks: seq<Tick>, bests: seq<seq<Intent>>) {
    && |ticks| == |bests|
    && (forall k :: 0 <= k < |ticks| ==>
          && ValidTick(ticks[k])
          && IsBest(bests[k], ticks[k].Eligible(), ticks[k].obs, ticks[k].Scores(), ticks[k].Conflicts()))
    && (forall k :: 0 <= k < |ticks| - 1 ==>
          && ticks[k + 1].previous == Some(ticks[k].NextAgenda(ticks[k].Chosen(bests[k])))
          && ticks[k].obs.gameLoop <= ticks[k + 1].obs.gameLoop)
  }

  lemma KeysMembers(s: seq<Intent>, key: string)
    ensures key in SortStrings(Keys(s)) <==> exists y :: y in s && y.continuityKey == key
  {
    SortStringsPermutes(Keys(s));
    SameMembers(SortStrings(Keys(s)), Keys(s));
    if y :| y in s && y.continuityKey == key {
      var k :| 0 <= k < |s| && s[k] == y;
      assert Keys(s)[k] == key;
    }
    if key in Keys(s) {
      var k :| 0 <= k < |Keys(s)| && Keys(s)[k] == key;
      assert s[k] in s;
    }
  }

  lemma {:induction false} CommitmentOutlasts(tick: Tick, selected: seq<Intent>)
    ensures tick.CommittedUntil(selected) >= tick.obs.gameLoop
    ensures forall x :: x in selected ==> tick.CommittedUntil(selected) >= tick.obs.gameLoop + x.claim.loops
    ensures selected != [] ==> exists x :: x in selected
                                 && tick.CommittedUntil(selected) == tick.obs.gameLoop + x.claim.loops
  {
    if |selected| > 1 {
      CommitmentOutlasts(tick, selected[1..]);
      assert selected == [selected[0]] + selected[1..];
    } else if |selected| == 1 {
      assert selected[0] in selected;
    }
  }

  /** Safety at every tick of every run: the published agenda is affordable, feasible,
      serves as many emergencies as any alternative, loses less than the margin, and
      reserves time exactly as long as its longest claim. */
  lemma RunIsSafe(ticks: seq<Tick>, bests: seq<seq<Intent>>, k: nat)
    requires Run(ticks, bests) && k < |ticks|
    ensures var tick := ticks[k];
      var chosen := tick.Chosen(bests[k]);
      var agenda := tick.NextAgenda(chosen);
      && Coherent(chosen, tick.obs) && Affordable(agenda.reserved, tick.obs)
      && (forall t :: Subsequence(t, tick.Eligible()) && Coherent(t, tick.obs) ==>
            NotClearlyBetter(t, chosen, tick.Scores(), tick.config.switchMargin))
      && (chosen == [] <==> agenda.committedUntil == tick.obs.gameLoop)
      && (forall x :: x in chosen ==> tick.obs.gameLoop + x.claim.loops <= agenda.committedUntil)
  {
    var tick := ticks[k];
    var chosen := tick.Chosen(bests[k]);
    ChosenIsFeasible(tick, bests[k]);
    EligibleFeasibleIsCoherent(tick, chosen);
    forall t | Subsequence(t, tick.Eligible()) && Coherent(t, tick.obs)
      ensures NotClearlyBetter(t, chosen, tick.Scores(), tick.config.switchMargin)
    {
      SelectionIsNearOptimal(tick, bests[k], t);
    }
    EligibleMeaning(tick);
    SubsequenceFacts(chosen, tick.Eligible());
    CommitmentOutlasts(tick, chosen);
    if chosen != [] {
      assert chosen[0] in chosen;
    }
  }

  /** Two consecutive ticks: an eligible intent is retained exactly when an intent selected
      one tick earlier carried its continuity key; and inside the commitment window a
      feasible retained set stays selected exactly unless the optimum beats it by the
      margin or brings an emergency the retained set does not hold. */
  lemma CommitmentsAreDroppedForCause(ticks: seq<Tick>, bests: seq<seq<Intent>>, k: nat)
    requires Run(ticks, bests) && k + 1 < |ticks|
    ensures var was := ticks[k].Chosen(bests[k]);
      var now := ticks[k + 1];
      var best := bests[k + 1];
      && (forall x :: x in now.Retained() <==>
            x in now.Eligible() && exists y :: y in was && y.continuityKey == x.continuityKey)
      && (was == [] ==> !now.InWindow())
      && (now.InWindow() && now.Retained() != [] && Coherent(now.Retained(), now.obs) ==>
            (now.Chosen(best) == now.Retained() <==>
              || best == now.Retained()
              || (TotalScore(best, now.Scores()) < TotalScore(now.Retained(), now.Scores()) + now.config.switchMargin
                  && !now.NewEmergency(best))))
  {
    var was := ticks[k].Chosen(bests[k]);
    var now := ticks[k + 1];
    RetainedIsSubsequence(now.Eligible(), now.previous);
    EligibleFeasibleIsCoherent(now, now.Retained());
    forall x: Intent
      ensures WasActive(x, now.previous) <==> exists y :: y in was && y.continuityKey == x.continuityKey
    {
      KeysMembers(was, x.continuityKey);
    }
  }
}
