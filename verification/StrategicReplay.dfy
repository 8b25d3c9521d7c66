/** Offering the same batch again with the agenda of the first answer: when the arbiter
    repeats itself, and when it does not. */
module StrategicReplay {
  import opened Ordering
  import opened Strategic
  import opened StrategicTheorems
  import opened StrategicRuns

  /** `best` is what the search over this tick's subsets yields. */
  ghost predicate Answers(tick: Tick, best: seq<Intent>) {
    ValidTick(tick) && IsBest(best, tick.Eligible(), tick.obs, tick.Scores(), tick.Conflicts())
  }

  /** The same batch and observation, offered again with the agenda of the first answer. */
  function Replayed(tick: Tick, selected: seq<Intent>): Tick {
    tick.(previous := Some(tick.NextAgenda(selected)))
  }

  // ----- when an answer is empty --------------------------------------------------------

  /** Selecting anything at all would serve no emergency and cost more than it is worth. */
  ghost predicate Worthless(tick: Tick, scoring: Scoring) {
    forall t :: Subsequence(t, tick.Eligible()) && Coherent(t, tick.obs) && t != [] ==>
      Emergencies(t) == 0 && TotalScore(t, scoring) < 0.0
  }

  /** Scores before any switch penalty. */
  function Unswitched(tick: Tick): Scoring {
    Scoring(tick.obs, None, tick.advice)
  }

  /** A commitment worth more than the margin below nothing. */
  ghost predicate Carries(tick: Tick) {
    && tick.InWindow() && tick.Retained() != [] && Coherent(tick.Retained(), tick.obs)
    && TotalScore(tick.Retained(), tick.Scores()) + tick.config.switchMargin > 0.0
  }

  lemma BestIsEmpty(tick: Tick, best: seq<Intent>)
    requires Answers(tick, best)
    ensures best == [] <==> Worthless(tick, tick.Scores())
  {
    var empty: seq<Intent> := [];
    assert KeyOf(empty, tick.Scores()) == RankKey(0, 0.0, 0, SortStrings(Ids(empty)));
    forall t | Subsequence(t, tick.Eligible()) ensures Feasible(t, tick.obs, tick.Conflicts()) <==>
      Coherent(t, tick.obs) {
      EligibleFeasibleIsCoherent(tick, t);
    }
    if best == [] {
      forall t | Subsequence(t, tick.Eligible()) && Coherent(t, tick.obs) && t != []
        ensures Emergencies(t) == 0 && TotalScore(t, tick.Scores()) < 0.0
      {
        assert !KeyLess(KeyOf(best, tick.Scores()), KeyOf(t, tick.Scores()));
      }
    } else if Worthless(tick, tick.Scores()) {
      assert false;
    }
  }

  /** The arbiter selects nothing exactly when nothing is worth its switch and no commitment
      carries over. */
  lemma EmptyAnswers(tick: Tick, best: seq<Intent>)
    requires Answers(tick, best)
    ensures tick.Chosen(best) == [] <==> Worthless(tick, tick.Scores()) && !Carries(tick)
  {
    BestIsEmpty(tick, best);
    RetainedIsSubsequence(tick.Eligible(), tick.previous);
    EligibleFeasibleIsCoherent(tick, tick.Retained());
  }

  // ----- keys of the first answer -------------------------------------------------------

  lemma ReplayActivity(tick: Tick, selected: seq<Intent>, x: Intent)
    ensures WasActive(x, Replayed(tick, selected).previous) <==> exists y :: y in selected
                                                                   && y.continuityKey == x.continuityKey
    ensures Replayed(tick, selected).previous.value.activeKeys == [] <==> selected == []
  {
    KeysMembers(selected, x.continuityKey);
    SortStringsPermutes(Keys(selected));
  }

  /** Eligible intents outside the answer have keys of their own. */
  ghost predicate OwnsItsKeys(tick: Tick, selected: seq<Intent>) {
    forall x, y :: x in tick.Eligible() && y in selected && x.continuityKey == y.continuityKey ==> x in selected
  }

  lemma OwnKeysAreRetained(tick: Tick, selected: seq<Intent>)
    requires ValidTick(tick) && Subsequence(selected, tick.Eligible())
    ensures forall x :: x in selected ==> x in Replayed(tick, selected).Retained()
    ensures Replayed(tick, selected).Retained() == selected <==> OwnsItsKeys(tick, selected)
  {
    var again := Replayed(tick, selected);
    EligibleMeaning(tick);
    SubsequenceFacts(selected, tick.Eligible());
    RetainedIsSubsequence(tick.Eligible(), again.previous);
    forall x | x in tick.Eligible()
      ensures x in again.Retained() <==> exists y :: y in selected && y.continuityKey == x.continuityKey
    {
      ReplayActivity(tick, selected, x);
    }
    if OwnsItsKeys(tick, selected) {
      SameMembersSameSubsequence(again.Retained(), selected, tick.Eligible());
    }
  }

  lemma ReplayStaysInWindow(tick: Tick, selected: seq<Intent>)
    requires ValidTick(tick) && Subsequence(selected, tick.Eligible()) && selected != []
    ensures Replayed(tick, selected).InWindow()
  {
    EligibleMeaning(tick);
    SubsequenceFacts(selected, tick.Eligible());
    assert selected[0] in selected;
    CommitmentOutlasts(tick, selected);
  }

  // ----- an answer with keys of its own -------------------------------------------------

  /** If moving from scoring `a` to `b` never lowers a member of `s` and never raises
      anything else, no subset gains more than `s` does. */
  lemma {:induction false} GainsFavour(t: seq<Intent>, s: seq<Intent>, all: seq<Intent>, a: Scoring, b: Scoring)
    requires UniqueIds(all) && Subsequence(t, all) && Subsequence(s, all)
    requires forall x :: x in all ==> if x in s then b.Of(x).total >= a.Of(x).total else b.Of(x).total <= a.Of(x).total
    ensures TotalScore(t, b) - TotalScore(t, a) <= TotalScore(s, b) - TotalScore(s, a)
  {
    if all != [] {
      SplitHead(t, all);
      SplitHead(s, all);
      var head := all[0];
      forall x | x in all[1..]
        ensures if x in DropHead(s, all) then b.Of(x).total >= a.Of(x).total else b.Of(x).total <= a.Of(x).total
      {
        HeadOnce(s, all, x);
        assert x in all;
      }
      GainsFavour(DropHead(t, all), DropHead(s, all), all[1..], a, b);
      assert head in all;
    }
  }

  /** No subset overtakes an answer that gains at least as much from the replay. */
  lemma StaysBest(tick: Tick, best: seq<Intent>)
    requires Answers(tick, best)
    requires forall t :: Subsequence(t, tick.Eligible()) && Coherent(t, tick.obs) ==>
      Gain(tick, best, t) <= Gain(tick, best, best)
    ensures Answers(Replayed(tick, best), best)
  {
    var a, b := tick.Scores(), Replayed(tick, best).Scores();
    forall t | Subsequence(t, tick.Eligible()) && Feasible(t, tick.obs, tick.Conflicts())
      ensures !KeyLess(KeyOf(best, b), KeyOf(t, b))
    {
      EligibleFeasibleIsCoherent(tick, t);
      assert !KeyLess(KeyOf(best, a), KeyOf(t, a));
    }
  }

  /** What a subset's score gains from the replay of `selected`. */
  function Gain(tick: Tick, selected: seq<Intent>, t: seq<Intent>): real {
    TotalScore(t, Replayed(tick, selected).Scores()) - TotalScore(t, tick.Scores())
  }

  lemma OwnKeysStayBest(tick: Tick, best: seq<Intent>)
    requires Answers(tick, best) && best != [] && OwnsItsKeys(tick, best)
    ensures Answers(Replayed(tick, best), best)
  {
    var a, b := tick.Scores(), Replayed(tick, best).Scores();
    EligibleMeaning(tick);
    forall x | x in tick.Eligible()
      ensures if x in best then b.Of(x).total >= a.Of(x).total else b.Of(x).total <= a.Of(x).total
    {
      ReplayActivity(tick, best, x);
    }
    forall t | Subsequence(t, tick.Eligible()) ensures Gain(tick, best, t) <= Gain(tick, best, best) {
      GainsFavour(t, best, tick.Eligible(), a, b);
    }
    StaysBest(tick, best);
  }

  // ----- a kept commitment --------------------------------------------------------------

  lemma {:induction false} SameScoresSameTotal(t: seq<Intent>, a: Scoring, b: Scoring)
    requires forall x :: x in t ==> a.Of(x).total == b.Of(x).total
    ensures TotalScore(t, a) == TotalScore(t, b)
  {
    if t != [] {
      SameScoresSameTotal(t[1..], a, b);
    }
  }

  /** While a commitment is kept, replaying it changes no score and no retained intent. */
  lemma ReplayKeepsScores(tick: Tick)
    requires ValidTick(tick) && tick.Retained() != []
    ensures OwnsItsKeys(tick, tick.Retained())
    ensures forall x :: x in tick.Eligible() ==>
      Replayed(tick, tick.Retained()).Scores().Of(x).total == tick.Scores().Of(x).total
  {
    var kept := tick.Retained();
    RetainedIsSubsequence(tick.Eligible(), tick.previous);
    assert kept[0] in kept;
    forall x | x in tick.Eligible()
      ensures Replayed(tick, kept).Scores().Of(x).total == tick.Scores().Of(x).total
    {
      ReplayActivity(tick, kept, x);
    }
  }

  lemma ReplayKeepsCommitment(tick: Tick, best: seq<Intent>)
    requires Answers(tick, best) && tick.KeepsCommitment(best)
    ensures Answers(Replayed(tick, tick.Retained()), best)
    ensures Replayed(tick, tick.Retained()).Chosen(best) == tick.Retained()
  {
    var kept := tick.Retained();
    var a, b := tick.Scores(), Replayed(tick, kept).Scores();
    EligibleMeaning(tick);
    RetainedIsSubsequence(tick.Eligible(), tick.previous);
    ReplayKeepsScores(tick);
    OwnKeysAreRetained(tick, kept);
    ReplayStaysInWindow(tick, kept);
    forall t | Subsequence(t, tick.Eligible()) ensures TotalScore(t, a) == TotalScore(t, b) {
      SubsequenceFacts(t, tick.Eligible());
      SameScoresSameTotal(t, a, b);
    }
    forall t | Subsequence(t, tick.Eligible()) && Feasible(t, tick.obs, tick.Conflicts())
      ensures !KeyLess(KeyOf(best, b), KeyOf(t, b))
    {
      assert !KeyLess(KeyOf(best, a), KeyOf(t, a));
    }
  }

  // ----- the exact condition ------------------------------------------------------------

  /** Measured against its own keys, nothing outranks the answer. */
  ghost predicate Unbeaten(tick: Tick, selected: seq<Intent>) {
    forall t :: Subsequence(t, tick.Eligible()) && Coherent(t, tick.obs) ==>
      !KeyLess(KeyOf(selected, Replayed(tick, selected).Scores()), KeyOf(t, Replayed(tick, selected).Scores()))
  }

  /** The eligible intents that carry a key of the answer would be kept in its place. */
  ghost predicate Swallowed(tick: Tick, selected: seq<Intent>) {
    var sharing := RetainedFrom(tick.Eligible(), Some(tick.NextAgenda(selected)));
    var scoring := Replayed(tick, selected).Scores();
    Coherent(sharing, tick.obs) && TotalScore(selected, scoring) < TotalScore(sharing, scoring)
      + tick.config.switchMargin
  }

  /** What the arbiter's first answer has to satisfy to be its second. */
  ghost predicate Repeats(tick: Tick, best: seq<Intent>) {
    if tick.KeepsCommitment(best) then true
    else if best == [] then Worthless(tick, Unswitched(tick))
    else OwnsItsKeys(tick, best) || (Unbeaten(tick, best) && !Swallowed(tick, best))
  }

  /** The same batch is answered in the same way exactly when: a commitment was kept; or
      nothing was selected and nothing is worth selecting even without switch penalties; or
      no outsider carries a key of the selection; or one does, but neither a better set nor
      the set of all carriers takes over. */
  lemma ReplayIsStable(tick: Tick, best: seq<Intent>, again: Tick, bestAgain: seq<Intent>)
    requires Answers(tick, best) && Answers(again, bestAgain) && again == Replayed(tick, tick.Chosen(best))
    ensures again.Chosen(bestAgain) == tick.Chosen(best) <==> Repeats(tick, best)
  {
    EligibleMeaning(tick);
    if tick.KeepsCommitment(best) {
      ReplayKeepsCommitment(tick, best);
      BestIsUnique(best, bestAgain, again.Eligible(), again.obs, again.Scores(), again.Conflicts());
    } else if best == [] {
      EmptyReplay(tick, bestAgain);
    } else {
      OptimumReplay(tick, best, bestAgain);
    }
  }

  lemma EmptyReplay(tick: Tick, bestAgain: seq<Intent>)
    requires ValidTick(tick) && Answers(Replayed(tick, []), bestAgain)
    ensures Replayed(tick, []).Chosen(bestAgain) == [] <==> Worthless(tick, Unswitched(tick))
  {
    var again := Replayed(tick, []);
    BestIsEmpty(again, bestAgain);
    forall x: Intent ensures again.Scores().Of(x).total == Unswitched(tick).Of(x).total {
      ReplayActivity(tick, [], x);
    }
    forall t: seq<Intent> ensures TotalScore(t, again.Scores()) == TotalScore(t, Unswitched(tick)) {
      SameScoresSameTotal(t, again.Scores(), Unswitched(tick));
    }
  }

  lemma OptimumReplay(tick: Tick, best: seq<Intent>, bestAgain: seq<Intent>)
    requires Answers(tick, best) && best != [] && Answers(Replayed(tick, best), bestAgain)
    ensures Replayed(tick, best).Chosen(bestAgain) == best <==>
      OwnsItsKeys(tick, best) || (Unbeaten(tick, best) && !Swallowed(tick, best))
  {
    OwnKeysAreRetained(tick, best);
    if OwnsItsKeys(tick, best) {
      OwnKeysStayBest(tick, best);
      SameAnswer(Replayed(tick, best), best, bestAgain);
    } else {
      OutsiderReplay(tick, best, bestAgain);
    }
  }

  lemma SameAnswer(tick: Tick, a: seq<Intent>, b: seq<Intent>)
    requires Answers(tick, a) && Answers(tick, b)
    ensures a == b
  {
    EligibleMeaning(tick);
    BestIsUnique(a, b, tick.Eligible(), tick.obs, tick.Scores(), tick.Conflicts());
  }

  /** An outsider is retained beside the answer, so only the optimum can be the answer. */
  lemma OutsiderReplay(tick: Tick, best: seq<Intent>, bestAgain: seq<Intent>)
    requires Answers(tick, best) && best != [] && Answers(Replayed(tick, best), bestAgain)
    requires !OwnsItsKeys(tick, best)
    ensures Replayed(tick, best).Chosen(bestAgain) == best <==> Unbeaten(tick, best) && !Swallowed(tick, best)
  {
    OwnKeysAreRetained(tick, best);
    UnbeatenIsBest(tick, best);
    if Unbeaten(tick, best) {
      SameAnswer(Replayed(tick, best), best, bestAgain);
      SwallowedIsKept(tick, best);
    }
  }

  lemma SwallowedIsKept(tick: Tick, best: seq<Intent>)
    requires Answers(tick, best) && best != []
    ensures Replayed(tick, best).KeepsCommitment(best) <==> Swallowed(tick, best)
  {
    var again := Replayed(tick, best);
    OwnKeysAreRetained(tick, best);
    ReplayStaysInWindow(tick, best);
    assert best[0] in best;
    RetainedIsSubsequence(tick.Eligible(), again.previous);
    EligibleFeasibleIsCoherent(tick, again.Retained());
  }

  lemma UnbeatenIsBest(tick: Tick, best: seq<Intent>)
    requires Answers(tick, best)
    ensures Unbeaten(tick, best) <==> Answers(Replayed(tick, best), best)
  {
    forall t | Subsequence(t, tick.Eligible()) ensures Feasible(t, tick.obs, tick.Conflicts()) <==>
      Coherent(t, tick.obs) {
      EligibleFeasibleIsCoherent(tick, t);
    }
  }

  // ----- keys that exclude each other ---------------------------------------------------

  /** Intents that continue the same thing cannot be selected together, and are equally
      urgent. */
  ghost predicate KeysExclude(intents: seq<Intent>) {
    forall x, y :: x in intents && y in intents && x != y && x.continuityKey == y.continuityKey ==>
      Clash(x, y) && x.emergency == y.emergency
  }

  /** Then a selection of anything at all is repeated. */
  lemma ExclusiveKeysRepeat(tick: Tick, best: seq<Intent>)
    requires Answers(tick, best) && KeysExclude(tick.Eligible())
    ensures Repeats(tick, best) <==> tick.Chosen(best) != [] || Worthless(tick, Unswitched(tick))
  {
    EligibleMeaning(tick);
    SubsequenceFacts(best, tick.Eligible());
    if !tick.KeepsCommitment(best) && best != [] && !OwnsItsKeys(tick, best) {
      var x, y :| x in tick.Eligible() && y in best && x.continuityKey == y.continuityKey && x !in best;
      OwnKeysAreRetained(tick, best);
      var sharing := Replayed(tick, best).Retained();
      RetainedIsSubsequence(tick.Eligible(), Replayed(tick, best).previous);
      ReplayActivity(tick, best, x);
      assert x in sharing && y in sharing && Clash(x, y);
      forall t | Subsequence(t, tick.Eligible()) && Coherent(t, tick.obs)
        ensures Gain(tick, best, t) <= Gain(tick, best, best)
      {
        ExclusiveGains(tick, best, t);
      }
      StaysBest(tick, best);
      UnbeatenIsBest(tick, best);
    }
  }

  /** What one intent gains from the replay of `selected`. */
  function GainOf(tick: Tick, selected: seq<Intent>): Intent -> real {
    (x: Intent) => Replayed(tick, selected).Scores().Of(x).total - tick.Scores().Of(x).total
  }

  function Sum(t: seq<Intent>, gain: Intent -> real): real {
    if t == [] then 0.0 else gain(t[0]) + Sum(t[1..], gain)
  }

  lemma {:induction false} GainIsASum(tick: Tick, selected: seq<Intent>, t: seq<Intent>)
    ensures Gain(tick, selected, t) == Sum(t, GainOf(tick, selected))
  {
    if t != [] {
      GainIsASum(tick, selected, t[1..]);
    }
  }

  ghost predicate DistinctKeys(t: seq<Intent>) {
    forall i, j :: 0 <= i < j < |t| ==> t[i].continuityKey != t[j].continuityKey
  }

  /** Each gain in `t` is a gain of the intent with the same key in `s`. */
  ghost predicate Matched(t: seq<Intent>, s: seq<Intent>, gain: Intent -> real) {
    forall x :: x in t && gain(x) > 0.0 ==>
      exists y :: y in s && y.continuityKey == x.continuityKey && gain(y) == gain(x)
  }

  lemma ExclusiveGains(tick: Tick, best: seq<Intent>, t: seq<Intent>)
    requires Answers(tick, best) && best != [] && KeysExclude(tick.Eligible())
    requires Subsequence(t, tick.Eligible()) && Coherent(t, tick.obs)
    ensures Gain(tick, best, t) <= Gain(tick, best, best)
  {
    var gain := GainOf(tick, best);
    EligibleMeaning(tick);
    SubsequenceFacts(best, tick.Eligible());
    CoherentKeys(tick, t);
    forall x | x in best ensures gain(x) >= 0.0 {
      MembersGain(tick, best, x);
    }
    forall x | x in t && gain(x) > 0.0
      ensures exists y :: y in best && y.continuityKey == x.continuityKey && gain(y) == gain(x)
    {
      GainIsMatched(tick, best, x);
    }
    MatchedGains(t, best, gain);
    GainIsASum(tick, best, t);
    GainIsASum(tick, best, best);
  }

  lemma CoherentKeys(tick: Tick, t: seq<Intent>)
    requires tick.Check() == None && KeysExclude(tick.Eligible())
    requires Subsequence(t, tick.Eligible()) && Coherent(t, tick.obs)
    ensures DistinctKeys(t) && forall x :: x in t ==> x in tick.Eligible()
  {
    EligibleMeaning(tick);
    SubsequenceFacts(t, tick.Eligible());
    forall i, j | 0 <= i < j < |t| ensures t[i].continuityKey != t[j].continuityKey {
      assert t[i].id != t[j].id && t[i] in t && t[j] in t;
    }
  }

  lemma MembersGain(tick: Tick, best: seq<Intent>, x: Intent)
    requires x in best
    ensures GainOf(tick, best)(x) >= 0.0
  {
    ReplayActivity(tick, best, x);
  }

  lemma GainIsMatched(tick: Tick, best: seq<Intent>, x: Intent)
    requires best != [] && GainOf(tick, best)(x) > 0.0 && x in tick.Eligible()
    requires KeysExclude(tick.Eligible()) && forall y :: y in best ==> y in tick.Eligible()
    ensures exists y :: y in best && y.continuityKey == x.continuityKey
              && GainOf(tick, best)(y) == GainOf(tick, best)(x)
  {
    ReplayActivity(tick, best, x);
    var y :| y in best && y.continuityKey == x.continuityKey;
  }

  /** A list gains no more than another in which each of its gains is matched. */
  lemma {:induction false} MatchedGains(t: seq<Intent>, s: seq<Intent>, gain: Intent -> real)
    requires DistinctKeys(t) && Matched(t, s, gain) && forall y :: y in s ==> gain(y) >= 0.0
    ensures Sum(t, gain) <= Sum(s, gain)
    decreases |t|
  {
    if t == [] {
      GainsAdd(s, gain);
    } else if gain(t[0]) <= 0.0 {
      MatchedGains(t[1..], s, gain);
    } else {
      assert t[0] in t;
      var y :| y in s && y.continuityKey == t[0].continuityKey && gain(y) == gain(t[0]);
      var k :| 0 <= k < |s| && s[k] == y;
      var rest := s[..k] + s[k + 1..];
      SumWithout(s, gain, k);
      forall x | x in t[1..] && gain(x) > 0.0
        ensures exists z :: z in rest && z.continuityKey == x.continuityKey && gain(z) == gain(x)
      {
        assert x in t;
        var z :| z in s && z.continuityKey == x.continuityKey && gain(z) == gain(x);
        assert z != y;
        assert z in rest;
      }
      MatchedGains(t[1..], rest, gain);
    }
  }

  lemma {:induction false} GainsAdd(s: seq<Intent>, gain: Intent -> real)
    requires forall y :: y in s ==> gain(y) >= 0.0
    ensures Sum(s, gain) >= 0.0
  {
    if s != [] {
      GainsAdd(s[1..], gain);
    }
  }

  lemma {:induction false} SumWithout(s: seq<Intent>, gain: Intent -> real, k: nat)
    requires k < |s|
    ensures Sum(s, gain) == gain(s[k]) + Sum(s[..k] + s[k + 1..], gain)
  {
    var rest := s[..k] + s[k + 1..];
    if k == 0 {
      assert rest == s[1..];
    } else {
      SumWithout(s[1..], gain, k - 1);
      assert rest[0] == s[0] && rest[1..] == s[1..][..k - 1] + s[1..][k..];
    }
  }

  // ----- runs that keep offering one batch ----------------------------------------------

  ghost predicate SameOffer(t: Tick, u: Tick) {
    t.intents == u.intents && t.obs == u.obs && t.advice == u.advice && t.config == u.config
  }

  lemma RunLinks(ticks: seq<Tick>, bests: seq<seq<Intent>>, k: nat)
    requires Run(ticks, bests) && 0 < k < |ticks| && SameOffer(ticks[k - 1], ticks[k])
    ensures Answers(ticks[k - 1], bests[k - 1]) && Answers(ticks[k], bests[k])
    ensures ticks[k] == Replayed(ticks[k - 1], ticks[k - 1].Chosen(bests[k - 1]))
  {
    assert ticks[k - 1 + 1].previous == Some(ticks[k - 1].NextAgenda(ticks[k - 1].Chosen(bests[k - 1])));
  }

  /** With keys that exclude each other, a run that keeps offering one batch answers it
      always in the same way exactly when its first answer selects something or nothing is
      worth selecting even without switch penalties. */
  lemma ReplayedRunIsConstant(ticks: seq<Tick>, bests: seq<seq<Intent>>)
    requires Run(ticks, bests) && |ticks| >= 2 && KeysExclude(ticks[0].Eligible())
    requires forall i :: 0 <= i < |ticks| ==> SameOffer(ticks[0], ticks[i])
    ensures (forall k :: 0 <= k < |ticks| ==> ticks[k].Chosen(bests[k]) == ticks[0].Chosen(bests[0]))
       <==> ticks[0].Chosen(bests[0]) != [] || Worthless(ticks[0], Unswitched(ticks[0]))
  {
    RunLinks(ticks, bests, 1);
    RepeatsOnce(ticks[0], bests[0], ticks[1], bests[1]);
    if ticks[0].Chosen(bests[0]) != [] || Worthless(ticks[0], Unswitched(ticks[0])) {
      forall k | 0 <= k < |ticks| ensures ticks[k].Chosen(bests[k]) == ticks[0].Chosen(bests[0]) {
        StaysConstant(ticks, bests, k);
      }
    }
  }

  lemma SameOfferSameWorth(t: Tick, u: Tick)
    requires SameOffer(t, u)
    ensures t.Eligible() == u.Eligible() && Unswitched(t) == Unswitched(u)
    ensures Worthless(t, Unswitched(t)) <==> Worthless(u, Unswitched(u))
    ensures KeysExclude(t.Eligible()) <==> KeysExclude(u.Eligible())
  {
  }

  lemma {:induction false} StaysConstant(ticks: seq<Tick>, bests: seq<seq<Intent>>, k: nat)
    requires Run(ticks, bests) && k < |ticks| && KeysExclude(ticks[0].Eligible())
    requires forall i :: 0 <= i < |ticks| ==> SameOffer(ticks[0], ticks[i])
    requires ticks[0].Chosen(bests[0]) != [] || Worthless(ticks[0], Unswitched(ticks[0]))
    ensures ticks[k].Chosen(bests[k]) == ticks[0].Chosen(bests[0])
  {
    if k > 0 {
      StaysConstant(ticks, bests, k - 1);
      RunLinks(ticks, bests, k);
      SameOfferSameWorth(ticks[0], ticks[k - 1]);
      RepeatsOnce(ticks[k - 1], bests[k - 1], ticks[k], bests[k]);
    }
  }

  lemma RepeatsOnce(t: Tick, best: seq<Intent>, u: Tick, bestAgain: seq<Intent>)
    requires Answers(t, best) && Answers(u, bestAgain) && u == Replayed(t, t.Chosen(best)) && KeysExclude(t.Eligible())
    ensures u.Chosen(bestAgain) == t.Chosen(best) <==> t.Chosen(best) != [] || Worthless(t, Unswitched(t))
  {
    ReplayIsStable(t, best, u, bestAgain);
    ExclusiveKeysRepeat(t, best);
  }

  // ----- batches in rank order ----------------------------------------------------------

  /** A batch listed in rank order, with nothing rejected or truncated, and no commitment
      window left. */
  ghost predicate OpenBatch(tick: Tick) {
    && ValidTick(tick) && StrictlyRanked(tick.intents) && |tick.intents| <= tick.config.maxIntents
    && (forall x :: x in tick.intents ==> Rejection(x, tick.obs) == None && !x.emergency && x.dependencies == [])
    && tick.previous.Some? && tick.obs.gameLoop >= tick.previous.value.committedUntil
  }

  lemma {:induction false} AllAdmitted(s: seq<Intent>, obs: Observation)
    requires forall x :: x in s ==> Rejection(x, obs) == None
    ensures AdmittedFrom(s, obs) == s
  {
    if s != [] {
      var n := |s| - 1;
      AllAdmitted(s[..n], obs);
      assert s[n] in s && s == s[..n] + [s[n]];
    }
  }

  lemma RankedAlready(s: seq<Intent>)
    requires UniqueIds(s) && StrictlyRanked(s)
    ensures Ranking(s) == s
  {
    var less := (a, b) => Before(a, b);
    BeforeIsKeyOrder();
    SortSorts(s, less);
    forall a, b | a in s && b in s && a != b ensures less(a, b) || less(b, a) {
      StringTrichotomy(a.id, b.id);
      var i :| 0 <= i < |s| && s[i] == a;
      var j :| 0 <= j < |s| && s[j] == b;
    }
    SortedUnique(s, Ranking(s), less);
  }

  lemma OpenBatchIsEligible(tick: Tick)
    requires OpenBatch(tick)
    ensures tick.Eligible() == tick.intents
  {
    RankedAlready(tick.intents);
    AllAdmitted(tick.intents, tick.obs);
  }

  lemma {:induction false} NoEmergencies(s: seq<Intent>)
    requires forall x :: x in s ==> !x.emergency
    ensures Emergencies(s) == 0
  {
    if s != [] {
      assert s[0] in s;
      NoEmergencies(s[1..]);
    }
  }

  // ----- an empty selection is forgotten ------------------------------------------------

  /** A lone intent, worth `worth` before any switch penalty. */
  ghost predicate LoneOffer(tick: Tick, x: Intent, worth: real) {
    && OpenBatch(tick) && tick.intents == [x] && Affordable(x.claim, tick.obs)
    && Unswitched(tick).Of(x).total == worth
  }

  lemma LoneIsCoherent(x: Intent, obs: Observation)
    requires x.dependencies == [] && Affordable(x.claim, obs)
    ensures Coherent([x], obs)
  {
    assert SumClaims([x]) == ResourceClaim(x.claim.minerals, x.claim.vespene, x.claim.supply, NatMax(x.claim.loops, 1));
  }

  lemma LoneSubsequences(x: Intent)
    ensures forall t :: Subsequence(t, [x]) <==> t == [] || t == [x]
  {
    forall t | Subsequence(t, [x]) ensures t == [] || t == [x] {
      SubsequenceIsShorter(t, [x]);
      if t != [] {
        assert t[0] in t;
        assert t == [t[0]];
      }
    }
    assert [x][1..] == [];
  }

  /** Worth taking, but not worth a switch: refused at first, and then not refused. */
  lemma EmptySelectionIsForgotten(tick: Tick, x: Intent, worth: real, best: seq<Intent>)
    requires LoneOffer(tick, x, worth) && 0.0 < worth < 2.0 && SwitchPenalty(x, tick.previous) == 1.0
    requires Answers(tick, best)
    ensures tick.Chosen(best) == [] && !Repeats(tick, best)
  {
    OpenBatchIsEligible(tick);
    LoneIsCoherent(x, tick.obs);
    LoneSubsequences(x);
    NoEmergencies([x]);
    assert [x][1..] == [];
    assert TotalScore([x], tick.Scores()) == worth - 2.0;
    assert TotalScore([x], Unswitched(tick)) == worth;
    EmptyAnswers(tick, best);
    BestIsEmpty(tick, best);
  }

  /** Such offers exist: a free intent worth exactly its confidence of 1. */
  lemma LoneOfferExists(tick: Tick, x: Intent)
    requires tick.intents == [x] && x.batch == tick.obs.batch && x.ttl > 0 && x.created == tick.obs.gameLoop
    requires x.claim == NO_CLAIM && x.blockers == [] && x.dependencies == [] && !x.emergency
    requires x.progress == x.urgency == x.alignment == x.risk == 0.0 && x.confidence == 1.0
    requires tick.advice.deltas == map[] && ValidConfig(tick.config)
    requires tick.previous.Some? && tick.previous.value.committedUntil == 0
    requires tick.previous.value.activeKeys != [] && x.continuityKey !in tick.previous.value.activeKeys
    ensures LoneOffer(tick, x, 1.0) && SwitchPenalty(x, tick.previous) == 1.0
  {
    assert ResourcePressure(NO_CLAIM, tick.obs) == 0.0;
  }

  // ----- a key shared with an outsider --------------------------------------------------

  /** Two compatible intents that carry one new key. */
  ghost predicate PairOffer(tick: Tick, x: Intent, y: Intent) {
    && OpenBatch(tick) && tick.intents == [x, y] && x.continuityKey == y.continuityKey
    && !Clash(x, y) && Affordable(SumClaims([x, y]), tick.obs) && SwitchPenalty(x, tick.previous) == 1.0
  }

  lemma PairIsCoherent(tick: Tick, x: Intent, y: Intent)
    requires PairOffer(tick, x, y)
    ensures Coherent([x, y], tick.obs) && Coherent([x], tick.obs)
  {
    assert x in tick.intents && y in tick.intents && tick.intents[0].id != tick.intents[1].id;
    ClashIsSymmetric(x, y);
    assert [x, y][1..] == [y] && [y][1..] == [];
    assert SumClaims([y]) == ResourceClaim(y.claim.minerals, y.claim.vespene, y.claim.supply, NatMax(y.claim.loops, 1));
    LoneIsCoherent(x, tick.obs);
  }

  lemma PairSubsequences(x: Intent, y: Intent)
    ensures forall t :: Subsequence(t, [x, y]) <==> t == [] || t == [x] || t == [y] || t == [x, y]
  {
    var pair := [x, y];
    assert pair[1..] == [y] && [x][1..] == [] && [y][1..] == [];
    LoneSubsequences(y);
    forall t | Subsequence(t, pair) ensures t == [] || t == [x] || t == [y] || t == pair {
      if t != [] && t[0] == x && Subsequence(t[1..], pair[1..]) {
        assert t == [t[0]] + t[1..];
      } else if t != [] {
        assert Subsequence(t, pair[1..]);
      }
    }
  }

  lemma PairTotals(x: Intent, y: Intent, scoring: Scoring)
    ensures TotalScore([x], scoring) == scoring.Of(x).total && TotalScore([y], scoring) == scoring.Of(y).total
    ensures TotalScore([x, y], scoring) == scoring.Of(x).total + scoring.Of(y).total
  {
    assert [x, y][1..] == [y] && [x][1..] == [] && [y][1..] == [];
  }

  /** One worth the switch and one worth less than it: the first is selected alone, its key
      then frees the other of the penalty, and the first alone is not the answer any more. */
  lemma SharedKeyIsNotRepeated(tick: Tick, x: Intent, y: Intent, best: seq<Intent>)
    requires PairOffer(tick, x, y) && Answers(tick, best)
    requires Unswitched(tick).Of(x).total > 2.0 && 0.0 < Unswitched(tick).Of(y).total < 2.0
    ensures tick.Chosen(best) == [x] && !Repeats(tick, best)
  {
    OpenBatchIsEligible(tick);
    PairSubsequences(x, y);
    PairIsCoherent(tick, x, y);
    PairAnswer(tick, x, y, best);
    PairRelieved(tick, x, y);
    assert y in tick.Eligible() && x in best && y !in best;
  }

  lemma PairAnswer(tick: Tick, x: Intent, y: Intent, best: seq<Intent>)
    requires PairOffer(tick, x, y) && Answers(tick, best) && tick.Eligible() == [x, y]
    requires Coherent([x], tick.obs)
    requires Unswitched(tick).Of(x).total > 2.0 && Unswitched(tick).Of(y).total < 2.0
    ensures best == [x] && x != y
  {
    PairSubsequences(x, y);
    PairTotals(x, y, tick.Scores());
    assert tick.intents[0].id != tick.intents[1].id;
    assert x in tick.intents && y in tick.intents;
    NoEmergencies([x]);
    NoEmergencies(best);
    EligibleFeasibleIsCoherent(tick, [x]);
    assert !KeyLess(KeyOf(best, tick.Scores()), KeyOf([x], tick.Scores()));
    assert TotalScore([], tick.Scores()) == 0.0;
  }

  lemma PairRelieved(tick: Tick, x: Intent, y: Intent)
    requires PairOffer(tick, x, y) && Unswitched(tick).Of(y).total > 0.0
    requires Subsequence([x, y], tick.Eligible()) && Coherent([x, y], tick.obs)
    ensures !Unbeaten(tick, [x])
  {
    var scoring := Replayed(tick, [x]).Scores();
    assert x in [x] && x in tick.intents && y in tick.intents;
    ReplayActivity(tick, [x], y);
    PairTotals(x, y, scoring);
    NoEmergencies([x]);
    NoEmergencies([x, y]);
    assert KeyLess(KeyOf([x], scoring), KeyOf([x, y], scoring));
  }

  /** Such pairs exist: free intents of different roles, worth 3 and 1. */
  lemma PairOfferExists(tick: Tick, x: Intent, y: Intent)
    requires tick.intents == [x, y] && x.id != y.id && Before(x, y) && x.role != y.role
      && x.continuityKey == y.continuityKey
    requires forall i :: i in [x, y] ==>
      && i.batch == tick.obs.batch && i.ttl > 0 && i.created == tick.obs.gameLoop && i.claim == NO_CLAIM
      && i.actors == i.producers == i.groups == i.blockers == i.dependencies == [] && !i.emergency
      && i.progress == i.alignment == i.risk == 0.0
    requires x.urgency == 1.0 && x.confidence == 0.0 && y.urgency == 0.0 && y.confidence == 1.0
    requires tick.advice.deltas == map[] && ValidConfig(tick.config) && tick.config.maxIntents >= 2
    requires tick.previous.Some? && tick.previous.value.committedUntil == 0
    requires tick.previous.value.activeKeys != [] && x.continuityKey !in tick.previous.value.activeKeys
    ensures PairOffer(tick, x, y) && Unswitched(tick).Of(x).total == 3.0 && Unswitched(tick).Of(y).total == 1.0
  {
    assert x in [x, y] && y in [x, y];
    assert tick.Check() == None;
    assert ResourcePressure(NO_CLAIM, tick.obs) == 0.0;
    assert [x, y][1..] == [y] && [y][1..] == [];
    assert SumClaims([y]) == NO_CLAIM && SumClaims([x, y]) == NO_CLAIM;
  }
}
