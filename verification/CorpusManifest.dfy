/** What a corpus manifest and its split files say, counted over the samples and the journal
    events themselves; and what the fingerprint of a journal digests. */
module CorpusManifest {
  import opened CorpusBuild
  import opened CorpusFiles
  import opened CorpusMeaning
  import opened CorpusModel
  import opened CorpusSource
  import opened CorpusTheorems
  import opened CorpusVerify
  import opened Counting
  import opened Ordering

  // ----- the order of a split file ------------------------------------------------------

  /** Up to `k` the texts agree, and there `a` ends or has the smaller character. */
  ghost predicate DiffersAt(a: string, b: string, k: nat) {
    k <= |a| && k < |b| && a[..k] == b[..k] && (k == |a| || a[k] < b[k])
  }

  ghost predicate Precedes(a: string, b: string) {
    exists k: nat :: DiffersAt(a, b, k)
  }

  lemma DiffersLater(a: string, b: string, k: nat)
    requires a != [] && b != [] && a[0] == b[0]
    ensures DiffersAt(a, b, k + 1) <==> DiffersAt(a[1..], b[1..], k)
  {
    if k <= |a[1..]| && k < |b[1..]| {
      assert a[..k + 1] == [a[0]] + a[1..][..k] && b[..k + 1] == [b[0]] + b[1..][..k];
      assert a[1..][..k] == a[..k + 1][1..] && b[1..][..k] == b[..k + 1][1..];
    }
  }

  lemma {:induction false} StringLessDiffers(a: string, b: string) returns (k: nat)
    requires StringLess(a, b)
    ensures DiffersAt(a, b, k)
  {
    if a == [] || a[0] != b[0] {
      k := 0;
    } else {
      var later := StringLessDiffers(a[1..], b[1..]);
      DiffersLater(a, b, later);
      k := later + 1;
    }
  }

  lemma {:induction false} DiffersIsLess(a: string, b: string, k: nat)
    requires DiffersAt(a, b, k)
    ensures StringLess(a, b)
  {
    if k > 0 {
      assert a[..k][0] == a[0] && b[..k][0] == b[0];
      DiffersLater(a, b, k - 1);
      DiffersIsLess(a[1..], b[1..], k - 1);
    }
  }

  lemma PrecedesMeaning(a: string, b: string)
    ensures Precedes(a, b) <==> StringLess(a, b)
  {
    if StringLess(a, b) {
      var k := StringLessDiffers(a, b);
    }
    if Precedes(a, b) {
      var k: nat :| DiffersAt(a, b, k);
      DiffersIsLess(a, b, k);
    }
  }

  /** By run, then episode, then step, then the id of the label. */
  ghost predicate ComesBefore(a: Sample, b: Sample) {
    || Precedes(a.run, b.run)
    || (a.run == b.run
        && (|| Precedes(a.episode, b.episode)
            || (a.episode == b.episode
                && (a.step < b.step || (a.step == b.step && Precedes(a.choice.id, b.choice.id))))))
  }

  lemma TriplesCompare(a: seq<string>, b: seq<string>)
    requires |a| == |b| == 3 && a[0] == b[0]
    ensures TupleLess(a, b) <==> StringLess(a[1], b[1]) || (a[1] == b[1] && StringLess(a[2], b[2]))
  {
    StringTrichotomy(a[1], b[1]);
    StringTrichotomy(a[2], b[2]);
    assert TupleLess(a, b) == TupleLess(a[1..], b[1..]);
    if a[1] == b[1] {
      assert TupleLess(a[1..], b[1..]) == TupleLess(a[1..][1..], b[1..][1..]);
      assert a[1..][1..] == [a[2]] && b[1..][1..] == [b[2]];
      assert [a[2]][1..] == [] && [b[2]][1..] == [];
      assert !TupleLess([], []);
    }
  }

  lemma PlaceOrder(a: Sample, b: Sample)
    requires a.split == b.split && SampleLess(a, b)
    ensures ComesBefore(a, b)
  {
    PrecedesMeaning(a.run, b.run);
    PrecedesMeaning(a.episode, b.episode);
    PrecedesMeaning(a.choice.id, b.choice.id);
    TriplesCompare(Place(a), Place(b));
  }

  lemma FitIsOrdered(w: World, codec: Codec, seed: string, sources: seq<Source>, ordered: seq<Sample>,
                     selections: nat, reasons: multiset<string>, split: Split, i: nat, k: nat)
    requires Faithful(codec) && Fit(w, seed, ordered)
    requires i < k < |Decoded(Written(w, codec, seed, sources, ordered, selections, reasons), codec, split)|
    ensures var samples := Decoded(Written(w, codec, seed, sources, ordered, selections, reasons), codec, split);
      samples[i].split == split && ComesBefore(samples[i], samples[k])
  {
    var samples := Filter(ordered, InSplit(split));
    WrittenSplitIsSound(w, codec, seed, sources, ordered, selections, reasons, split);
    FilterKeepsSorted(ordered, InSplit(split));
    FilterKeepsUnique(ordered, InSplit(split));
    FilterMembers(ordered, InSplit(split));
    PlacesAreTieFree(samples);
    var a, b := samples[i], samples[k];
    assert a in samples && b in samples;
    assert InSplit(split)(a) && InSplit(split)(b);
    assert a.choice.id != b.choice.id && !ByPlace()(b, a);
    PlaceOrder(a, b);
  }

  /** A split file lists samples of its split, each strictly after those before it. */
  lemma FilesAreOrdered(journals: seq<seq<Event>>, w: World, codec: Codec, digest: seq<Entry> -> string, seed: string,
                        split: Split, i: nat, k: nat)
    requires Faithful(codec) && CorpusOf(journals, w, codec, digest, seed).Ok?
    requires i < k < |Decoded(CorpusOf(journals, w, codec, digest, seed).value, codec, split)|
    ensures var samples := Decoded(CorpusOf(journals, w, codec, digest, seed).value, codec, split);
      samples[i].split == split && ComesBefore(samples[i], samples[k])
  {
    var ix := IndexOf(Concat(journals)).value;
    var selections := Filter(Concat(journals), IsSelection());
    var b := BuildUpTo(selections, SamplerOf(ix, w, seed));
    OrderedIsFit(selections, ix, w, seed);
    FitIsOrdered(w, codec, seed, SourcesOf(w, digest, journals), Ordered(b), |selections|, Reasons(b), split, i, k);
  }

  // ----- counting by position -----------------------------------------------------------

  /** The positions of a list at which `p` holds. */
  ghost predicate Marks<T>(positions: set<int>, s: seq<T>, p: T -> bool) {
    forall i :: i in positions <==> 0 <= i < |s| && p(s[i])
  }

  lemma {:induction false} FilterCounts<T>(s: seq<T>, p: T -> bool, positions: set<int>)
    requires Marks(positions, s, p)
    ensures |Filter(s, p)| == |positions|
  {
    if s == [] {
      assert forall i :: i !in positions;
    } else {
      var n := |s| - 1;
      assert forall i :: 0 <= i < n ==> s[..n][i] == s[i];
      FilterCounts(s[..n], p, positions - {n});
    }
  }

  lemma {:induction false} CountCounts<T, K>(s: seq<T>, f: T -> multiset<K>, x: K, positions: set<int>)
    requires forall i :: 0 <= i < |s| ==> f(s[i])[x] <= 1
    requires forall i :: i in positions <==> 0 <= i < |s| && x in f(s[i])
    ensures Count(s, f)[x] == |positions|
  {
    if s == [] {
      assert forall i :: i !in positions;
    } else {
      var n := |s| - 1;
      assert forall i :: 0 <= i < n ==> s[..n][i] == s[i];
      CountCounts(s[..n], f, x, positions - {n});
    }
  }

  // ----- the counters -------------------------------------------------------------------

  ghost function Selecting(samples: seq<Sample>): set<int> {
    set i | 0 <= i < |samples| && samples[i].choice.selected
  }

  ghost function Commanded(samples: seq<Sample>): set<int> {
    set i | 0 <= i < |samples| && samples[i].command != None
  }

  ghost function Concluded(samples: seq<Sample>): set<int> {
    set i | 0 <= i < |samples| && samples[i].outcome != None
  }

  /** Selections that are samples, and of these the ones that chose, were commanded, ended. */
  ghost predicate Conserves(c: Conservation, selections: nat, samples: seq<Sample>) {
    && c.selections == selections && c.included == |samples| && c.excluded == selections - |samples|
    && c.selected == |Selecting(samples)| && c.linked == |Commanded(samples)| && c.ended == |Concluded(samples)|
    && c.abstained + c.selected == c.linked + c.unlinked == c.ended + c.unended == |samples|
  }

  lemma ConservationMeaning(samples: seq<Sample>, selections: nat)
    ensures Conserves(ConservationOf(samples, selections, selections - |samples|), selections, samples)
  {
    FilterCounts(samples, IsSelected(), Selecting(samples));
    FilterCounts(samples, IsLinked(), Commanded(samples));
    FilterCounts(samples, IsEnded(), Concluded(samples));
  }

  /** The label of a sample names one of its candidates, and that one is an `action`. */
  ghost predicate Chose(s: Sample, action: string) {
    s.choice.candidate.Some?
    && exists k :: 0 <= k < |s.candidates| && s.candidates[k].id == s.choice.candidate.value
                && s.candidates[k].action == action
  }

  ghost function InTheSplit(samples: seq<Sample>, split: Split): set<int> {
    set i | 0 <= i < |samples| && samples[i].split == split
  }

  ghost function Labelling(samples: seq<Sample>, selected: bool): set<int> {
    set i | 0 <= i < |samples| && samples[i].choice.selected == selected
  }

  ghost function OfRole(samples: seq<Sample>, role: Role): set<int> {
    set i | 0 <= i < |samples| && samples[i].role == role
  }

  ghost function Choosing(samples: seq<Sample>, action: string): set<int> {
    set i | 0 <= i < |samples| && Chose(samples[i], action)
  }

  ghost function EndingIn(samples: seq<Sample>, status: Status): set<int> {
    set i | 0 <= i < |samples| && samples[i].outcome.Some? && samples[i].outcome.value.status == status
  }

  /** The candidates of all samples that are an `action`, by position. */
  ghost function Offering(samples: seq<Sample>, action: string): set<(int, int)> {
    set i, k | 0 <= i < |samples| && 0 <= k < |samples[i].candidates| && samples[i].candidates[k].action == action
      :: (i, k)
  }

  /** How many samples, or candidates of samples, are of each kind. */
  ghost predicate Distributes(d: Distribution, samples: seq<Sample>) {
    && (forall x :: d.split[x] == |InTheSplit(samples, x)|)
    && (forall x :: d.selected[x] == |Labelling(samples, x)|)
    && (forall x :: d.role[x] == |OfRole(samples, x)|)
    && (forall x :: d.chosenAction[x] == |Choosing(samples, x)|)
    && (forall x :: d.candidateAction[x] == |Offering(samples, x)|)
    && (forall x :: d.status[x] == |EndingIn(samples, x)|)
  }

  lemma {:induction false} CandidatesCount(candidates: seq<CandidateSample>, x: string, n: int,
                                           pairs: set<(int, int)>)
    requires forall p :: p in pairs <==> p.0 == n && 0 <= p.1 < |candidates| && candidates[p.1].action == x
    ensures Count(candidates, ActionOfCandidate())[x] == |pairs|
  {
    if candidates == [] {
      assert pairs == {};
    } else {
      var m := |candidates| - 1;
      assert forall i :: 0 <= i < m ==> candidates[..m][i] == candidates[i];
      CandidatesCount(candidates[..m], x, n, pairs - {(n, m)});
    }
  }

  lemma {:induction false} OfferedCount(samples: seq<Sample>, x: string, pairs: set<(int, int)>)
    requires forall p :: p in pairs <==> && 0 <= p.0 < |samples| && 0 <= p.1 < |samples[p.0].candidates|
                                         && samples[p.0].candidates[p.1].action == x
    ensures Count(samples, CandidateActionsOf())[x] == |pairs|
  {
    if samples == [] {
      assert pairs == {};
    } else {
      var n := |samples| - 1;
      var before, here := set p | p in pairs && p.0 != n, set p | p in pairs && p.0 == n;
      assert forall i :: 0 <= i < n ==> samples[..n][i] == samples[i];
      OfferedCount(samples[..n], x, before);
      CandidatesCount(samples[n].candidates, x, n, here);
      assert pairs == before + here;
    }
  }

  lemma {:induction false} ActionIsChosen(candidates: seq<CandidateSample>, id: string)
    requires forall i, k :: 0 <= i < k < |candidates| ==> candidates[i].id != candidates[k].id
    ensures forall k :: 0 <= k < |candidates| && candidates[k].id == id ==>
      ActionOf(candidates, id) == Some(candidates[k].action)
    ensures ActionOf(candidates, id).Some? ==> exists k :: 0 <= k < |candidates| && candidates[k].id == id
  {
    if candidates != [] && candidates[0].id != id {
      ActionIsChosen(candidates[1..], id);
      assert forall k :: 0 < k < |candidates| ==> candidates[1..][k - 1] == candidates[k];
    }
  }

  lemma ChoiceIsCounted(s: Sample, x: string)
    requires ValidSample(s)
    ensures x in ChosenActionOf()(s) <==> Chose(s, x)
    ensures ChosenActionOf()(s)[x] <= 1
  {
    if s.choice.candidate.Some? {
      ActionIsChosen(s.candidates, s.choice.candidate.value);
    }
  }

  lemma ChosenCount(samples: seq<Sample>, x: string)
    requires forall s :: s in samples ==> ValidSample(s)
    ensures Count(samples, ChosenActionOf())[x] == |Choosing(samples, x)|
  {
    forall i | 0 <= i < |samples|
      ensures x in ChosenActionOf()(samples[i]) <==> Chose(samples[i], x)
      ensures ChosenActionOf()(samples[i])[x] <= 1
    {
      assert samples[i] in samples;
      ChoiceIsCounted(samples[i], x);
    }
    CountCounts(samples, ChosenActionOf(), x, Choosing(samples, x));
  }

  lemma SplitsCount(samples: seq<Sample>)
    ensures forall x :: Count(samples, SplitOf())[x] == |InTheSplit(samples, x)|
    ensures forall x :: Count(samples, StatusOf())[x] == |Labelling(samples, x)|
  {
    forall x {
      CountCounts(samples, SplitOf(), x, InTheSplit(samples, x));
    }
    forall x {
      CountCounts(samples, StatusOf(), x, Labelling(samples, x));
    }
  }

  lemma RolesCount(samples: seq<Sample>)
    ensures forall x :: Count(samples, RoleOf())[x] == |OfRole(samples, x)|
    ensures forall x :: Count(samples, CorpusFiles.EndOf())[x] == |EndingIn(samples, x)|
  {
    forall x {
      CountCounts(samples, RoleOf(), x, OfRole(samples, x));
    }
    forall x {
      CountCounts(samples, CorpusFiles.EndOf(), x, EndingIn(samples, x));
    }
  }

  lemma ActionsCount(samples: seq<Sample>)
    requires forall s :: s in samples ==> ValidSample(s)
    ensures forall x :: Count(samples, ChosenActionOf())[x] == |Choosing(samples, x)|
    ensures forall x :: Count(samples, CandidateActionsOf())[x] == |Offering(samples, x)|
  {
    forall x {
      ChosenCount(samples, x);
    }
    forall x {
      OfferedCount(samples, x, Offering(samples, x));
    }
  }

  lemma DistributionMeaning(samples: seq<Sample>)
    requires forall s :: s in samples ==> ValidSample(s)
    ensures Distributes(DistributionOf(samples), samples)
  {
    SplitsCount(samples);
    RolesCount(samples);
    ActionsCount(samples);
  }

  ghost function RepeatedContents(w: World, samples: seq<Sample>): set<int> {
    set i | 0 <= i < |samples| && exists k :: 0 <= k < i && w.content(samples[k]) == w.content(samples[i])
  }

  ghost function RepeatedObservations(samples: seq<Sample>): set<int> {
    set i | 0 <= i < |samples| && exists k :: 0 <= k < i && samples[k].observation == samples[i].observation
  }

  ghost function RepeatedFeatures(samples: seq<Sample>): set<int> {
    set i | 0 <= i < |samples| && exists k :: 0 <= k < i && samples[k].semantic == samples[i].semantic
  }

  /** How many samples repeat an earlier one's content, observation and features. */
  lemma DuplicatesMeaning(w: World, samples: seq<Sample>, reasons: multiset<string>)
    ensures DuplicatesOf(w, samples, reasons)
         == Duplicates(reasons["duplicate_selection_id"], |RepeatedContents(w, samples)|,
                       |RepeatedObservations(samples)|, |RepeatedFeatures(samples)|)
  {
    var observation, semantic := (s: Sample) => s.observation, (s: Sample) => s.semantic;
    RepeatsCount(samples, w.content, set s | s in samples :: w.content(s), RepeatedContents(w, samples));
    RepeatsCount(samples, observation, set s | s in samples :: s.observation, RepeatedObservations(samples));
    RepeatsCount(samples, semantic, set s | s in samples :: s.semantic, RepeatedFeatures(samples));
  }

  // ----- why selections are excluded ----------------------------------------------------

  /** Why the i-th selection gives no sample. */
  ghost function ReasonAt(selections: seq<Event>, sampler: Sampler, i: nat): Option<string>
    requires i < |selections|
  {
    if !FirstOfItsId(selections, i) then Some("duplicate_selection_id")
    else
      match sampler(selections[i])
      case Err(refusal) => Some(CodeOf(refusal))
      case Ok(_) => if Contributes(selections, sampler, i) then None else Some("duplicate_selection_id")
  }

  ghost function Excluded(selections: seq<Event>, sampler: Sampler, code: string): set<int> {
    set i | 0 <= i < |selections| && ReasonAt(selections, sampler, i) == Some(code)
  }

  lemma ReasonBefore(selections: seq<Event>, e: Event, sampler: Sampler, i: nat)
    requires i < |selections|
    ensures ReasonAt(selections + [e], sampler, i) == ReasonAt(selections, sampler, i)
  {
    var all := selections + [e];
    assert all[i] == selections[i] && forall k :: 0 <= k < |selections| ==> all[k] == selections[k];
    ContributesBefore(selections, e, sampler, i);
    assert FirstOfItsId(all, i) == FirstOfItsId(selections, i) by {
      assert forall k :: 0 <= k < i ==> SelectionIdOf(all[k]) == SelectionIdOf(selections[k]);
    }
  }

  lemma ExcludedOneMore(selections: seq<Event>, e: Event, sampler: Sampler, code: string)
    ensures |Excluded(selections + [e], sampler, code)| == |Excluded(selections, sampler, code)|
      + (if ReasonAt(selections + [e], sampler, |selections|) == Some(code) then 1 else 0)
  {
    forall i | 0 <= i < |selections|
      ensures ReasonAt(selections + [e], sampler, i) == ReasonAt(selections, sampler, i)
    {
      ReasonBefore(selections, e, sampler, i);
    }
    var before, n := Excluded(selections, sampler, code), |selections|;
    assert Excluded(selections + [e], sampler, code)
        == if ReasonAt(selections + [e], sampler, n) == Some(code) then before + {n} else before;
  }

  lemma TakenForAReason(b: Built, selections: seq<Event>, e: Event, sampler: Sampler)
    requires Tracks(b, selections, sampler)
    ensures var reason := ReasonAt(selections + [e], sampler, |selections|);
      Take(e, sampler(e), b).exclusions
        == b.exclusions + if reason.Some? then multiset{reason.value} else multiset{}
  {
    assert (selections + [e])[|selections|] == e;
    FirstMeaning(selections, e);
    if sampler(e).Ok? {
      ContributesMeaning(selections, e, sampler);
    }
  }

  /** Every exclusion counter is the number of selections excluded for its reason. */
  lemma {:induction false} ExclusionsMeaning(selections: seq<Event>, sampler: Sampler, code: string)
    ensures BuildUpTo(selections, sampler).exclusions[code] == |Excluded(selections, sampler, code)|
  {
    if selections != [] {
      var n := |selections| - 1;
      ExclusionsMeaning(selections[..n], sampler, code);
      BuiltMeaning(selections[..n], sampler);
      assert selections == selections[..n] + [selections[n]];
      TakenForAReason(BuildUpTo(selections[..n], sampler), selections[..n], selections[n], sampler);
      ExcludedOneMore(selections[..n], selections[n], sampler, code);
    }
  }

  // ----- the manifest -------------------------------------------------------------------

  /** The positions of the samples that no smallest episode with their features keeps. */
  ghost function Outsiders(samples: seq<Sample>): set<int> {
    set i | 0 <= i < |samples| && !exists o :: Owns(o, samples, samples[i]) && o.split == samples[i].split
  }

  lemma DroppedMeaning(b: Built, w: World, seed: string)
    requires All(b.samples, Made(w, seed))
    ensures Dropped(b) == |Outsiders(b.samples)|
  {
    var stays := StaysAmong(b.samples);
    FilterMembers(b.samples, stays);
    var leaves := (s: Sample) => !stays(s);
    forall i | 0 <= i < |b.samples| ensures i in Outsiders(b.samples) <==> leaves(b.samples[i]) {
      assert b.samples[i] in b.samples;
      StaysMeaning(b.samples, b.samples[i], w, seed);
    }
    FilterCounts(b.samples, leaves, Outsiders(b.samples));
    FilterUnion(b.samples, stays, leaves, Any());
    FilterAll(b.samples, Any());
  }

  /** The reasons recorded: those of the selections, and one for each sample dropped because
      its features belong to another split. */
  lemma ReasonsMeaning(selections: seq<Event>, ix: Indexes, w: World, seed: string, code: string)
    ensures var b := BuildUpTo(selections, SamplerOf(ix, w, seed));
      Reasons(b)[code] == if code == "cross_split_semantic_duplicate" then |Outsiders(b.samples)|
                          else |Excluded(selections, SamplerOf(ix, w, seed), code)|
  {
    var sampler := SamplerOf(ix, w, seed);
    var b := BuildUpTo(selections, sampler);
    forall e | sampler(e).Ok? ensures Made(w, seed)(sampler(e).value) {
      SamplesAreWellMade(e, ix, w, seed);
    }
    BuildConserves(selections, sampler, Made(w, seed));
    ExclusionsMeaning(selections, sampler, code);
    DroppedMeaning(b, w, seed);
  }

  lemma WrittenMeaning(w: World, codec: Codec, seed: string, sources: seq<Source>, ordered: seq<Sample>,
                       selections: nat, reasons: multiset<string>)
    returns (samples: seq<Sample>)
    requires Faithful(codec) && Fit(w, seed, ordered)
    ensures var c := Written(w, codec, seed, sources, ordered, selections, reasons);
      && samples == Decoded(c, codec, Train) + Decoded(c, codec, Validation) + Decoded(c, codec, Test)
      && Conserves(c.manifest.conservation, selections, samples)
      && Distributes(c.manifest.distribution, samples)
      && c.manifest.duplicates
        == Duplicates(reasons["duplicate_selection_id"], |RepeatedContents(w, samples)|,
                      |RepeatedObservations(samples)|, |RepeatedFeatures(samples)|)
  {
    var c := Written(w, codec, seed, sources, ordered, selections, reasons);
    samples := AllDecoded(c, codec);
    WrittenMembers(w, codec, seed, sources, ordered, selections, reasons);
    CountersForgetOrder(w, samples, ordered, selections, selections - |ordered|, reasons);
    SameMembers(samples, ordered);
    forall s | s in samples ensures ValidSample(s) {
      assert Made(w, seed)(s);
    }
    ConservationMeaning(samples, selections);
    DistributionMeaning(samples);
    DuplicatesMeaning(w, samples, reasons);
  }

  /** The counters of a corpus: counted over the samples that its split files hold and over
      the selection events of the journals. */
  lemma ManifestMeaning(journals: seq<seq<Event>>, w: World, codec: Codec, digest: seq<Entry> -> string,
                        seed: string, code: string)
    returns (ix: Indexes, selections: seq<Event>, samples: seq<Sample>)
    requires Faithful(codec) && CorpusOf(journals, w, codec, digest, seed).Ok?
    ensures IndexOf(Concat(journals)) == Ok(ix) && selections == Filter(Concat(journals), IsSelection())
    ensures var c, sampler := CorpusOf(journals, w, codec, digest, seed).value, SamplerOf(ix, w, seed);
      && samples == Decoded(c, codec, Train) + Decoded(c, codec, Validation) + Decoded(c, codec, Test)
      && Conserves(c.manifest.conservation, |selections|, samples)
      && Distributes(c.manifest.distribution, samples)
      && c.manifest.duplicates
        == Duplicates(|Excluded(selections, sampler, "duplicate_selection_id")|, |RepeatedContents(w, samples)|,
                      |RepeatedObservations(samples)|, |RepeatedFeatures(samples)|)
      && c.manifest.reasons[code]
        == if code == "cross_split_semantic_duplicate" then |Outsiders(BuildUpTo(selections, sampler).samples)|
           else |Excluded(selections, sampler, code)|
  {
    ix := IndexOf(Concat(journals)).value;
    selections := Filter(Concat(journals), IsSelection());
    var b := BuildUpTo(selections, SamplerOf(ix, w, seed));
    OrderedIsFit(selections, ix, w, seed);
    samples := WrittenMeaning(w, codec, seed, SourcesOf(w, digest, journals), Ordered(b), |selections|, Reasons(b));
    ReasonsMeaning(selections, ix, w, seed, code);
    ReasonsMeaning(selections, ix, w, seed, "duplicate_selection_id");
  }

  // ----- what the fingerprint of a journal digests --------------------------------------

  /** `k` is the last position in a list whose entry has the id. */
  ghost predicate LastAt(listed: seq<RawCandidate>, id: string, k: nat) {
    k < |listed| && listed[k].id == Some(id) && forall i :: k < i < |listed| ==> listed[i].id != Some(id)
  }

  ghost predicate ListsFor(e: Event, k: SelectionKey) {
    e.run == k.0 && e.episode == k.1 && e.body.CandidatesBody? && e.body.key == Some(k.2) && e.body.candidates.Some?
  }

  /** The j-th event is the last candidate list of an intent. */
  ghost predicate LastListFor(events: seq<Event>, k: SelectionKey, j: nat) {
    j < |events| && ListsFor(events[j], k) && forall i :: j < i < |events| ==> !ListsFor(events[i], k)
  }

  ghost predicate Unlisted(listed: seq<RawCandidate>, id: string) {
    forall k :: 0 <= k < |listed| ==> listed[k].id != Some(id)
  }

  /** A candidate id is shown as its last position in the last list of its intent. */
  ghost predicate Ranked(events: seq<Event>, run: string, episode: string, intent: string, id: string,
                         ordinal: Ordinal)
  {
    match ordinal
    case NoCandidate => false
    case At(k) => exists j: nat :: LastListFor(events, (run, episode, intent), j)
                           && LastAt(events[j].body.candidates.value, id, k)
    case OutsideDomain =>
      forall j: nat :: LastListFor(events, (run, episode, intent), j) ==> Unlisted(events[j].body.candidates.value, id)
  }

  lemma {:induction false} OrdinalsMeaning(listed: seq<RawCandidate>, id: string)
    ensures id in OrdinalsOf(listed) <==> exists k :: 0 <= k < |listed| && listed[k].id == Some(id)
    ensures id in OrdinalsOf(listed) ==> LastAt(listed, id, OrdinalsOf(listed)[id])
  {
    if listed != [] {
      var n := |listed| - 1;
      OrdinalsMeaning(listed[..n], id);
      assert forall k :: 0 <= k < n ==> listed[..n][k] == listed[k];
    }
  }

  lemma {:induction false} KnownMeaning(events: seq<Event>, k: SelectionKey)
    returns (j: nat)
    ensures k in CandidateOrdinals(events) ==>
      LastListFor(events, k, j) && CandidateOrdinals(events)[k] == OrdinalsOf(events[j].body.candidates.value)
    ensures k !in CandidateOrdinals(events) ==> forall i :: 0 <= i < |events| ==> !ListsFor(events[i], k)
  {
    if events == [] {
      return 0;
    }
    var n := |events| - 1;
    j := KnownMeaning(events[..n], k);
    assert forall i :: 0 <= i < n ==> events[..n][i] == events[i];
    if ListsFor(events[n], k) {
      j := n;
    } else {
      assert CandidatesKeyOf(events[n]) == Some(k) ==> CandidatesIn(events[n]).None?;
    }
  }

  lemma RankedMeaning(events: seq<Event>, run: string, episode: string, intent: string, id: string)
    ensures Ranked(events, run, episode, intent, id, OrdinalIn(CandidateOrdinals(events), (run, episode, intent), id))
  {
    var known, key := CandidateOrdinals(events), (run, episode, intent);
    var j := KnownMeaning(events, key);
    if key in known {
      OrdinalsMeaning(events[j].body.candidates.value, id);
      assert forall i: nat :: LastListFor(events, key, i) ==> i == j;
      assert LastListFor(events, key, j);
    }
  }

  /** A free-text code as it may be shown. */
  ghost predicate Redacted(w: World, code: Option<string>, shown: Option<string>) {
    shown == if code.Some? && !w.structured(code.value) then Some("unstructured_code_redacted") else code
  }

  /** What is shown of a choice: no id but the position of the candidate. */
  ghost predicate ChoiceShown(w: World, events: seq<Event>, e: Event, s: Selection, p: Projection) {
    && p.SelectionShown? && p.selected == s.selected && p.executor == s.executor && p.version == s.version
    && Redacted(w, s.reason, p.reason) && p.latency == s.latency
    && if s.candidate.None? then p.chosen == NoCandidate
       else Ranked(events, e.run, e.episode, s.intent, s.candidate.value, p.chosen)
  }

  ghost predicate LineageIsShown(events: seq<Event>, e: Event, l: Lineage, p: Projection) {
    && p.LineageShown? && Ranked(events, e.run, e.episode, l.intent, l.candidate, p.chosen)
    && p == LineageShown(p.chosen, l.role, l.source, l.version, l.executor, l.executorVersion, l.plan != None,
                         l.gameLoop)
  }

  ghost predicate ReportShown(w: World, r: Report, p: Projection) {
    p.ExecutionShown? && Redacted(w, r.code, p.code)
    && p == ExecutionShown(r.status, r.success, r.stage, p.code, r.action, r.source)
  }

  /** Texts are shown redacted, ids and actors not at all. */
  ghost predicate LifecycleIsShown(w: World, b: Body, p: Projection)
    requires b.LifecycleBody?
  {
    && p.LifecycleShown? && Redacted(w, b.text, p.statusText) && Redacted(w, b.reason, p.reason)
    && Redacted(w, b.command.source, p.commandSource) && p.name == b.command.name
    && p.rawPriority == b.command.priority && p.rawTtl == b.command.ttl && p.created == b.command.created
  }

  /** Every entry of a list by position, action and features, if all of them validate. */
  ghost predicate ListShown(listed: seq<RawCandidate>, p: Projection) {
    if exists k :: 0 <= k < |listed| && listed[k].parsed == None then p == Invalid
    else
      && p.CandidatesShown? && |p.entries| == |listed|
      && forall k :: 0 <= k < |listed| ==>
           && listed[k].parsed.Some?
           && p.entries[k] == (k, listed[k].parsed.value.action, listed[k].parsed.value.features)
  }

  /** Features only: kinds of units, names of actions, and no text, picture or tag. */
  ghost predicate ObservationIsShown(o: Observation, p: Projection) {
    p.ObservationShown? && p.protocol == o.protocol && Summarized(p.features, o)
  }

  ghost predicate IntentIsShown(i: Intent, p: Projection) {
    p == IntentShown(i.role, i.source, i.version, i.names, i.priority, i.ttl, i.targetKind, i.role == MacroRole,
                     i.situation != None)
  }

  /** What is shown of the event `e` of a journal. */
  ghost predicate Discloses(w: World, events: seq<Event>, e: Event, kind: string, p: Projection) {
    match e.body
    case ObservationBody(o) => kind == "observation" && if o.None? then p == Invalid else ObservationIsShown(o.value, p)
    case IntentBody(_, i) => kind == "intent_emitted" && if i.None? then p == Invalid else IntentIsShown(i.value, p)
    case CandidatesBody(_, listed) =>
      kind == "candidate_set_built" && if listed.None? then p == Invalid else ListShown(listed.value, p)
    case SelectionBody(_, s) =>
      kind == "executor_selection" && if s.None? then p == Invalid else ChoiceShown(w, events, e, s.value, p)
    case LineageBody(_, l) =>
      kind == "command_lineage" && if l.None? then p == Invalid else LineageIsShown(events, e, l.value, p)
    case ExecutionBody(_, r) => kind == "execution" && if r.None? then p == Invalid else ReportShown(w, r.value, p)
    case LifecycleBody(_, _, _, _, _) => kind == "command_lifecycle" && LifecycleIsShown(w, e.body, p)
    case OtherBody(name) => kind == name && p == MetadataOnly
  }

  lemma {:induction false} ListMeaning(listed: seq<RawCandidate>)
    ensures ListShown(listed, ShowCandidates(Some(listed)))
    ensures Shown(listed).None? <==> exists k :: 0 <= k < |listed| && listed[k].parsed == None
  {
    if listed != [] {
      var n := |listed| - 1;
      ListMeaning(listed[..n]);
      assert forall k :: 0 <= k < n ==> listed[..n][k] == listed[k];
    }
  }

  lemma ShowMeaning(w: World, events: seq<Event>, e: Event)
    ensures Discloses(w, events, e, KindOf(e.body), Show(w, e, CandidateOrdinals(events)))
  {
    match e.body
    case ObservationBody(o) =>
      if o.Some? {
        CompactedMeaning(o.value);
      }
    case CandidatesBody(_, listed) =>
      if listed.Some? {
        ListMeaning(listed.value);
      }
    case SelectionBody(_, s) =>
      if s.Some? && s.value.candidate.Some? {
        RankedMeaning(events, e.run, e.episode, s.value.intent, s.value.candidate.value);
      }
    case LineageBody(_, l) =>
      if l.Some? {
        RankedMeaning(events, e.run, e.episode, l.value.intent, l.value.candidate);
      }
    case _ =>
  }

  lemma {:induction false} EntryAt(w: World, events: seq<Event>, known: map<SelectionKey, Ordinals>, n: nat)
    requires n < |events|
    ensures |Entries(w, events, known)| == |events|
    ensures var e := events[n];
      Entries(w, events, known)[n] == Entry(n, KindOf(e.body), e.run, e.episode, e.step, Show(w, e, known))
  {
    var last := |events| - 1;
    if n < last {
      EntryAt(w, events[..last], known, n);
    } else if last > 0 {
      EntryAt(w, events[..last], known, 0);
    }
  }

  /** The fingerprint of a journal digests one entry for each event, in order, and of its
      payload only what is listed here. */
  lemma SourceEntriesMeaning(w: World, events: seq<Event>, n: nat)
    requires n < |events|
    ensures |SourceEntries(w, events)| == |events|
    ensures var entry, e := SourceEntries(w, events)[n], events[n];
      && entry.ordinal == n && entry.run == e.run && entry.episode == e.episode && entry.step == e.step
      && Discloses(w, events, e, entry.kind, entry.shown)
  {
    EntryAt(w, events, CandidateOrdinals(events), n);
    ShowMeaning(w, events, events[n]);
  }
}
