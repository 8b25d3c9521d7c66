/** Building a corpus end to end: whatever is built, the verifier accepts. */
module CorpusTheorems {
  import opened CorpusBuild
  import opened CorpusFiles
  import opened CorpusModel
  import opened CorpusSource
  import opened CorpusVerify
  import opened Counting
  import opened Ordering

  datatype BuildError =
    | NoSources | EmptySeed | DuplicateIdentity(key: Key) | NoSamples(reasons: multiset<string>)
    | FailedVerification(faults: seq<Fault>)

  function IsSelection(): Event -> bool { (e: Event) => e.body.SelectionBody? }

  function Concat(journals: seq<seq<Event>>): seq<Event> {
    if journals == [] then [] else Concat(journals[..|journals| - 1]) + journals[|journals| - 1]
  }

  function SourceOf(w: World, digest: seq<Entry> -> string, events: seq<Event>): Source {
    Source(digest(SourceEntries(w, events)), |events|, |Filter(events, IsSelection())|)
  }

  function SourcesOf(w: World, digest: seq<Entry> -> string, journals: seq<seq<Event>>): seq<Source> {
    if journals == [] then []
    else SourcesOf(w, digest, journals[..|journals| - 1]) + [SourceOf(w, digest, journals[|journals| - 1])]
  }

  /** The samples that are written, in canonical order. */
  function Ordered(b: Built): seq<Sample> {
    Sort(Staying(b.samples), ByPlace())
  }

  function Dropped(b: Built): nat {
    |b.samples| - |Staying(b.samples)|
  }

  function Reasons(b: Built): multiset<string> {
    b.exclusions + multiset{}[CROSS_SPLIT := Dropped(b)]
  }

  /** The corpus of a list of journals. */
  function CorpusOf(journals: seq<seq<Event>>, w: World, codec: Codec, digest: seq<Entry> -> string, seed: string)
    : Result<Corpus, BuildError>
  {
    if journals == [] then Err(NoSources)
    else if seed == "" then Err(EmptySeed)
    else
      var events := Concat(journals);
      match IndexOf(events)
      case Err(key) => Err(DuplicateIdentity(key))
      case Ok(ix) =>
        var selections := Filter(events, IsSelection());
        var b := BuildUpTo(selections, SamplerOf(ix, w, seed));
        if Ordered(b) == [] then Err(NoSamples(Reasons(b)))
        else Ok(Written(w, codec, seed, SourcesOf(w, digest, journals), Ordered(b), |selections|, Reasons(b)))
  }

  ghost predicate InjectiveIds(w: World) {
    forall p, q :: w.sample(p) == w.sample(q) ==> p == q
  }

  // ----- what the written samples satisfy -----------------------------------------------

  lemma {:induction false} FilterKeepsUnique(samples: seq<Sample>, p: Sample -> bool)
    requires UniqueSelections(samples)
    ensures UniqueSelections(Filter(samples, p))
  {
    if samples != [] {
      var n := |samples| - 1;
      var init := Filter(samples[..n], p);
      FilterKeepsUnique(samples[..n], p);
      FilterMembers(samples[..n], p);
      forall s | s in init ensures s.choice.id != samples[n].choice.id {
        var i :| 0 <= i < n && samples[..n][i] == s;
        assert samples[i].choice.id != samples[n].choice.id;
      }
    }
  }

  lemma PermutationKeepsUnique(a: seq<Sample>, b: seq<Sample>)
    requires multiset(a) == multiset(b) && UniqueSelections(a)
    ensures UniqueSelections(b)
  {
    SameMembers(a, b);
    CountsDistinct(a, ChoiceIdOf());
    CountsDistinct(b, ChoiceIdOf());
    assert (set s | s in a :: ChoiceIdOf()(s)) == (set s | s in b :: ChoiceIdOf()(s));
    assert forall i, j :: 0 <= i < j < |a| ==> ChoiceIdOf()(a[i]) != ChoiceIdOf()(a[j]);
    forall i, j | 0 <= i < j < |b| ensures b[i].choice.id != b[j].choice.id {
      assert ChoiceIdOf()(b[i]) != ChoiceIdOf()(b[j]);
    }
  }

  ghost predicate Fit(w: World, seed: string, ordered: seq<Sample>) {
    && Sorted(ordered, ByPlace()) && UniqueSelections(ordered) && All(ordered, Made(w, seed))
      && SemanticsIsolated(ordered)
  }

  /** The samples that stay, sorted, are well made, unique and isolated; the reasons count
      exactly those that did not. */
  lemma OrderedIsFit(selections: seq<Event>, ix: Indexes, w: World, seed: string)
    ensures var b := BuildUpTo(selections, SamplerOf(ix, w, seed));
      && Fit(w, seed, Ordered(b))
      && |Ordered(b)| + |Reasons(b)| == |selections|
      && Reasons(b)[DUPLICATE_SELECTION] == b.duplicates
      && multiset(Ordered(b)) == multiset(Staying(b.samples))
  {
    var b := BuildUpTo(selections, SamplerOf(ix, w, seed));
    BuildConserves(selections, SamplerOf(ix, w, seed), Made(w, seed));
    StayingIsFit(b, w, seed);
  }

  lemma StayingIsFit(b: Built, w: World, seed: string)
    requires UniqueSelections(b.samples) && All(b.samples, Made(w, seed)) && b.exclusions[CROSS_SPLIT] == 0
    ensures Fit(w, seed, Ordered(b)) && multiset(Ordered(b)) == multiset(Staying(b.samples))
    ensures |Ordered(b)| + |Reasons(b)| == |b.samples| + |b.exclusions|
    ensures Reasons(b)[DUPLICATE_SELECTION] == b.exclusions[DUPLICATE_SELECTION]
  {
    var kept := Staying(b.samples);
    ByPlaceIsAKeyOrder();
    SortSorts(kept, ByPlace());
    SameMembers(kept, Ordered(b));
    FilterKeepsUnique(b.samples, StaysAmong(b.samples));
    PermutationKeepsUnique(kept, Ordered(b));
    FilterMembers(b.samples, StaysAmong(b.samples));
    forall s, t | s in Ordered(b) && t in Ordered(b) && s.semantic == t.semantic ensures s.split == t.split {
      StayingIsIsolated(b.samples, s, t);
    }
  }

  // ----- whatever is written is sound ---------------------------------------------------

  lemma {:induction false} FilterKeepsSorted(samples: seq<Sample>, p: Sample -> bool)
    requires Sorted(samples, ByPlace())
    ensures Sorted(Filter(samples, p), ByPlace())
  {
    if samples != [] {
      var n := |samples| - 1;
      FilterKeepsSorted(samples[..n], p);
      FilterMembers(samples[..n], p);
      forall s | s in Filter(samples[..n], p) ensures !ByPlace()(samples[n], s) {
        var i :| 0 <= i < n && samples[..n][i] == s;
        assert !ByPlace()(samples[n], samples[i]);
      }
    }
  }

  function TrainOrValidation(): Sample -> bool { (s: Sample) => s.split != Test }

  function Any(): Sample -> bool { (s: Sample) => true }

  lemma SplitsPartition(ordered: seq<Sample>)
    ensures multiset(Filter(ordered, InSplit(Train)) + Filter(ordered, InSplit(Validation))
      + Filter(ordered, InSplit(Test)))
         == multiset(ordered)
  {
    FilterUnion(ordered, InSplit(Train), InSplit(Validation), TrainOrValidation());
    FilterUnion(ordered, TrainOrValidation(), InSplit(Test), Any());
    FilterAll(ordered, Any());
  }

  lemma FilterIsDecoded(codec: Codec, w: World, seed: string, ordered: seq<Sample>, split: Split)
    requires Faithful(codec) && All(ordered, Made(w, seed))
    ensures codec.decode(FileText(codec, ordered, split)) == Some(Filter(ordered, InSplit(split)))
  {
    FilterMembers(ordered, InSplit(split));
    forall s | s in Filter(ordered, InSplit(split)) ensures Valid()(s) {
      assert Made(w, seed)(s);
    }
  }

  lemma WrittenSplitIsSound(w: World, codec: Codec, seed: string, sources: seq<Source>, ordered: seq<Sample>,
                            selections: nat,
                            reasons: multiset<string>, split: Split)
    requires Faithful(codec) && Fit(w, seed, ordered)
    ensures var c := Written(w, codec, seed, sources, ordered, selections, reasons);
      SplitSound(c, codec, w, split) && Decoded(c, codec, split) == Filter(ordered, InSplit(split))
  {
    var samples := Filter(ordered, InSplit(split));
    FilterIsDecoded(codec, w, seed, ordered, split);
    FilterKeepsSorted(ordered, InSplit(split));
    FilterKeepsUnique(ordered, InSplit(split));
    SortedStays(samples);
    FilterMembers(ordered, InSplit(split));
    forall s | s in samples ensures SampleSound(w, split, s) {
      assert Made(w, seed)(s);
    }
  }

  lemma FitIsIsolated(w: World, seed: string, ordered: seq<Sample>, samples: seq<Sample>)
    requires InjectiveIds(w) && Fit(w, seed, ordered) && multiset(samples) == multiset(ordered)
    ensures EpisodesIsolated(samples) && SemanticsIsolated(samples) && PolicyKept(w, seed, samples)
    ensures UniqueIds(samples) && UniqueSelections(samples) && forall s :: s in samples ==> ChoosesWithin(s)
  {
    SameMembers(samples, ordered);
    PermutationKeepsUnique(ordered, samples);
    forall s | s in samples ensures WellMade(w, seed, s) {
      assert Made(w, seed)(s);
    }
    forall i, j | 0 <= i < j < |samples| ensures samples[i].id != samples[j].id {
      assert samples[i] in samples && samples[j] in samples;
      assert samples[i].choice.id != samples[j].choice.id;
    }
  }

  lemma WrittenCountersAgree(w: World, codec: Codec, seed: string, sources: seq<Source>, ordered: seq<Sample>,
                             selections: nat,
                             reasons: multiset<string>, samples: seq<Sample>)
    requires multiset(samples) == multiset(ordered) && |ordered| + |reasons| == selections
    ensures CountersAgree(Written(w, codec, seed, sources, ordered, selections, reasons), codec, w, samples)
  {
    CountersForgetOrder(w, samples, ordered, selections, selections - |ordered|, reasons);
    SameMembers(samples, ordered);
  }

  /** The producer meets the checker: fit samples, however many were excluded, are written
      as a sound corpus. */
  lemma WrittenIsSound(w: World, codec: Codec, seed: string, sources: seq<Source>, ordered: seq<Sample>,
                       selections: nat,
                       reasons: multiset<string>)
    requires Faithful(codec) && InjectiveIds(w) && Fit(w, seed, ordered) && |ordered| + |reasons| == selections
    ensures Sound(Written(w, codec, seed, sources, ordered, selections, reasons), codec, w)
  {
    var c := Written(w, codec, seed, sources, ordered, selections, reasons);
    WrittenSplitIsSound(w, codec, seed, sources, ordered, selections, reasons, Train);
    WrittenSplitIsSound(w, codec, seed, sources, ordered, selections, reasons, Validation);
    WrittenSplitIsSound(w, codec, seed, sources, ordered, selections, reasons, Test);
    SplitsPartition(ordered);
    FitIsIsolated(w, seed, ordered, AllDecoded(c, codec));
    WrittenCountersAgree(w, codec, seed, sources, ordered, selections, reasons, AllDecoded(c, codec));
  }

  /** Every corpus that building yields is sound, so the verifier reports nothing about it. */
  lemma BuiltIsSound(journals: seq<seq<Event>>, w: World, codec: Codec, digest: seq<Entry> -> string, seed: string)
    requires Faithful(codec) && InjectiveIds(w)
    requires CorpusOf(journals, w, codec, digest, seed).Ok?
    ensures Sound(CorpusOf(journals, w, codec, digest, seed).value, codec, w)
  {
    var events := Concat(journals);
    var ix := IndexOf(events).value;
    var selections := Filter(events, IsSelection());
    var b := BuildUpTo(selections, SamplerOf(ix, w, seed));
    OrderedIsFit(selections, ix, w, seed);
    WrittenIsSound(w, codec, seed, SourcesOf(w, digest, journals), Ordered(b), |selections|, Reasons(b));
  }

  /** Removing semantic duplicates never empties a corpus: there are no samples to write only
      when no selection gave one. */
  lemma EmptyOnlyWithoutSamples(b: Built)
    ensures Ordered(b) == [] <==> b.samples == []
  {
    ByPlaceIsAKeyOrder();
    SortSorts(Staying(b.samples), ByPlace());
    SameMembers(Staying(b.samples), Ordered(b));
    if b.samples != [] {
      OwnersStay(b.samples, b.samples[0]);
    }
  }

  // ----- building -----------------------------------------------------------------------

  /** The builder; its final verification cannot fail. */
  method Build(journals: seq<seq<Event>>, w: World, codec: Codec, digest: seq<Entry> -> string, seed: string)
    returns (r: Result<Corpus, BuildError>)
    requires Faithful(codec) && InjectiveIds(w)
    ensures r == CorpusOf(journals, w, codec, digest, seed)
    ensures r.Ok? ==> Sound(r.value, codec, w)
    ensures r.Err? ==> !r.error.FailedVerification?
  {
    if journals == [] {
      return Err(NoSources);
    }
    if seed == "" {
      return Err(EmptySeed);
    }
    var events := Concat(journals);
    var index := IndexEvents(events);
    if index.Err? {
      return Err(DuplicateIdentity(index.error));
    }
    var ix := index.value;
    var selections := Filter(events, IsSelection());
    var b := BuildSamples(selections, SamplerOf(ix, w, seed));
    var retained, excluded := ExcludeCrossSplit(b.samples);
    var ordered := Sort(retained, ByPlace());
    var reasons := b.exclusions + excluded;
    RetainedIsOrdered(selections, ix, w, seed, retained, excluded);
    if ordered == [] {
      return Err(NoSamples(reasons));
    }
    var corpus := Written(w, codec, seed, SourcesOf(w, digest, journals), ordered, |selections|, reasons);
    BuiltIsSound(journals, w, codec, digest, seed);
    var faults := Verify(corpus, codec, w);
    if faults != [] {
      return Err(FailedVerification(faults));
    }
    return Ok(corpus);
  }

  lemma StayingIsSorted(samples: seq<Sample>, retained: seq<Sample>)
    requires UniqueSelections(samples) && multiset(retained) == multiset(Staying(samples))
    ensures Sort(retained, ByPlace()) == Sort(Staying(samples), ByPlace())
  {
    FilterKeepsUnique(samples, StaysAmong(samples));
    PermutationKeepsUnique(Staying(samples), retained);
    ByPlaceIsAKeyOrder();
    PlacesAreTieFree(retained);
    SortForgetsOrder(retained, Staying(samples), ByPlace());
  }

  lemma RetainedIsOrdered(selections: seq<Event>, ix: Indexes, w: World, seed: string, retained: seq<Sample>,
                          excluded: multiset<string>)
    requires var samples := BuildUpTo(selections, SamplerOf(ix, w, seed)).samples;
      multiset(retained) == multiset(Staying(samples)) && |retained| + |excluded| == |samples|
    requires forall r :: r in excluded ==> r == CROSS_SPLIT
    ensures var b := BuildUpTo(selections, SamplerOf(ix, w, seed));
      Sort(retained, ByPlace()) == Ordered(b) && b.exclusions + excluded == Reasons(b)
  {
    var b := BuildUpTo(selections, SamplerOf(ix, w, seed));
    BuildConserves(selections, SamplerOf(ix, w, seed), Made(w, seed));
    StayingIsSorted(b.samples, retained);
    assert |multiset(retained)| == |multiset(Staying(b.samples))|;
    OnlyOneReason(excluded, CROSS_SPLIT);
  }

  lemma OnlyOneReason(m: multiset<string>, reason: string)
    requires forall r :: r in m ==> r == reason
    ensures m == multiset{}[reason := |m|]
  {
    var n := m[reason];
    assert m == multiset{}[reason := n];
  }
}
