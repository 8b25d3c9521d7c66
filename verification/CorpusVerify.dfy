/** The independent verifier of a corpus, proved to accept exactly the sound ones. */
module CorpusVerify {
  import opened CorpusBuild
  import opened CorpusFiles
  import opened CorpusModel
  import opened Counting
  import opened Ordering

  datatype Fault =
    | MissingArtifact(split: Split) | MissingFile(split: Split) | WrongHash(split: Split) | Undecodable(split: Split)
    | WrongCount(split: Split) | NotCanonical(split: Split) | OutOfOrder(split: Split)
    | WrongSplit(id: string) | WrongSemantic(id: string) | WrongId(id: string)
    | EpisodeSpans(run: string, episode: string) | SemanticSpans(semantic: string) | PolicyBroken(id: string)
    | DuplicateIds | DuplicateSelections | ChoiceOutside(id: string)
    | WrongDuplicates | ReasonsDiffer | SelectionsDiffer | IncludedDiffers | LabelsDiffer | DistributionDiffers
    | WrongFingerprint

  // ----- what each fault says -----------------------------------------------------------

  ghost predicate SampleAmiss(w: World, split: Split, s: Sample, f: Fault) {
    || (f == WrongSplit(s.id) && s.split != split)
    || (f == WrongSemantic(s.id) && s.semantic != w.semantic(s.features))
    || (f == WrongId(s.id) && s.id != ExpectedId(w, s))
  }

  ghost predicate SamplesAmiss(w: World, split: Split, samples: seq<Sample>, f: Fault) {
    exists i :: 0 <= i < |samples| && SampleAmiss(w, split, samples[i], f)
  }

  /** What is wrong with a split file that is there. */
  ghost predicate FileAmiss(artifact: Artifact, text: string, codec: Codec, w: World, split: Split, f: Fault) {
    || (f == WrongHash(split) && codec.sha(text) != artifact.sha)
    || (f == Undecodable(split) && codec.decode(text).None?)
    || (codec.decode(text).Some?
        && var samples := codec.decode(text).value;
           || (f == WrongCount(split) && |samples| != artifact.count)
           || (f == NotCanonical(split) && codec.encode(samples) != text)
           || (f == OutOfOrder(split) && samples != Sort(samples, ByPlace()))
           || SamplesAmiss(w, split, samples, f))
  }

  ghost predicate SplitAmiss(c: Corpus, codec: Codec, w: World, split: Split, f: Fault) {
    if split !in c.manifest.artifacts then f == MissingArtifact(split)
    else if split !in c.files then f == MissingFile(split)
    else FileAmiss(c.manifest.artifacts[split], c.files[split], codec, w, split, f)
  }

  /** Some key is in two splits, and the fault is the one for that key. */
  ghost predicate SpreadAmiss<K>(samples: seq<Sample>, key: Sample -> K, fault: K -> Fault, f: Fault) {
    exists i, k :: 0 <= i < |samples| && 0 <= k < |samples| && key(samples[i]) == key(samples[k])
                && samples[i].split != samples[k].split && f == fault(key(samples[i]))
  }

  ghost predicate PolicyAmiss(w: World, seed: string, samples: seq<Sample>, f: Fault) {
    exists i :: 0 <= i < |samples| && f == PolicyBroken(samples[i].id)
             && samples[i].split != w.split(seed, samples[i].run, samples[i].episode)
  }

  ghost predicate ChoiceAmiss(samples: seq<Sample>, f: Fault) {
    exists i :: 0 <= i < |samples| && f == ChoiceOutside(samples[i].id)
             && samples[i].choice.candidate.Some?
             && forall c :: c in samples[i].candidates ==> c.id != samples[i].choice.candidate.value
  }

  ghost predicate UniquenessAmiss(samples: seq<Sample>, f: Fault) {
    || (f == DuplicateIds && !UniqueIds(samples))
    || (f == DuplicateSelections && !UniqueSelections(samples))
    || ChoiceAmiss(samples, f)
  }

  /** Recorded counters that are not the ones computed from the samples. */
  ghost predicate CountersDiffer(m: Manifest, n: nat, duplicates: Duplicates, conservation: Conservation,
                                 distribution: Distribution, f: Fault)
  {
    || (f == WrongDuplicates && duplicates != m.duplicates)
    || (f == ReasonsDiffer && |m.reasons| != m.conservation.excluded)
    || (f == SelectionsDiffer && n + m.conservation.excluded != m.conservation.selections)
    || (f == IncludedDiffers && n != m.conservation.included)
    || (f == LabelsDiffer && conservation != m.conservation)
    || (f == DistributionDiffers && distribution != m.distribution)
  }

  ghost predicate CountersAmiss(m: Manifest, w: World, samples: seq<Sample>, f: Fault) {
    CountersDiffer(m, |samples|, DuplicatesOf(w, samples, m.reasons),
                   ConservationOf(samples, m.conservation.selections, m.conservation.excluded),
                   DistributionOf(samples), f)
  }

  ghost predicate Amiss(c: Corpus, codec: Codec, w: World, f: Fault) {
    var samples := AllDecoded(c, codec);
    || SplitAmiss(c, codec, w, Train, f) || SplitAmiss(c, codec, w, Validation, f) || SplitAmiss(c, codec, w, Test, f)
    || SpreadAmiss(samples, EpisodeOf(), SpannedEpisode(), f)
    || SpreadAmiss(samples, SemanticOf(), SpannedSemantic(), f)
    || PolicyAmiss(w, c.manifest.seed, samples, f) || UniquenessAmiss(samples, f)
    || CountersAmiss(c.manifest, w, samples, f)
    || (f == WrongFingerprint && !FingerprintAgrees(c, codec))
  }

  function SpannedEpisode(): ((string, string)) -> Fault {
    (k: (string, string)) => EpisodeSpans(k.0, k.1)
  }

  function SpannedSemantic(): string -> Fault {
    (k: string) => SemanticSpans(k)
  }

  // ----- per sample and per split -------------------------------------------------------

  method CheckSample(w: World, split: Split, s: Sample) returns (errors: seq<Fault>)
    ensures forall f :: f in errors <==> SampleAmiss(w, split, s, f)
    ensures errors == [] <==> SampleSound(w, split, s)
  {
    errors := [];
    if s.split != split {
      errors := errors + [WrongSplit(s.id)];
    }
    if s.semantic != w.semantic(s.features) {
      errors := errors + [WrongSemantic(s.id)];
    }
    if s.id != ExpectedId(w, s) {
      errors := errors + [WrongId(s.id)];
    }
  }

  method CheckSamples(w: World, split: Split, samples: seq<Sample>) returns (errors: seq<Fault>)
    ensures forall f :: f in errors <==> SamplesAmiss(w, split, samples, f)
    ensures errors == [] <==> forall s :: s in samples ==> SampleSound(w, split, s)
  {
    errors := [];
    for i := 0 to |samples|
      invariant forall f :: f in errors <==> exists k :: 0 <= k < i && SampleAmiss(w, split, samples[k], f)
      invariant errors == [] <==> forall s :: s in samples[..i] ==> SampleSound(w, split, s)
    {
      assert samples[..i + 1] == samples[..i] + [samples[i]];
      var more := CheckSample(w, split, samples[i]);
      errors := errors + more;
    }
    assert samples[..|samples|] == samples;
  }

  method CheckSplit(c: Corpus, codec: Codec, w: World, split: Split) returns (errors: seq<Fault>, samples: seq<Sample>)
    ensures forall f :: f in errors <==> SplitAmiss(c, codec, w, split, f)
    ensures errors == [] <==> SplitSound(c, codec, w, split)
    ensures samples == Decoded(c, codec, split)
  {
    errors, samples := [], [];
    if split !in c.manifest.artifacts {
      return [MissingArtifact(split)], [];
    }
    if split !in c.files {
      return [MissingFile(split)], [];
    }
    var artifact, text := c.manifest.artifacts[split], c.files[split];
    if codec.sha(text) != artifact.sha {
      errors := errors + [WrongHash(split)];
    }
    if codec.decode(text).None? {
      return errors + [Undecodable(split)], [];
    }
    samples := codec.decode(text).value;
    if |samples| != artifact.count {
      errors := errors + [WrongCount(split)];
    }
    if text != codec.encode(samples) {
      errors := errors + [NotCanonical(split)];
    }
    if samples != Sort(samples, ByPlace()) {
      errors := errors + [OutOfOrder(split)];
    }
    var more := CheckSamples(w, split, samples);
    errors := errors + more;
  }

  // ----- isolation ----------------------------------------------------------------------

  /** The splits in which each key occurs. */
  function SplitsBy<K(==)>(samples: seq<Sample>, key: Sample -> K): map<K, set<Split>> {
    if samples == [] then map[]
    else
      var before := SplitsBy(samples[..|samples| - 1], key);
      var s := samples[|samples| - 1];
      before[key(s) := (if key(s) in before then before[key(s)] else {}) + {s.split}]
  }

  lemma {:induction false} SplitsByMeaning<K>(samples: seq<Sample>, key: Sample -> K)
    ensures forall s :: s in samples ==> key(s) in SplitsBy(samples, key) && s.split in SplitsBy(samples, key)[key(s)]
    ensures forall k, split :: k in SplitsBy(samples, key) && split in SplitsBy(samples, key)[k] ==>
      InSplitBy(samples, key, k, split)
    ensures forall k :: k in SplitsBy(samples, key) ==> SplitsBy(samples, key)[k] != {}
  {
    if samples != [] {
      var n := |samples| - 1;
      var s := samples[n];
      var before, after := SplitsBy(samples[..n], key), SplitsBy(samples, key);
      SplitsByMeaning(samples[..n], key);
      assert samples == samples[..n] + [s];
      forall k, split | k in after && split in after[k] ensures InSplitBy(samples, key, k, split) {
        if k in before && split in before[k] {
          assert InSplitBy(samples[..n], key, k, split);
        } else {
          assert s in samples && key(s) == k && s.split == split;
        }
      }
    }
  }

  ghost predicate InSplitBy<K>(samples: seq<Sample>, key: Sample -> K, k: K, split: Split) {
    exists s :: s in samples && key(s) == k && s.split == split
  }

  ghost predicate IsolatedBy<K>(samples: seq<Sample>, key: Sample -> K) {
    forall s, t :: s in samples && t in samples && key(s) == key(t) ==> s.split == t.split
  }

  lemma IsolationMeaning<K>(samples: seq<Sample>, key: Sample -> K)
    ensures IsolatedBy(samples, key) <==> forall k :: k in SplitsBy(samples, key) ==> |SplitsBy(samples, key)[k]| == 1
  {
    if IsolatedBy(samples, key) {
      forall k | k in SplitsBy(samples, key) ensures |SplitsBy(samples, key)[k]| == 1 {
        IsolatedIsSingle(samples, key, k);
      }
    } else {
      var s, t :| s in samples && t in samples && key(s) == key(t) && s.split != t.split;
      SpreadIsNotSingle(samples, key, s, t);
    }
  }

  lemma IsolatedIsSingle<K>(samples: seq<Sample>, key: Sample -> K, k: K)
    requires IsolatedBy(samples, key) && k in SplitsBy(samples, key)
    ensures |SplitsBy(samples, key)[k]| == 1
  {
    SplitsByMeaning(samples, key);
    var splits := SplitsBy(samples, key)[k];
    var split :| split in splits;
    forall other | other in splits ensures other == split {
      assert InSplitBy(samples, key, k, split) && InSplitBy(samples, key, k, other);
    }
    assert splits == {split};
  }

  lemma SpreadIsNotSingle<K>(samples: seq<Sample>, key: Sample -> K, s: Sample, t: Sample)
    requires s in samples && t in samples && key(s) == key(t) && s.split != t.split
    ensures key(s) in SplitsBy(samples, key) && |SplitsBy(samples, key)[key(s)]| != 1
  {
    SplitsByMeaning(samples, key);
    TwoAreMore(SplitsBy(samples, key)[key(s)], s.split, t.split);
  }

  lemma TwoAreMore(s: set<Split>, a: Split, b: Split)
    requires a in s && b in s && a != b
    ensures |s| != 1
  {
    assert |s - {a}| == |s| - 1 && b in s - {a};
  }

  lemma SpreadMeaning<K>(samples: seq<Sample>, key: Sample -> K, fault: K -> Fault)
    ensures forall f :: SpreadAmiss(samples, key, fault, f) <==>
      exists k :: k in SplitsBy(samples, key) && |SplitsBy(samples, key)[k]| != 1 && f == fault(k)
  {
    SplitsByMeaning(samples, key);
    forall f | SpreadAmiss(samples, key, fault, f)
      ensures exists k :: k in SplitsBy(samples, key) && |SplitsBy(samples, key)[k]| != 1 && f == fault(k)
    {
      var i, j :| 0 <= i < |samples| && 0 <= j < |samples| && key(samples[i]) == key(samples[j])
               && samples[i].split != samples[j].split && f == fault(key(samples[i]));
      SpreadIsNotSingle(samples, key, samples[i], samples[j]);
    }
    forall k | k in SplitsBy(samples, key) && |SplitsBy(samples, key)[k]| != 1
      ensures SpreadAmiss(samples, key, fault, fault(k))
    {
      var splits := SplitsBy(samples, key)[k];
      var a, b := TwoOf(splits);
      assert InSplitBy(samples, key, k, a) && InSplitBy(samples, key, k, b);
      var s :| s in samples && key(s) == k && s.split == a;
      var t :| t in samples && key(t) == k && t.split == b;
      var i :| 0 <= i < |samples| && samples[i] == s;
      var j :| 0 <= j < |samples| && samples[j] == t;
    }
  }

  lemma TwoOf(s: set<Split>) returns (a: Split, b: Split)
    requires s != {} && |s| != 1
    ensures a in s && b in s && a != b
  {
    a :| a in s;
    assert |s - {a}| == |s| - 1;
    b :| b in s - {a};
  }

  function EpisodeOf(): Sample -> (string, string) { (s: Sample) => (s.run, s.episode) }

  function SemanticOf(): Sample -> string { (s: Sample) => s.semantic }

  /** Fills the dictionary of splits as the samples come. */
  method CollectSplits<K(==)>(samples: seq<Sample>, key: Sample -> K) returns (splits: map<K, set<Split>>)
    ensures splits == SplitsBy(samples, key)
  {
    splits := map[];
    var i := 0;
    while i < |samples|
      invariant 0 <= i <= |samples|
      invariant splits == SplitsBy(samples[..i], key)
    {
      assert samples[..i + 1][..i] == samples[..i];
      var s := samples[i];
      splits := splits[key(s) := (if key(s) in splits then splits[key(s)] else {}) + {s.split}];
      i := i + 1;
    }
    assert samples[..i] == samples;
  }

  /** One fault for each key that is in more than one split. */
  method SpanFaults<K(==)>(splits: map<K, set<Split>>, fault: K -> Fault) returns (errors: seq<Fault>)
    ensures forall f :: f in errors <==> exists k :: k in splits && |splits[k]| != 1 && f == fault(k)
    ensures errors == [] <==> forall k :: k in splits ==> |splits[k]| == 1
  {
    errors := [];
    var rest := splits.Keys;
    while rest != {}
      invariant rest <= splits.Keys
      invariant forall f :: f in errors <==> exists k :: k in splits && k !in rest && |splits[k]| != 1 && f == fault(k)
      invariant errors == [] <==> forall k :: k in splits && k !in rest ==> |splits[k]| == 1
      decreases rest
    {
      var k :| k in rest;
      if |splits[k]| != 1 {
        errors := errors + [fault(k)];
      }
      rest := rest - {k};
    }
  }

  method SpreadFaults<K(==)>(samples: seq<Sample>, key: Sample -> K, fault: K -> Fault) returns (errors: seq<Fault>)
    ensures forall f :: f in errors <==> SpreadAmiss(samples, key, fault, f)
    ensures errors == [] <==> IsolatedBy(samples, key)
  {
    var splits := CollectSplits(samples, key);
    IsolationMeaning(samples, key);
    SpreadMeaning(samples, key, fault);
    errors := SpanFaults(splits, fault);
  }

  method CheckIsolation(samples: seq<Sample>) returns (errors: seq<Fault>)
    ensures forall f :: f in errors <==>
              SpreadAmiss(samples, EpisodeOf(), SpannedEpisode(), f)
              || SpreadAmiss(samples, SemanticOf(), SpannedSemantic(), f)
    ensures errors == [] <==> EpisodesIsolated(samples) && SemanticsIsolated(samples)
  {
    var episodes := SpreadFaults(samples, EpisodeOf(), SpannedEpisode());
    var semantics := SpreadFaults(samples, SemanticOf(), SpannedSemantic());
    errors := episodes + semantics;
  }

  // ----- policy, uniqueness and counters ------------------------------------------------

  method CheckPolicy(w: World, seed: string, samples: seq<Sample>) returns (errors: seq<Fault>)
    ensures forall f :: f in errors <==> PolicyAmiss(w, seed, samples, f)
    ensures errors == [] <==> PolicyKept(w, seed, samples)
  {
    errors := [];
    for i := 0 to |samples|
      invariant forall f :: f in errors <==>
        exists k :: 0 <= k < i && f == PolicyBroken(samples[k].id)
                 && samples[k].split != w.split(seed, samples[k].run, samples[k].episode)
      invariant errors == [] <==> PolicyKept(w, seed, samples[..i])
    {
      var s := samples[i];
      assert samples[..i + 1] == samples[..i] + [s];
      if s.split != w.split(seed, s.run, s.episode) {
        errors := errors + [PolicyBroken(s.id)];
      }
    }
    assert samples[..|samples|] == samples;
  }

  function IdOf(): Sample -> string { (s: Sample) => s.id }

  function ChoiceIdOf(): Sample -> string { (s: Sample) => s.choice.id }

  lemma CountsDistinct(samples: seq<Sample>, id: Sample -> string)
    ensures |set s | s in samples :: id(s)| <= |samples|
    ensures |set s | s in samples :: id(s)| == |samples|
       <==> forall i, j :: 0 <= i < j < |samples| ==> id(samples[i]) != id(samples[j])
  {
    var repeating := set i | 0 <= i < |samples| && Again(samples, id, i);
    RepeatsCount(samples, id, set s | s in samples :: id(s), repeating);
    if |repeating| == 0 {
      forall i, j | 0 <= i < j < |samples| ensures id(samples[i]) != id(samples[j]) {
        assert j !in repeating;
      }
    } else {
      var j :| j in repeating;
    }
  }

  lemma NothingIn(errors: seq<Fault>)
    ensures errors == [] <==> forall f :: f !in errors
  {
    if errors != [] {
      assert errors[0] in errors;
    }
  }

  lemma ChoicesMeaning(samples: seq<Sample>)
    ensures (forall f :: !ChoiceAmiss(samples, f)) <==> forall s :: s in samples ==> ChoosesWithin(s)
  {
    forall i | 0 <= i < |samples| ensures !ChoosesWithin(samples[i]) ==>
      ChoiceAmiss(samples, ChoiceOutside(samples[i].id)) {
    }
    if f :| ChoiceAmiss(samples, f) {
      var i :| 0 <= i < |samples| && f == ChoiceOutside(samples[i].id)
            && samples[i].choice.candidate.Some?
            && forall c :: c in samples[i].candidates ==> c.id != samples[i].choice.candidate.value;
      assert !ChoosesWithin(samples[i]);
    }
  }

  /** One fault for each sample whose label is not among its candidates. */
  method CheckChoices(samples: seq<Sample>) returns (errors: seq<Fault>)
    ensures forall f :: f in errors <==> ChoiceAmiss(samples, f)
  {
    errors := [];
    for i := 0 to |samples|
      invariant forall f :: f in errors <==>
        exists k :: 0 <= k < i && f == ChoiceOutside(samples[k].id) && samples[k].choice.candidate.Some?
                 && forall c :: c in samples[k].candidates ==> c.id != samples[k].choice.candidate.value
    {
      if !ChoosesWithin(samples[i]) {
        errors := errors + [ChoiceOutside(samples[i].id)];
      }
    }
  }

  method CheckUniqueness(samples: seq<Sample>) returns (errors: seq<Fault>)
    ensures forall f :: f in errors <==> UniquenessAmiss(samples, f)
    ensures errors == [] <==>
      UniqueIds(samples) && UniqueSelections(samples) && forall s :: s in samples ==> ChoosesWithin(s)
  {
    errors := [];
    CountsDistinct(samples, IdOf());
    CountsDistinct(samples, ChoiceIdOf());
    if |set s | s in samples :: IdOf()(s)| != |samples| {
      errors := errors + [DuplicateIds];
    }
    if |set s | s in samples :: ChoiceIdOf()(s)| != |samples| {
      errors := errors + [DuplicateSelections];
    }
    var more := CheckChoices(samples);
    NothingIn(more);
    ChoicesMeaning(samples);
    errors := errors + more;
  }

  method CompareCounters(m: Manifest, n: nat, duplicates: Duplicates, conservation: Conservation,
                         distribution: Distribution)
    returns (errors: seq<Fault>)
    ensures forall f :: f in errors <==> CountersDiffer(m, n, duplicates, conservation, distribution, f)
    ensures errors == [] <==>
      && duplicates == m.duplicates && |m.reasons| == m.conservation.excluded
      && n + m.conservation.excluded == m.conservation.selections && n == m.conservation.included
      && conservation == m.conservation && distribution == m.distribution
  {
    errors := [];
    if duplicates != m.duplicates {
      errors := errors + [WrongDuplicates];
    }
    if |m.reasons| != m.conservation.excluded {
      errors := errors + [ReasonsDiffer];
    }
    if n + m.conservation.excluded != m.conservation.selections {
      errors := errors + [SelectionsDiffer];
    }
    if n != m.conservation.included {
      errors := errors + [IncludedDiffers];
    }
    if conservation != m.conservation {
      errors := errors + [LabelsDiffer];
    }
    if distribution != m.distribution {
      errors := errors + [DistributionDiffers];
    }
  }

  method CheckCounters(c: Corpus, codec: Codec, w: World, samples: seq<Sample>) returns (errors: seq<Fault>)
    ensures forall f :: f in errors <==> CountersAmiss(c.manifest, w, samples, f)
    ensures errors == [] <==> CountersAgree(c, codec, w, samples)
  {
    var m := c.manifest;
    errors := CompareCounters(m, |samples|, DuplicatesOf(w, samples, m.reasons),
                              ConservationOf(samples, m.conservation.selections, m.conservation.excluded),
                              DistributionOf(samples));
  }

  /** The verifier reports exactly what is amiss, and nothing exactly for a sound corpus. */
  method Verify(c: Corpus, codec: Codec, w: World) returns (errors: seq<Fault>)
    ensures forall f :: f in errors <==> Amiss(c, codec, w, f)
    ensures errors == [] <==> Sound(c, codec, w)
  {
    var e0, train := CheckSplit(c, codec, w, Train);
    var e1, validation := CheckSplit(c, codec, w, Validation);
    var e2, test := CheckSplit(c, codec, w, Test);
    var samples := train + validation + test;
    var e3 := CheckIsolation(samples);
    var e4 := CheckPolicy(w, c.manifest.seed, samples);
    var e5 := CheckUniqueness(samples);
    var e6 := CheckCounters(c, codec, w, samples);
    var e7 := if FingerprintAgrees(c, codec) then [] else [WrongFingerprint];
    errors := e0 + e1 + e2 + e3 + e4 + e5 + e6 + e7;
  }
}
