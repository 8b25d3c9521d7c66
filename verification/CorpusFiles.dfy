/** The corpus on disk: the canonical order of samples, the split files, the manifest's
    counters, and what makes a corpus sound. */
module CorpusFiles {
  import opened CorpusBuild
  import opened CorpusModel
  import opened Counting
  import opened Ordering

  // ----- the canonical order ------------------------------------------------------------

  function SplitName(split: Split): string {
    match split
    case Train => "train"
    case Validation => "validation"
    case Test => "test"
  }

  function Place(s: Sample): seq<string> {
    [SplitName(s.split), s.run, s.episode]
  }

  predicate SampleLess(a: Sample, b: Sample) {
    if Place(a) != Place(b) then TupleLess(Place(a), Place(b))
    else if a.step != b.step then a.step < b.step
    else StringLess(a.choice.id, b.choice.id)
  }

  function ByPlace(): (Sample, Sample) -> bool {
    (a, b) => SampleLess(a, b)
  }

  lemma SampleLessAsymmetric(a: Sample, b: Sample)
    ensures SampleLess(a, b) ==> !SampleLess(b, a)
  {
    TupleTrichotomy(Place(a), Place(b));
    StringTrichotomy(a.choice.id, b.choice.id);
  }

  lemma SampleLessSplits(a: Sample, b: Sample, c: Sample)
    requires SampleLess(a, c)
    ensures SampleLess(a, b) || SampleLess(b, c)
  {
    TupleTrichotomy(Place(a), Place(b));
    StringTrichotomy(a.choice.id, b.choice.id);
    if TupleLess(Place(b), Place(a)) && TupleLess(Place(a), Place(c)) {
      TupleTransitive(Place(b), Place(a), Place(c));
    }
    if Place(b) == Place(c) {
      TupleTrichotomy(Place(b), Place(c));
    }
    if StringLess(b.choice.id, a.choice.id) && StringLess(a.choice.id, c.choice.id) {
      StringTransitive(b.choice.id, a.choice.id, c.choice.id);
    }
    TupleTrichotomy(Place(b), Place(c));
  }

  lemma ByPlaceIsAKeyOrder()
    ensures KeyOrder(ByPlace())
  {
    forall a: Sample, b: Sample ensures SampleLess(a, b) ==> !SampleLess(b, a) {
      SampleLessAsymmetric(a, b);
    }
    forall a: Sample, b: Sample, c: Sample | SampleLess(a, c) ensures SampleLess(a, b) || SampleLess(b, c) {
      SampleLessSplits(a, b, c);
    }
  }

  lemma PlacesAreTieFree(samples: seq<Sample>)
    requires UniqueSelections(samples)
    ensures TieFree(samples, ByPlace())
  {
    forall a, b | a in samples && b in samples && a != b ensures SampleLess(a, b) || SampleLess(b, a) {
      TupleTrichotomy(Place(a), Place(b));
      StringTrichotomy(a.choice.id, b.choice.id);
    }
  }

  /** Sorting a sorted list changes nothing. */
  lemma SortedStays(samples: seq<Sample>)
    requires Sorted(samples, ByPlace()) && UniqueSelections(samples)
    ensures Sort(samples, ByPlace()) == samples
  {
    ByPlaceIsAKeyOrder();
    PlacesAreTieFree(samples);
    SortSorts(samples, ByPlace());
    SameMembers(samples, Sort(samples, ByPlace()));
    SortedUnique(samples, Sort(samples, ByPlace()), ByPlace());
  }

  // ----- counters -----------------------------------------------------------------------

  datatype Conservation = Conservation(
    selections: int, included: int, excluded: int, selected: int, abstained: int,
    linked: int, unlinked: int, ended: int, unended: int)

  datatype Distribution = Distribution(
    split: multiset<Split>, selected: multiset<bool>, role: multiset<Role>, chosenAction: multiset<string>,
    candidateAction: multiset<string>, status: multiset<Status>)

  datatype Duplicates = Duplicates(selectionEvents: nat, contents: int, observations: int, semantics: int)

  function IsSelected(): Sample -> bool { (s: Sample) => s.choice.selected }

  function IsLinked(): Sample -> bool { (s: Sample) => s.command.Some? }

  function IsEnded(): Sample -> bool { (s: Sample) => s.outcome.Some? }

  function ConservationOf(samples: seq<Sample>, selections: int, excluded: int): Conservation {
    var n, selected, linked, ended :=
      |samples|, |Filter(samples, IsSelected())|, |Filter(samples, IsLinked())|, |Filter(samples, IsEnded())|;
    Conservation(selections, n, excluded, selected, n - selected, linked, n - linked, ended, n - ended)
  }

  function SplitOf(): Sample -> multiset<Split> { (s: Sample) => multiset{s.split} }

  function StatusOf(): Sample -> multiset<bool> { (s: Sample) => multiset{s.choice.selected} }

  function RoleOf(): Sample -> multiset<Role> { (s: Sample) => multiset{s.role} }

  function ChosenActionOf(): Sample -> multiset<string> {
    (s: Sample) => if SelectedAction(s).Some? then multiset{SelectedAction(s).value} else multiset{}
  }

  function ActionOfCandidate(): CandidateSample -> multiset<string> { (c: CandidateSample) => multiset{c.action} }

  function CandidateActionsOf(): Sample -> multiset<string> { (s: Sample) => Count(s.candidates, ActionOfCandidate()) }

  function EndOf(): Sample -> multiset<Status> {
    (s: Sample) => if s.outcome.Some? then multiset{s.outcome.value.status} else multiset{}
  }

  function DistributionOf(samples: seq<Sample>): Distribution {
    Distribution(Count(samples, SplitOf()), Count(samples, StatusOf()), Count(samples, RoleOf()),
                 Count(samples, ChosenActionOf()), Count(samples, CandidateActionsOf()), Count(samples, EndOf()))
  }

  function DuplicatesOf(w: World, samples: seq<Sample>, reasons: multiset<string>): Duplicates {
    Duplicates(reasons[DUPLICATE_SELECTION], |samples| - |set s | s in samples :: w.content(s)|,
               |samples| - |set s | s in samples :: s.observation|, |samples| - |set s | s in samples :: s.semantic|)
  }

  /** The counters see a collection of samples, not its order: the builder counts the sorted
      list, the verifier the split files one after the other. */
  lemma CountersForgetOrder(w: World, a: seq<Sample>, b: seq<Sample>, selections: int, excluded: int,
                            reasons: multiset<string>)
    requires multiset(a) == multiset(b)
    ensures ConservationOf(a, selections, excluded) == ConservationOf(b, selections, excluded)
    ensures DistributionOf(a) == DistributionOf(b)
    ensures DuplicatesOf(w, a, reasons) == DuplicatesOf(w, b, reasons)
  {
    ConservationForgetsOrder(a, b, selections, excluded);
    DistributionForgetsOrder(a, b);
    DuplicatesForgetOrder(w, a, b, reasons);
  }

  lemma ConservationForgetsOrder(a: seq<Sample>, b: seq<Sample>, selections: int, excluded: int)
    requires multiset(a) == multiset(b)
    ensures ConservationOf(a, selections, excluded) == ConservationOf(b, selections, excluded)
  {
    SameMembers(a, b);
    FilterPermutes(a, b, IsSelected());
    FilterPermutes(a, b, IsLinked());
    FilterPermutes(a, b, IsEnded());
  }

  lemma DuplicatesForgetOrder(w: World, a: seq<Sample>, b: seq<Sample>, reasons: multiset<string>)
    requires multiset(a) == multiset(b)
    ensures DuplicatesOf(w, a, reasons) == DuplicatesOf(w, b, reasons)
  {
    SameMembers(a, b);
    assert (set s | s in a :: w.content(s)) == (set s | s in b :: w.content(s));
    assert (set s | s in a :: s.observation) == (set s | s in b :: s.observation);
    assert (set s | s in a :: s.semantic) == (set s | s in b :: s.semantic);
  }

  lemma DistributionForgetsOrder(a: seq<Sample>, b: seq<Sample>)
    requires multiset(a) == multiset(b)
    ensures DistributionOf(a) == DistributionOf(b)
  {
    CountPermutes(a, b, SplitOf());
    CountPermutes(a, b, StatusOf());
    CountPermutes(a, b, RoleOf());
    CountPermutes(a, b, ChosenActionOf());
    CountPermutes(a, b, CandidateActionsOf());
    CountPermutes(a, b, EndOf());
  }

  // ----- files and manifest -------------------------------------------------------------

  /** The text of a split file, and how it is read back and hashed. */
  datatype Codec = Codec(encode: seq<Sample> -> string, decode: string -> Option<seq<Sample>>, sha: string -> string)

  ghost function Valid(): Sample -> bool { (s: Sample) => ValidSample(s) }

  /** Valid samples are read back as they were written. */
  ghost predicate Faithful(codec: Codec) {
    forall s :: All(s, Valid()) ==> codec.decode(codec.encode(s)) == Some(s)
  }

  datatype Artifact = Artifact(sha: string, count: nat)

  datatype Source = Source(fingerprint: string, events: nat, selections: nat)

  datatype Manifest = Manifest(
    fingerprint: string, seed: string, sources: seq<Source>, artifacts: map<Split, Artifact>,
    conservation: Conservation,
    reasons: multiset<string>, duplicates: Duplicates, distribution: Distribution)

  datatype Corpus = Corpus(manifest: Manifest, files: map<Split, string>)

  function FileText(codec: Codec, ordered: seq<Sample>, split: Split): string {
    codec.encode(Filter(ordered, InSplit(split)))
  }

  function ArtifactOf(codec: Codec, ordered: seq<Sample>, split: Split): Artifact {
    Artifact(codec.sha(FileText(codec, ordered, split)), |Filter(ordered, InSplit(split))|)
  }

  function Written(w: World, codec: Codec, seed: string, sources: seq<Source>, ordered: seq<Sample>, selections: nat,
                   reasons: multiset<string>): Corpus
  {
    var train, validation, test :=
      FileText(codec, ordered, Train), FileText(codec, ordered, Validation), FileText(codec, ordered, Test);
    Corpus(
      Manifest(codec.sha(train + validation + test), seed, sources,
               map[Train := ArtifactOf(codec, ordered, Train), Validation := ArtifactOf(codec, ordered, Validation),
                   Test := ArtifactOf(codec, ordered, Test)],
               ConservationOf(ordered, selections, selections - |ordered|), reasons,
               DuplicatesOf(w, ordered, reasons), DistributionOf(ordered)),
      map[Train := train, Validation := validation, Test := test])
  }

  // ----- soundness ----------------------------------------------------------------------

  /** What can be read of a split; nothing when it is missing or unreadable. */
  function Decoded(c: Corpus, codec: Codec, split: Split): seq<Sample> {
    if split in c.manifest.artifacts && split in c.files && codec.decode(c.files[split]).Some?
    then codec.decode(c.files[split]).value
    else []
  }

  function AllDecoded(c: Corpus, codec: Codec): seq<Sample> {
    Decoded(c, codec, Train) + Decoded(c, codec, Validation) + Decoded(c, codec, Test)
  }

  predicate SampleSound(w: World, split: Split, s: Sample) {
    s.split == split && s.semantic == w.semantic(s.features) && s.id == ExpectedId(w, s)
  }

  ghost predicate SplitSound(c: Corpus, codec: Codec, w: World, split: Split) {
    && split in c.manifest.artifacts && split in c.files && codec.decode(c.files[split]).Some?
    && var samples := codec.decode(c.files[split]).value;
       && codec.sha(c.files[split]) == c.manifest.artifacts[split].sha
       && |samples| == c.manifest.artifacts[split].count
       && codec.encode(samples) == c.files[split]
       && samples == Sort(samples, ByPlace())
       && (forall s :: s in samples ==> SampleSound(w, split, s))
  }

  /** Whole episodes, and equal features, are in one split. */
  ghost predicate EpisodesIsolated(samples: seq<Sample>) {
    forall s, t :: s in samples && t in samples && s.run == t.run && s.episode == t.episode ==> s.split == t.split
  }

  ghost predicate SemanticsIsolated(samples: seq<Sample>) {
    forall s, t :: s in samples && t in samples && s.semantic == t.semantic ==> s.split == t.split
  }

  ghost predicate PolicyKept(w: World, seed: string, samples: seq<Sample>) {
    forall s :: s in samples ==> s.split == w.split(seed, s.run, s.episode)
  }

  ghost predicate UniqueIds(samples: seq<Sample>) {
    forall i, j :: 0 <= i < j < |samples| ==> samples[i].id != samples[j].id
  }

  predicate ChoosesWithin(s: Sample) {
    s.choice.candidate.Some? ==> SelectedAction(s).Some?
  }

  predicate CountersAgree(c: Corpus, codec: Codec, w: World, samples: seq<Sample>) {
    && DuplicatesOf(w, samples, c.manifest.reasons) == c.manifest.duplicates
    && |c.manifest.reasons| == c.manifest.conservation.excluded
    && |samples| + c.manifest.conservation.excluded == c.manifest.conservation.selections
    && |samples| == c.manifest.conservation.included
    && ConservationOf(samples, c.manifest.conservation.selections, c.manifest.conservation.excluded)
      == c.manifest.conservation
    && DistributionOf(samples) == c.manifest.distribution
  }

  function FileOr(c: Corpus, split: Split): string {
    if split in c.manifest.artifacts && split in c.files then c.files[split] else ""
  }

  predicate FingerprintAgrees(c: Corpus, codec: Codec) {
    codec.sha(FileOr(c, Train) + FileOr(c, Validation) + FileOr(c, Test)) == c.manifest.fingerprint
  }

  ghost predicate Sound(c: Corpus, codec: Codec, w: World) {
    var samples := AllDecoded(c, codec);
    && SplitSound(c, codec, w, Train) && SplitSound(c, codec, w, Validation) && SplitSound(c, codec, w, Test)
    && EpisodesIsolated(samples) && SemanticsIsolated(samples) && PolicyKept(w, c.manifest.seed, samples)
    && UniqueIds(samples) && UniqueSelections(samples) && (forall s :: s in samples ==> ChoosesWithin(s))
    && CountersAgree(c, codec, w, samples) && FingerprintAgrees(c, codec)
  }
}
