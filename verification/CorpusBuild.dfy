/** Building the executor corpus: indexing the journals, one sample for each selection, and
    the removal of semantic duplicates that cross splits. */
module CorpusBuild {
  import opened CorpusModel
  import opened Counting
  import opened Folding
  import opened Ordering

  // ----- indexing -----------------------------------------------------------------------

  const NO_INDEX := Indexes(map[], map[])

  /** Under which identity an event is indexed, and under which selection a lineage is. */
  type Identity = Event -> Option<Key>
  type LineageIdentity = Event -> Option<SelectionKey>

  /** One event indexed; a second event with the same identity is refused. */
  function Indexed(e: Event, ix: Indexes, keyOf: Identity, lineageOf: LineageIdentity): Result<Indexes, Key> {
    match keyOf(e)
    case Some(k) => if k in ix.unique then Err(k) else Ok(ix.(unique := ix.unique[k := e]))
    case None =>
      match lineageOf(e)
      case Some(k) => Ok(ix.(lineages := ix.lineages[k := LineagesAt(ix, k) + [e]]))
      case None => Ok(ix)
  }

  function IndexRounds(events: seq<Event>, keyOf: Identity, lineageOf: LineageIdentity)
    : (nat, Indexes) -> Result<Indexes, Key>
  {
    (i: nat, ix: Indexes) => if i < |events| then Indexed(events[i], ix, keyOf, lineageOf) else Ok(ix)
  }

  function IndexOf(events: seq<Event>): Result<Indexes, Key> {
    Fold(|events|, NO_INDEX, IndexRounds(events, KeyOf, LineageKeyOf))
  }

  method IndexEvents(events: seq<Event>) returns (r: Result<Indexes, Key>)
    ensures r == IndexOf(events)
  {
    r := IndexBy(events, KeyOf, LineageKeyOf);
  }

  method IndexBy(events: seq<Event>, keyOf: Identity, lineageOf: LineageIdentity) returns (r: Result<Indexes, Key>)
    ensures r == Fold(|events|, NO_INDEX, IndexRounds(events, keyOf, lineageOf))
  {
    ghost var rounds := IndexRounds(events, keyOf, lineageOf);
    r := Ok(NO_INDEX);
    var i := 0;
    while i < |events|
      invariant 0 <= i <= |events|
      invariant r == Fold(i, NO_INDEX, rounds) && r.Ok?
    {
      ghost var before := r.value;
      r := Indexed(events[i], r.value, keyOf, lineageOf);
      assert rounds(i, before) == r;
      if r.Err? {
        FoldStops(|events|, i + 1, NO_INDEX, rounds);
        return;
      }
      i := i + 1;
    }
  }

  /** The lineages recorded for a selection, in journal order. */
  function LineagesFor(events: seq<Event>, lineageOf: LineageIdentity, k: SelectionKey): seq<Event> {
    if events == [] then []
    else
      var init := LineagesFor(events[..|events| - 1], lineageOf, k);
      var last := events[|events| - 1];
      if lineageOf(last) == Some(k) then init + [last] else init
  }

  /** The index holds each keyed event under its key, once, and every lineage in order. */
  ghost predicate Holds(events: seq<Event>, i: nat, ix: Indexes, keyOf: Identity, lineageOf: LineageIdentity)
    requires i <= |events|
  {
    && (forall j :: 0 <= j < i && keyOf(events[j]).Some? ==> Find(ix.unique, keyOf(events[j]).value) == Some(events[j]))
    && (forall j, k :: 0 <= j < k < i && keyOf(events[j]).Some? ==> keyOf(events[j]) != keyOf(events[k]))
    && (forall k :: k in ix.unique ==> KeyedBefore(events, i, keyOf, k))
    && (forall k :: LineagesAt(ix, k) == LineagesFor(events[..i], lineageOf, k))
  }

  ghost predicate KeyedBefore(events: seq<Event>, i: nat, keyOf: Identity, k: Key)
    requires i <= |events|
  {
    exists j :: 0 <= j < i && keyOf(events[j]) == Some(k)
  }

  ghost predicate NoSharedKeys(events: seq<Event>, keyOf: Identity) {
    forall j, k :: 0 <= j < k < |events| && keyOf(events[j]).Some? ==> keyOf(events[j]) != keyOf(events[k])
  }

  ghost predicate Apart(keyOf: Identity, lineageOf: LineageIdentity) {
    forall e :: lineageOf(e).Some? ==> keyOf(e).None?
  }

  lemma LineagesOneMore(events: seq<Event>, i: nat, ix: Indexes, keyOf: Identity, lineageOf: LineageIdentity,
                        k: SelectionKey)
    requires i < |events| && Apart(keyOf, lineageOf) && Indexed(events[i], ix, keyOf, lineageOf).Ok?
    requires LineagesAt(ix, k) == LineagesFor(events[..i], lineageOf, k)
    ensures LineagesAt(Indexed(events[i], ix, keyOf, lineageOf).value, k) == LineagesFor(events[..i + 1], lineageOf, k)
  {
    assert events[..i + 1][..i] == events[..i];
  }

  lemma HoldsOneMore(events: seq<Event>, i: nat, ix: Indexes, keyOf: Identity, lineageOf: LineageIdentity)
    requires i < |events| && Holds(events, i, ix, keyOf, lineageOf) && Apart(keyOf, lineageOf)
    requires Indexed(events[i], ix, keyOf, lineageOf).Ok?
    ensures Holds(events, i + 1, Indexed(events[i], ix, keyOf, lineageOf).value, keyOf, lineageOf)
  {
    var e := events[i];
    var next := Indexed(e, ix, keyOf, lineageOf).value;
    forall k ensures LineagesAt(next, k) == LineagesFor(events[..i + 1], lineageOf, k) {
      LineagesOneMore(events, i, ix, keyOf, lineageOf, k);
    }
    forall k | k in next.unique ensures KeyedBefore(events, i + 1, keyOf, k) {
      if k in ix.unique {
        assert KeyedBefore(events, i, keyOf, k);
      } else {
        assert keyOf(events[i]) == Some(k);
      }
    }
    forall j | 0 <= j < i && keyOf(events[j]).Some? ensures keyOf(events[j]) != keyOf(e) {
      assert Find(ix.unique, keyOf(events[j]).value) == Some(events[j]);
    }
  }

  ghost function Holding(events: seq<Event>, keyOf: Identity, lineageOf: LineageIdentity): (nat, Indexes) -> bool {
    (i: nat, ix: Indexes) => i <= |events| && Holds(events, i, ix, keyOf, lineageOf)
  }

  lemma IndexByMeaning(events: seq<Event>, keyOf: Identity, lineageOf: LineageIdentity)
    requires Apart(keyOf, lineageOf)
    ensures var r := Fold(|events|, NO_INDEX, IndexRounds(events, keyOf, lineageOf));
      && (r.Ok? <==> NoSharedKeys(events, keyOf))
      && (r.Ok? ==> Holds(events, |events|, r.value, keyOf, lineageOf))
  {
    var n, rounds, holding := |events|, IndexRounds(events, keyOf, lineageOf), Holding(events, keyOf, lineageOf);
    assert events[..0] == [];
    assert holding(0, NO_INDEX);
    forall i: nat, ix | i < n && holding(i, ix) && rounds(i, ix).Ok? ensures holding(i + 1, rounds(i, ix).value) {
      HoldsOneMore(events, i, ix, keyOf, lineageOf);
    }
    if Fold(n, NO_INDEX, rounds).Err? {
      var i, ix := FoldRefusal(n, NO_INDEX, rounds, holding);
      var k := keyOf(events[i]).value;
      assert KeyedBefore(events, i, keyOf, k);
      var j :| 0 <= j < i && keyOf(events[j]) == Some(k);
    } else {
      FoldKeeps(n, NO_INDEX, rounds, holding);
    }
  }

  /** Indexing succeeds exactly when no two events share an identity, and then every lookup
      finds the one event with that identity. */
  lemma IndexMeaning(events: seq<Event>)
    ensures IndexOf(events).Ok? <==> NoSharedKeys(events, KeyOf)
    ensures IndexOf(events).Ok? ==> Holds(events, |events|, IndexOf(events).value, KeyOf, LineageKeyOf)
  {
    IndexByMeaning(events, KeyOf, LineageKeyOf);
  }

  // ----- one sample for each selection --------------------------------------------------

  /** What the loop over the selections carries; `exclusions` counts by reason. */
  datatype Built = Built(
    samples: seq<Sample>, exclusions: multiset<string>, seen: set<string>, kept: set<string>, duplicates: nat)

  const NOTHING_BUILT := Built([], multiset{}, {}, {}, 0)

  function SelectionIdOf(e: Event): Option<string> {
    if e.body.SelectionBody? then e.body.key else None
  }

  function Repeated(b: Built): Built {
    b.(exclusions := b.exclusions + multiset{DUPLICATE_SELECTION}, duplicates := b.duplicates + 1)
  }

  function Take(e: Event, sample: Result<Sample, Refusal>, b: Built): Built {
    var id := SelectionIdOf(e);
    if id.Some? && id.value in b.seen then Repeated(b)
    else
      var next := if id.Some? then b.(seen := b.seen + {id.value}) else b;
      match sample
      case Err(r) => next.(exclusions := next.exclusions + multiset{CodeOf(r)})
      case Ok(s) =>
        if s.choice.id in b.kept then Repeated(next)
        else next.(samples := next.samples + [s], kept := next.kept + {s.choice.id})
  }

  type Sampler = Event -> Result<Sample, Refusal>

  function SamplerOf(ix: Indexes, w: World, seed: string): Sampler {
    (e: Event) => SampleFrom(e, ix, w, seed)
  }

  function BuildUpTo(selections: seq<Event>, sampler: Sampler): Built {
    if selections == [] then NOTHING_BUILT
    else
      var last := selections[|selections| - 1];
      Take(last, sampler(last), BuildUpTo(selections[..|selections| - 1], sampler))
  }

  method TakeSelection(e: Event, sampler: Sampler, b: Built) returns (r: Built)
    ensures r == Take(e, sampler(e), b)
  {
    var id := SelectionIdOf(e);
    if id.Some? && id.value in b.seen {
      return b.(exclusions := b.exclusions + multiset{DUPLICATE_SELECTION}, duplicates := b.duplicates + 1);
    }
    r := b;
    if id.Some? {
      r := r.(seen := r.seen + {id.value});
    }
    var sample := sampler(e);
    if sample.Err? {
      return r.(exclusions := r.exclusions + multiset{CodeOf(sample.error)});
    }
    if sample.value.choice.id in r.kept {
      return r.(exclusions := r.exclusions + multiset{DUPLICATE_SELECTION}, duplicates := r.duplicates + 1);
    }
    r := r.(samples := r.samples + [sample.value], kept := r.kept + {sample.value.choice.id});
  }

  method BuildSamples(selections: seq<Event>, sampler: Sampler) returns (b: Built)
    ensures b == BuildUpTo(selections, sampler)
  {
    b := NOTHING_BUILT;
    var i := 0;
    while i < |selections|
      invariant 0 <= i <= |selections|
      invariant b == BuildUpTo(selections[..i], sampler)
    {
      assert selections[..i + 1][..i] == selections[..i] && selections[..i + 1][i] == selections[i];
      b := TakeSelection(selections[i], sampler, b);
      i := i + 1;
    }
    assert selections[..i] == selections;
  }

  ghost predicate UniqueSelections(samples: seq<Sample>) {
    forall i, j :: 0 <= i < j < |samples| ==> samples[i].choice.id != samples[j].choice.id
  }

  ghost predicate All(samples: seq<Sample>, made: Sample -> bool) {
    forall s :: s in samples ==> made(s)
  }

  ghost function Made(w: World, seed: string): Sample -> bool {
    (s: Sample) => WellMade(w, seed, s)
  }

  /** After `n` selections each became a sample or one exclusion, the samples' selection ids
      differ, and the duplicate counter is exactly its reason's. */
  ghost predicate Conserved(b: Built, n: nat, made: Sample -> bool) {
    && |b.samples| + |b.exclusions| == n
    && UniqueSelections(b.samples) && All(b.samples, made)
    && (forall s :: s in b.samples ==> s.choice.id in b.kept)
    && b.exclusions[DUPLICATE_SELECTION] == b.duplicates && b.exclusions[CROSS_SPLIT] == 0
  }

  /** Nothing is lost or counted twice. */
  lemma {:induction false} BuildConserves(selections: seq<Event>, sampler: Sampler, made: Sample -> bool)
    requires forall e :: sampler(e).Ok? ==> made(sampler(e).value)
    ensures Conserved(BuildUpTo(selections, sampler), |selections|, made)
  {
    if selections != [] {
      var n := |selections| - 1;
      BuildConserves(selections[..n], sampler, made);
    }
  }

  // ----- semantic duplicates across splits ----------------------------------------------

  function HasSemantic(semantic: string): Sample -> bool {
    (s: Sample) => s.semantic == semantic
  }

  function InSplit(split: Split): Sample -> bool {
    (s: Sample) => s.split == split
  }

  predicate EpisodeLess(a: Sample, b: Sample) {
    StringLess(a.run, b.run) || (a.run == b.run && StringLess(a.episode, b.episode))
  }

  /** The first sample of the smallest episode. */
  function Owner(group: seq<Sample>): (r: Sample)
    requires group != []
    ensures r in group
  {
    if |group| == 1 then group[0]
    else
      var rest := Owner(group[..|group| - 1]);
      if EpisodeLess(group[|group| - 1], rest) then group[|group| - 1] else rest
  }

  /** A sample stays when it is in the split of its features' owner. */
  function StaysAmong(all: seq<Sample>): Sample -> bool {
    (s: Sample) =>
      var group := Filter(all, HasSemantic(s.semantic));
      group != [] && s.split == Owner(group).split
  }

  function Staying(samples: seq<Sample>): seq<Sample> {
    Filter(samples, StaysAmong(samples))
  }

  /** Afterwards equal features are in one split. */
  lemma StayingIsIsolated(samples: seq<Sample>, s: Sample, t: Sample)
    requires s in Staying(samples) && t in Staying(samples) && s.semantic == t.semantic
    ensures s.split == t.split
  {
    FilterMembers(samples, StaysAmong(samples));
  }

  /** The owner of every fingerprint stays: no group is emptied. */
  lemma OwnersStay(samples: seq<Sample>, s: Sample)
    requires s in samples
    ensures var group := Filter(samples, HasSemantic(s.semantic));
      group != [] && Owner(group) in Staying(samples) && Owner(group).semantic == s.semantic
  {
    FilterMembers(samples, HasSemantic(s.semantic));
    FilterMembers(samples, StaysAmong(samples));
  }

  // ----- grouping into a dictionary -----------------------------------------------------

  /** A dictionary of lists that remembers the order of its keys. */
  datatype Groups = Groups(order: seq<string>, lists: map<string, seq<Sample>>)

  function Grouping(g: Groups, s: Sample): Groups {
    if s.semantic in g.lists then g.(lists := g.lists[s.semantic := g.lists[s.semantic] + [s]])
    else Groups(g.order + [s.semantic], g.lists[s.semantic := [s]])
  }

  function GroupsOf(samples: seq<Sample>): Groups {
    if samples == [] then Groups([], map[]) else Grouping(GroupsOf(samples[..|samples| - 1]), samples[|samples| - 1])
  }

  /** The groups of `samples`, keys in order of first appearance. */
  ghost predicate Grouped(samples: seq<Sample>, g: Groups) {
    && Distinct(g.order)
    && (forall k :: k in g.order <==> k in g.lists)
    && (forall k :: k in g.lists ==> g.lists[k] == Filter(samples, HasSemantic(k)) && g.lists[k] != [])
    && (forall s :: s in samples ==> s.semantic in g.lists)
  }

  lemma GroupedOneMore(samples: seq<Sample>, s: Sample, g: Groups)
    requires Grouped(samples, g)
    ensures Grouped(samples + [s], Grouping(g, s))
  {
    var all := samples + [s];
    assert all[..|samples|] == samples;
    forall k
      ensures Filter(all, HasSemantic(k)) == Filter(samples, HasSemantic(k)) + if s.semantic == k then [s] else []
    {
    }
    if s.semantic !in g.lists {
      FilterNone(samples, HasSemantic(s.semantic));
    }
  }

  /** What holds of the empty list and survives one more sample holds of every list. */
  lemma {:induction false} BySamples(samples: seq<Sample>, holds: (seq<Sample>, Groups) -> bool)
    requires holds([], GroupsOf([]))
    requires forall init, last, g :: holds(init, g) ==> holds(init + [last], Grouping(g, last))
    ensures holds(samples, GroupsOf(samples))
  {
    if samples != [] {
      var init, last := samples[..|samples| - 1], samples[|samples| - 1];
      BySamples(init, holds);
      assert holds(init + [last], Grouping(GroupsOf(init), last));
      assert samples == init + [last];
    }
  }

  lemma GroupsAreGrouped(samples: seq<Sample>)
    ensures Grouped(samples, GroupsOf(samples))
  {
    ghost var grouped := (s: seq<Sample>, g: Groups) => Grouped(s, g);
    forall init, last, g | grouped(init, g) ensures grouped(init + [last], Grouping(g, last)) {
      GroupedOneMore(init, last, g);
    }
    BySamples(samples, grouped);
  }

  method GroupBySemantic(samples: seq<Sample>) returns (g: Groups)
    ensures g == GroupsOf(samples)
  {
    g := Groups([], map[]);
    var i := 0;
    while i < |samples|
      invariant 0 <= i <= |samples|
      invariant g == GroupsOf(samples[..i])
    {
      assert samples[..i + 1][..i] == samples[..i];
      g := Grouping(g, samples[i]);
      i := i + 1;
    }
    assert samples[..i] == samples;
  }

  /** Samples whose features are among `keys`, and those of them that stay. */
  function Among(keys: set<string>): Sample -> bool {
    (s: Sample) => s.semantic in keys
  }

  function StayingAmong(all: seq<Sample>, keys: set<string>): Sample -> bool {
    (s: Sample) => s.semantic in keys && StaysAmong(all)(s)
  }

  function OwnedBy(k: string, split: Split): Sample -> bool {
    (s: Sample) => s.semantic == k && s.split == split
  }

  lemma OneGroupMore(samples: seq<Sample>, keys: set<string>, k: string, group: seq<Sample>)
    requires k !in keys && group == Filter(samples, HasSemantic(k)) && group != []
    ensures var split := Owner(group).split;
      multiset(Filter(samples, StayingAmong(samples, keys + {k})))
        == multiset(Filter(samples, StayingAmong(samples, keys))) + multiset(Filter(group, InSplit(split)))
    ensures |Filter(samples, Among(keys + {k}))| == |Filter(samples, Among(keys))| + |group|
  {
    var split := Owner(group).split;
    FilterTwice(samples, HasSemantic(k), InSplit(split), OwnedBy(k, split));
    forall s | s in samples && s.semantic == k ensures StaysAmong(samples)(s) <==> s.split == split {
    }
    FilterUnion(samples, StayingAmong(samples, keys), OwnedBy(k, split), StayingAmong(samples, keys + {k}));
    FilterUnion(samples, Among(keys), HasSemantic(k), Among(keys + {k}));
  }

  lemma AllGroupsDone(samples: seq<Sample>, keys: set<string>)
    requires forall s :: s in samples ==> s.semantic in keys
    ensures Filter(samples, StayingAmong(samples, keys)) == Staying(samples)
    ensures Filter(samples, Among(keys)) == samples
  {
    FilterAgrees(samples, StayingAmong(samples, keys), StaysAmong(samples));
    FilterAll(samples, Among(keys));
  }

  lemma NoGroupsDone(samples: seq<Sample>)
    ensures Filter(samples, StayingAmong(samples, {})) == [] && Filter(samples, Among({})) == []
  {
    FilterNone(samples, StayingAmong(samples, {}));
    FilterNone(samples, Among({}));
  }

  ghost predicate KeysBefore(order: seq<string>, i: nat, keys: set<string>)
    requires i <= |order|
  {
    forall k :: k in keys <==> k in order[..i]
  }

  lemma NextKey(order: seq<string>, i: nat, keys: set<string>)
    requires i < |order| && KeysBefore(order, i, keys) && Distinct(order)
    ensures order[i] !in keys && KeysBefore(order, i + 1, keys + {order[i]})
  {
  }

  /** Keeps, group by group, the samples in the split of the group's owner. */
  method ExcludeCrossSplit(samples: seq<Sample>) returns (retained: seq<Sample>, excluded: multiset<string>)
    ensures multiset(retained) == multiset(Staying(samples))
    ensures |retained| + |excluded| == |samples|
    ensures forall r :: r in excluded ==> r == CROSS_SPLIT
  {
    var g := GroupBySemantic(samples);
    var order := g.order;
    GroupsAreGrouped(samples);
    retained, excluded := [], multiset{};
    var i := 0;
    ghost var keys: set<string> := {};
    NoGroupsDone(samples);
    while i < |order|
      invariant 0 <= i <= |order|
      invariant KeysBefore(order, i, keys)
      invariant multiset(retained) == multiset(Filter(samples, StayingAmong(samples, keys)))
      invariant |retained| + |excluded| == |Filter(samples, Among(keys))|
      invariant forall r :: r in excluded ==> r == CROSS_SPLIT
    {
      var k := order[i];
      NextKey(order, i, keys);
      OneGroupMore(samples, keys, k, g.lists[k]);
      var kept, dropped := KeepOwned(g.lists[k]);
      retained, excluded, keys := retained + kept, excluded + dropped, keys + {k};
      i := i + 1;
    }
    assert order[..i] == order;
    AllGroupsDone(samples, keys);
  }

  /** One group: who stays, and one exclusion for each who does not. */
  method KeepOwned(group: seq<Sample>) returns (kept: seq<Sample>, dropped: multiset<string>)
    requires group != []
    ensures kept == Filter(group, InSplit(Owner(group).split)) && |kept| + |dropped| == |group|
    ensures forall r :: r in dropped ==> r == CROSS_SPLIT
  {
    var split := Owner(group).split;
    kept, dropped := [], multiset{};
    var i := 0;
    while i < |group|
      invariant 0 <= i <= |group|
      invariant kept == Filter(group[..i], InSplit(split)) && |kept| + |dropped| == i
      invariant forall r :: r in dropped ==> r == CROSS_SPLIT
    {
      assert group[..i + 1][..i] == group[..i];
      if group[i].split == split {
        kept := kept + [group[i]];
      } else {
        dropped := dropped + multiset{CROSS_SPLIT};
      }
      i := i + 1;
    }
    assert group[..i] == group;
  }
}
