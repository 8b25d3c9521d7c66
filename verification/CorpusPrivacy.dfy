/** Noninterference: what a corpus says does not depend on raw identifiers or on redacted
    values, only on the joins they make and on the compact features. */
module CorpusPrivacy {
  import opened CorpusBuild
  import opened CorpusFiles
  import opened CorpusModel
  import opened CorpusSource
  import opened CorpusTheorems
  import opened Counting
  import opened Folding
  import opened Ordering

  // ----- two journals that differ only where nobody may look ----------------------------

  /** One renaming for each kind of runtime identifier; `stamp` renames the observation
      fingerprints that the pipeline computed. */
  datatype Renaming = Renaming(
    candidate: string -> string, intent: string -> string, selection: string -> string, command: string -> string,
    actor: string -> string, stamp: string -> string)

  ghost predicate Injective(f: string -> string) {
    forall x, y :: f(x) == f(y) ==> x == y
  }

  ghost predicate Consistent(r: Renaming) {
    && Injective(r.candidate) && Injective(r.intent) && Injective(r.selection)
    && Injective(r.command) && Injective(r.actor) && Injective(r.stamp)
  }

  function Renamed(f: string -> string, o: Option<string>): Option<string> {
    if o.None? then None else Some(f(o.value))
  }

  /** Units, texts, images and arguments may differ as long as the compact features agree. */
  ghost predicate SameObservation(r: Renaming, w: World, a: Observation, b: Observation) {
    && b.run == a.run && b.episode == a.episode && b.step == a.step && b.gameLoop == a.gameLoop
      && b.protocol == a.protocol
    && Compacted(b) == Compacted(a) && w.runtime(b) == r.stamp(w.runtime(a))
  }

  predicate SameIntent(r: Renaming, a: Intent, b: Intent) {
    && b.id == r.intent(a.id) && b.run == a.run && b.episode == a.episode && b.step == a.step && b.created == a.created
    && b.role == a.role && b.source == a.source && b.version == a.version && b.names == a.names
    && b.priority == a.priority && b.ttl == a.ttl && b.targetKind == a.targetKind
      && b.situation.Some? == a.situation.Some?
  }

  predicate SameCandidate(r: Renaming, a: Candidate, b: Candidate) {
    && b.id == r.candidate(a.id) && b.stamp == r.stamp(a.stamp) && b.intent == r.intent(a.intent)
    && b.action == a.action && b.actor == r.actor(a.actor) && b.features == a.features
  }

  predicate SameRaw(r: Renaming, a: RawCandidate, b: RawCandidate) {
    && b.id == Renamed(r.candidate, a.id) && b.parsed.Some? == a.parsed.Some?
    && (a.parsed.Some? ==> SameCandidate(r, a.parsed.value, b.parsed.value))
  }

  predicate SameRaws(r: Renaming, a: seq<RawCandidate>, b: seq<RawCandidate>) {
    |b| == |a| && forall i :: 0 <= i < |a| ==> SameRaw(r, a[i], b[i])
  }

  predicate SameSelection(r: Renaming, w: World, a: Selection, b: Selection) {
    && b.id == r.selection(a.id) && b.intent == r.intent(a.intent) && b.selected == a.selected
    && b.candidate == Renamed(r.candidate, a.candidate) && b.executor == a.executor && b.version == a.version
    && b.latency == a.latency && SafeCode(w, b.reason) == SafeCode(w, a.reason)
  }

  predicate SameLineage(r: Renaming, a: Lineage, b: Lineage) {
    && b.selection == r.selection(a.selection) && b.intent == r.intent(a.intent)
      && b.candidate == r.candidate(a.candidate)
    && b.command == r.command(a.command) && b.role == a.role && b.source == a.source && b.version == a.version
    && b.executor == a.executor && b.executorVersion == a.executorVersion && b.plan.Some? == a.plan.Some?
    && b.gameLoop == a.gameLoop
  }

  predicate SameReport(r: Renaming, w: World, a: Report, b: Report) {
    && b.run == a.run && b.episode == a.episode && b.step == a.step && b.command == r.command(a.command)
    && b.status == a.status && b.success == a.success && b.stage == a.stage
      && SafeCode(w, b.code) == SafeCode(w, a.code)
    && b.action == a.action && b.actor == Renamed(r.actor, a.actor) && b.source == a.source
  }

  predicate SameCommand(r: Renaming, w: World, a: CommandObject, b: CommandObject) {
    && b.id == Renamed(r.command, a.id) && b.name == a.name && b.actor == Renamed(r.actor, a.actor)
    && SafeCode(w, b.source) == SafeCode(w, a.source)
    && b.priority == a.priority && b.ttl == a.ttl && b.created == a.created
  }

  ghost predicate SameBody(r: Renaming, w: World, a: Body, b: Body) {
    match a
    case ObservationBody(x) =>
      && b.ObservationBody? && b.observation.Some? == x.Some?
      && (x.Some? ==> SameObservation(r, w, x.value, b.observation.value))
    case IntentBody(key, x) =>
      && b.IntentBody? && b.key == Renamed(r.intent, key) && b.intent.Some? == x.Some?
      && (x.Some? ==> SameIntent(r, x.value, b.intent.value))
    case CandidatesBody(key, x) =>
      && b.CandidatesBody? && b.key == Renamed(r.intent, key) && b.candidates.Some? == x.Some?
      && (x.Some? ==> SameRaws(r, x.value, b.candidates.value))
    case SelectionBody(key, x) =>
      && b.SelectionBody? && b.key == Renamed(r.selection, key) && b.selection.Some? == x.Some?
      && (x.Some? ==> SameSelection(r, w, x.value, b.selection.value))
    case LineageBody(key, x) =>
      && b.LineageBody? && b.key == Renamed(r.selection, key) && b.lineage.Some? == x.Some?
      && (x.Some? ==> SameLineage(r, x.value, b.lineage.value))
    case ExecutionBody(key, x) =>
      && b.ExecutionBody? && b.key == Renamed(r.command, key) && b.report.Some? == x.Some?
      && (x.Some? ==> SameReport(r, w, x.value, b.report.value))
    case LifecycleBody(direct, text, status, reason, command) =>
      && b.LifecycleBody? && b.direct == Renamed(r.command, direct) && SafeCode(w, b.text) == SafeCode(w, text)
      && b.status == status && SafeCode(w, b.reason) == SafeCode(w, reason) && SameCommand(r, w, command, b.command)
    case OtherBody(name) => b == a
  }

  ghost predicate SameEvent(r: Renaming, w: World, a: Event, b: Event) {
    b.run == a.run && b.episode == a.episode && b.step == a.step && SameBody(r, w, a.body, b.body)
  }

  type Likeness = (Event, Event) -> bool

  ghost function Alike(r: Renaming, w: World): Likeness {
    (a: Event, b: Event) => SameEvent(r, w, a, b)
  }

  ghost predicate SameEvents(alike: Likeness, a: seq<Event>, b: seq<Event>) {
    |b| == |a| && forall i :: 0 <= i < |a| ==> alike(a[i], b[i])
  }

  // ----- indexes ------------------------------------------------------------------------

  function RenamedKey(r: Renaming, k: Key): Key {
    match k
    case ObservationKey(run, episode, step) => k
    case IntentKey(run, episode, id) => IntentKey(run, episode, r.intent(id))
    case CandidatesKey(run, episode, id) => CandidatesKey(run, episode, r.intent(id))
    case ExecutionKey(run, episode, id) => ExecutionKey(run, episode, r.command(id))
    case LifecycleKey(run, episode, id) => LifecycleKey(run, episode, r.command(id))
  }

  function RenamedSelection(r: Renaming, k: SelectionKey): SelectionKey {
    (k.0, k.1, r.selection(k.2))
  }

  lemma KeysAreRenamed(r: Renaming, w: World, a: Event, b: Event)
    requires SameEvent(r, w, a, b)
    ensures KeyOf(b) == if KeyOf(a).None? then None else Some(RenamedKey(r, KeyOf(a).value))
    ensures LineageKeyOf(b) == if LineageKeyOf(a).None? then None else Some(RenamedSelection(r, LineageKeyOf(a).value))
  {
  }

  function KeyRenaming(r: Renaming): Key -> Key { (k: Key) => RenamedKey(r, k) }

  function SelectionRenaming(r: Renaming): SelectionKey -> SelectionKey { (k: SelectionKey) => RenamedSelection(r, k) }

  ghost predicate SameFound(alike: Likeness, a: Option<Event>, b: Option<Event>) {
    a.Some? == b.Some? && (a.Some? ==> alike(a.value, b.value))
  }

  ghost predicate SameIndexes(alike: Likeness, keys: Key -> Key, selections: SelectionKey -> SelectionKey, a: Indexes,
                              b: Indexes) {
    && (forall k :: SameFound(alike, Find(a.unique, k), Find(b.unique, keys(k))))
    && (forall k :: SameEvents(alike, LineagesAt(a, k), LineagesAt(b, selections(k))))
  }

  ghost predicate OneToOne<K(!new)>(f: K -> K) {
    forall k, l :: f(k) == f(l) ==> k == l
  }

  lemma UniqueStaysSame(alike: Likeness, keys: Key -> Key, selections: SelectionKey -> SelectionKey, a: Event, b: Event,
                        key: Key,
                        ix: Indexes, jx: Indexes)
    requires OneToOne(keys) && alike(a, b) && SameIndexes(alike, keys, selections, ix, jx)
    ensures key in ix.unique <==> keys(key) in jx.unique
    ensures SameIndexes(alike, keys, selections, ix.(unique := ix.unique[key := a]),
                        jx.(unique := jx.unique[keys(key) := b]))
  {
    assert SameFound(alike, Find(ix.unique, key), Find(jx.unique, keys(key)));
    var iu, ju := ix.unique[key := a], jx.unique[keys(key) := b];
    forall k ensures SameFound(alike, Find(iu, k), Find(ju, keys(k))) {
      assert SameFound(alike, Find(ix.unique, k), Find(jx.unique, keys(k)));
    }
  }

  lemma LineagesUpdated(alike: Likeness, selections: SelectionKey -> SelectionKey, a: Event, b: Event,
                        key: SelectionKey, k: SelectionKey, ix: Indexes, jx: Indexes)
    requires OneToOne(selections) && alike(a, b)
    requires SameEvents(alike, LineagesAt(ix, k), LineagesAt(jx, selections(k)))
    ensures SameEvents(alike, LineagesAt(ix.(lineages := ix.lineages[key := LineagesAt(ix, key) + [a]]), k),
      LineagesAt(jx.(lineages := jx.lineages[selections(key) := LineagesAt(jx, selections(key)) + [b]]), selections(k)))
  {
    if k == key {
      AppendSame(alike, LineagesAt(ix, k), LineagesAt(jx, selections(k)), a, b);
    }
  }

  lemma AppendSame(alike: Likeness, s: seq<Event>, t: seq<Event>, a: Event, b: Event)
    requires SameEvents(alike, s, t) && alike(a, b)
    ensures SameEvents(alike, s + [a], t + [b])
  {
  }

  lemma LineagesStaySame(alike: Likeness, keys: Key -> Key, selections: SelectionKey -> SelectionKey, a: Event,
                         b: Event,
                         key: SelectionKey, ix: Indexes, jx: Indexes)
    requires OneToOne(selections) && alike(a, b) && SameIndexes(alike, keys, selections, ix, jx)
    ensures SameIndexes(alike, keys, selections,
      ix.(lineages := ix.lineages[key := LineagesAt(ix, key) + [a]]),
      jx.(lineages := jx.lineages[selections(key) := LineagesAt(jx, selections(key)) + [b]]))
  {
    var ix' := ix.(lineages := ix.lineages[key := LineagesAt(ix, key) + [a]]);
    var jx' := jx.(lineages := jx.lineages[selections(key) := LineagesAt(jx, selections(key)) + [b]]);
    forall k ensures SameEvents(alike, LineagesAt(ix', k), LineagesAt(jx', selections(k))) {
      LineagesUpdated(alike, selections, a, b, key, k, ix, jx);
    }
  }

  function Mapped<K>(f: K -> K, o: Option<K>): Option<K> {
    if o.None? then None else Some(f(o.value))
  }

  /** Indexing alike events into alike indexes: both refuse, or both stay alike. */
  lemma IndexedStaySame(alike: Likeness, keys: Key -> Key, selections: SelectionKey -> SelectionKey,
                        keyOf: Identity, lineageOf: LineageIdentity, a: Event, b: Event, ix: Indexes, jx: Indexes)
    requires OneToOne(keys) && OneToOne(selections) && alike(a, b) && SameIndexes(alike, keys, selections, ix, jx)
    requires keyOf(b) == Mapped(keys, keyOf(a)) && lineageOf(b) == Mapped(selections, lineageOf(a))
    ensures var x, y := Indexed(a, ix, keyOf, lineageOf), Indexed(b, jx, keyOf, lineageOf);
      && x.Ok? == y.Ok? && (x.Ok? ==> SameIndexes(alike, keys, selections, x.value, y.value))
  {
    if keyOf(a).Some? {
      UniqueStaysSame(alike, keys, selections, a, b, keyOf(a).value, ix, jx);
    } else if lineageOf(a).Some? {
      LineagesStaySame(alike, keys, selections, a, b, lineageOf(a).value, ix, jx);
    }
  }

  lemma {:induction false} FoldsStaySame(alike: Likeness, keys: Key -> Key, selections: SelectionKey -> SelectionKey,
                                         keyOf: Identity, lineageOf: LineageIdentity, a: seq<Event>, b: seq<Event>,
                                         n: nat)
    requires OneToOne(keys) && OneToOne(selections) && SameEvents(alike, a, b) && n <= |a|
    requires forall i :: 0 <= i < |a| ==>
      keyOf(b[i]) == Mapped(keys, keyOf(a[i])) && lineageOf(b[i]) == Mapped(selections, lineageOf(a[i]))
    ensures var x, y := Fold(n, NO_INDEX, IndexRounds(a, keyOf, lineageOf)),
      Fold(n, NO_INDEX, IndexRounds(b, keyOf, lineageOf));
      && x.Ok? == y.Ok? && (x.Ok? ==> SameIndexes(alike, keys, selections, x.value, y.value))
  {
    if n > 0 {
      FoldsStaySame(alike, keys, selections, keyOf, lineageOf, a, b, n - 1);
      var x := Fold(n - 1, NO_INDEX, IndexRounds(a, keyOf, lineageOf));
      var y := Fold(n - 1, NO_INDEX, IndexRounds(b, keyOf, lineageOf));
      if x.Ok? {
        IndexedStaySame(alike, keys, selections, keyOf, lineageOf, a[n - 1], b[n - 1], x.value, y.value);
      }
    }
  }

  lemma IndexesStaySame(r: Renaming, w: World, a: seq<Event>, b: seq<Event>)
    requires Consistent(r) && SameEvents(Alike(r, w), a, b)
    ensures IndexOf(a).Ok? == IndexOf(b).Ok?
    ensures IndexOf(a).Ok? ==>
      SameIndexes(Alike(r, w), KeyRenaming(r), SelectionRenaming(r), IndexOf(a).value, IndexOf(b).value)
  {
    forall i | 0 <= i < |a|
      ensures KeyOf(b[i]) == Mapped(KeyRenaming(r), KeyOf(a[i]))
      ensures LineageKeyOf(b[i]) == Mapped(SelectionRenaming(r), LineageKeyOf(a[i]))
    {
      KeysAreRenamed(r, w, a[i], b[i]);
    }
    FoldsStaySame(Alike(r, w), KeyRenaming(r), SelectionRenaming(r), KeyOf, LineageKeyOf, a, b, |a|);
  }

  // ----- one sample ---------------------------------------------------------------------

  ghost predicate SameCandidates(r: Renaming, a: seq<Candidate>, b: seq<Candidate>) {
    |b| == |a| && forall i :: 0 <= i < |a| ==> SameCandidate(r, a[i], b[i])
  }

  ghost predicate SameJoin(r: Renaming, w: World, a: Joined, b: Joined) {
    && SameSelection(r, w, a.selection, b.selection) && SameObservation(r, w, a.observation, b.observation)
    && SameIntent(r, a.intent, b.intent) && SameCandidates(r, a.candidates, b.candidates)
  }

  lemma {:induction false} PositionsSame(r: Renaming, a: seq<Candidate>, b: seq<Candidate>, id: string)
    requires Consistent(r) && SameCandidates(r, a, b)
    ensures PositionOf(b, r.candidate(id)) == PositionOf(a, id)
  {
    if a != [] {
      var n := |a| - 1;
      assert SameCandidate(r, a[n], b[n]);
      PositionsSame(r, a[..n], b[..n], id);
    }
  }

  lemma CandidateChecksSame(r: Renaming, a: seq<Candidate>, b: seq<Candidate>, intent: string, stamp: string)
    requires Consistent(r) && SameCandidates(r, a, b)
    ensures (exists c :: c in a && OtherIntent(intent)(c)) <==> (exists c :: c in b && OtherIntent(r.intent(intent))(c))
    ensures (exists c :: c in a && OtherStamp(stamp)(c)) <==> (exists c :: c in b && OtherStamp(r.stamp(stamp))(c))
  {
    forall i | 0 <= i < |a|
      ensures OtherIntent(intent)(a[i]) == OtherIntent(r.intent(intent))(b[i])
      ensures OtherStamp(stamp)(a[i]) == OtherStamp(r.stamp(stamp))(b[i])
    {
      assert SameCandidate(r, a[i], b[i]);
    }
  }

  function OtherIntent(intent: string): Candidate -> bool { (c: Candidate) => c.intent != intent }

  function OtherStamp(stamp: string): Candidate -> bool { (c: Candidate) => c.stamp != stamp }

  ghost function JoinLikeness(r: Renaming, w: World): (Joined, Joined) -> bool {
    (a: Joined, b: Joined) => SameJoin(r, w, a, b)
  }

  ghost predicate SameJoins(alike: (Joined, Joined) -> bool, x: Result<Joined, Refusal>, y: Result<Joined, Refusal>) {
    if x.Err? then y == x else y.Ok? && alike(x.value, y.value)
  }

  lemma FaultsSame(r: Renaming, w: World, s: Selection, t: Selection, stamp: string, a: seq<Candidate>,
                   b: seq<Candidate>)
    requires Consistent(r) && SameSelection(r, w, s, t) && SameCandidates(r, a, b)
    ensures CandidateFault(t, r.stamp(stamp), b) == CandidateFault(s, stamp, a)
  {
    CandidateChecksSame(r, a, b, s.intent, stamp);
    if s.candidate.Some? {
      PositionsSame(r, a, b, s.candidate.value);
    }
  }

  lemma IntentsIn(r: Renaming, w: World, a: Event, b: Event)
    requires SameEvent(r, w, a, b)
    ensures IntentIn(a).Some? == IntentIn(b).Some?
    ensures IntentIn(a).Some? ==> SameIntent(r, IntentIn(a).value, IntentIn(b).value)
  {
  }

  lemma JoinedPayloadsSame(r: Renaming, w: World, e: Event, f: Event, s: Selection, t: Selection, o: Observation,
                           p: Observation,
                           i: Intent, j: Intent, a: Option<seq<RawCandidate>>, b: Option<seq<RawCandidate>>,
                           steps: bool)
    requires Consistent(r) && f.run == e.run && f.episode == e.episode && f.step == e.step
    requires SameSelection(r, w, s, t) && SameObservation(r, w, o, p) && SameIntent(r, i, j)
    requires a.Some? == b.Some? && (a.Some? ==> SameRaws(r, a.value, b.value))
    ensures SameJoins(JoinLikeness(r, w), JoinPayloads(e, s, Some(o), Some(i), a, steps, w),
                      JoinPayloads(f, t, Some(p), Some(j), b, steps, w))
  {
    if a.Some? {
      if Parsed(a.value).Some? {
        var x, y := Parsed(a.value).value, Parsed(b.value).value;
        FaultsSame(r, w, s, t, w.runtime(o), x, y);
        assert JoinLikeness(r, w)(Joined(s, o, i, x), Joined(t, p, j, y));
      }
    }
  }

  lemma JoinedEventsSame(r: Renaming, w: World, e: Event, f: Event, s: Selection, t: Selection,
                         ie: Event, if_: Event, ce: Event, cf: Event, oe: Event, of: Event)
    requires Consistent(r) && SameEvent(r, w, e, f) && SameSelection(r, w, s, t)
    requires SameEvent(r, w, ie, if_) && SameEvent(r, w, ce, cf) && SameEvent(r, w, oe, of)
    ensures SameJoins(JoinLikeness(r, w), JoinEvents(e, s, ie, ce, oe, w), JoinEvents(f, t, if_, cf, of, w))
  {
    IntentsIn(r, w, ie, if_);
    if ObservationIn(oe).Some? && IntentIn(ie).Some? {
      JoinedPayloadsSame(r, w, e, f, s, t, ObservationIn(oe).value, ObservationIn(of).value, IntentIn(ie).value,
                         IntentIn(if_).value,
                         CandidatesIn(ce), CandidatesIn(cf), ie.step == e.step && ce.step == e.step);
    }
  }

  ghost function IndexLikeness(r: Renaming, w: World): (Indexes, Indexes) -> bool {
    (ix: Indexes, jx: Indexes) => SameIndexes(Alike(r, w), KeyRenaming(r), SelectionRenaming(r), ix, jx)
  }

  ghost predicate SameIndexed(r: Renaming, w: World, ix: Indexes, jx: Indexes) {
    IndexLikeness(r, w)(ix, jx)
  }

  lemma FoundSame(r: Renaming, w: World, ix: Indexes, jx: Indexes, k: Key)
    requires SameIndexed(r, w, ix, jx)
    ensures Find(ix.unique, k).Some? == Find(jx.unique, RenamedKey(r, k)).Some?
    ensures Find(ix.unique, k).Some? ==> SameEvent(r, w, Find(ix.unique, k).value,
                                                   Find(jx.unique, RenamedKey(r, k)).value)
  {
    assert SameFound(Alike(r, w), Find(ix.unique, k), Find(jx.unique, KeyRenaming(r)(k)));
  }

  lemma JoinsSame(r: Renaming, w: World, e: Event, f: Event, ix: Indexes, jx: Indexes)
    requires Consistent(r) && SameEvent(r, w, e, f) && SameIndexed(r, w, ix, jx)
    ensures SameJoins(JoinLikeness(r, w), Join(e, ix, w), Join(f, jx, w))
  {
    if SelectionIn(e).Some? {
      var s, t := SelectionIn(e).value, SelectionIn(f).value;
      var ik, ck, ok := IntentKey(e.run, e.episode, s.intent), CandidatesKey(e.run, e.episode, s.intent),
        ObservationKey(e.run, e.episode, e.step);
      FoundSame(r, w, ix, jx, ik);
      FoundSame(r, w, ix, jx, ck);
      FoundSame(r, w, ix, jx, ok);
      if ik in ix.unique && ck in ix.unique && ok in ix.unique {
        JoinedEventsSame(r, w, e, f, s, t, ix.unique[ik], jx.unique[RenamedKey(r, ik)], ix.unique[ck],
                         jx.unique[RenamedKey(r, ck)],
                         ix.unique[ok], jx.unique[RenamedKey(r, ok)]);
      }
    }
  }

  lemma ChosenSame(r: Renaming, w: World, a: Joined, b: Joined)
    requires Consistent(r) && SameJoin(r, w, a, b)
    ensures Chosen(b) == Chosen(a)
  {
    if a.selection.candidate.Some? {
      PositionsSame(r, a.candidates, b.candidates, a.selection.candidate.value);
    }
  }

  ghost predicate SameChosen(r: Renaming, a: Option<Candidate>, b: Option<Candidate>) {
    a.Some? == b.Some? && (a.Some? ==> SameCandidate(r, a.value, b.value))
  }

  lemma ExecutedSame(r: Renaming, w: World, e: Event, f: Event, l: Lineage, m: Lineage, c: Option<Candidate>,
                     d: Option<Candidate>,
                     x: Event, y: Event)
    requires Consistent(r) && f.run == e.run && f.episode == e.episode && SameLineage(r, l, m) && SameChosen(r, c, d)
    requires SameEvent(r, w, x, y)
    ensures Executed(f, m, d, y, w) == Executed(e, l, c, x, w)
  {
  }

  lemma EndedSame(r: Renaming, w: World, e: Event, f: Event, l: Lineage, m: Lineage, c: Option<Candidate>,
                  d: Option<Candidate>,
                  x: Event, y: Event)
    requires Consistent(r) && f.run == e.run && f.episode == e.episode && f.step == e.step && SameLineage(r, l, m)
      && SameChosen(r, c, d)
    requires SameEvent(r, w, x, y)
    ensures Ended(f, m, d, y) == Ended(e, l, c, x)
  {
  }

  lemma LinksSame(r: Renaming, w: World, e: Event, f: Event, s: Selection, t: Selection, c: Option<Candidate>,
                  d: Option<Candidate>,
                  ix: Indexes, jx: Indexes)
    requires Consistent(r) && f.run == e.run && f.episode == e.episode && f.step == e.step
    requires SameSelection(r, w, s, t) && SameChosen(r, c, d) && SameIndexed(r, w, ix, jx)
    ensures Linked(f, t, d, jx, w) == Linked(e, s, c, ix, w)
  {
    var key: SelectionKey := (e.run, e.episode, s.id);
    var events, others := LineagesAt(ix, key), LineagesAt(jx, RenamedSelection(r, key));
    assert SameEvents(Alike(r, w), events, LineagesAt(jx, SelectionRenaming(r)(key)));
    if |events| == 1 {
      assert Alike(r, w)(events[0], others[0]);
      if LineageIn(events[0]).Some? {
        LinkedLineageSame(r, w, e, f, s, t, c, d, ix, jx, LineageIn(events[0]).value, LineageIn(others[0]).value);
      }
    }
  }

  lemma LinkedLineageSame(r: Renaming, w: World, e: Event, f: Event, s: Selection, t: Selection, c: Option<Candidate>,
                          d: Option<Candidate>,
                          ix: Indexes, jx: Indexes, l: Lineage, m: Lineage)
    requires Consistent(r) && f.run == e.run && f.episode == e.episode && f.step == e.step
    requires SameSelection(r, w, s, t) && SameChosen(r, c, d) && SameIndexed(r, w, ix, jx) && SameLineage(r, l, m)
    ensures LinkedBy(f, t, d, jx, w, Some(m)) == LinkedBy(e, s, c, ix, w, Some(l))
  {
    OutcomesSame(r, w, e, f, l, m, c, d, ix, jx);
  }

  lemma OutcomesSame(r: Renaming, w: World, e: Event, f: Event, l: Lineage, m: Lineage, c: Option<Candidate>,
                     d: Option<Candidate>,
                     ix: Indexes, jx: Indexes)
    requires Consistent(r) && f.run == e.run && f.episode == e.episode && f.step == e.step
    requires SameLineage(r, l, m) && SameChosen(r, c, d) && SameIndexed(r, w, ix, jx)
    ensures OutcomeOf(f, m, d, jx, w) == OutcomeOf(e, l, c, ix, w)
  {
    var ek, lk := ExecutionKey(e.run, e.episode, l.command), LifecycleKey(e.run, e.episode, l.command);
    FoundSame(r, w, ix, jx, ek);
    FoundSame(r, w, ix, jx, lk);
    if ek in ix.unique {
      ExecutedSame(r, w, e, f, l, m, c, d, ix.unique[ek], jx.unique[RenamedKey(r, ek)]);
    } else if lk in ix.unique {
      EndedSame(r, w, e, f, l, m, c, d, ix.unique[lk], jx.unique[RenamedKey(r, lk)]);
    }
  }

  lemma {:induction false} SafeCandidatesSame(r: Renaming, w: World, intent: string, a: seq<Candidate>,
                                              b: seq<Candidate>)
    requires SameCandidates(r, a, b)
    ensures SafeCandidates(w, intent, b) == SafeCandidates(w, intent, a)
  {
    forall i | 0 <= i < |a| ensures SafeCandidates(w, intent, b)[i] == SafeCandidates(w, intent, a)[i] {
      assert SameCandidate(r, a[i], b[i]);
    }
  }

  /** Past the joins nothing raw is left: the projections are equal. */
  lemma ProjectionsSame(r: Renaming, w: World, e: Event, f: Event, a: Joined, b: Joined, chosen: Option<nat>,
                        link: Link, seed: string)
    requires f.run == e.run && f.episode == e.episode && f.step == e.step && SameJoin(r, w, a, b)
    requires chosen.Some? ==> chosen.value < |a.candidates|
    ensures Project(f, b, chosen, link, w, seed) == Project(e, a, chosen, link, w, seed)
  {
    var semantic := w.semantic(Compacted(a.observation));
    var observation := w.observation(ObservationPayload(e.run, e.episode, e.step, a.observation.gameLoop, semantic));
    var i := a.intent;
    var intent := w.intent(IntentPayload(observation, i.role, i.source, i.version, i.names, i.priority, i.ttl,
                                         i.targetKind));
    SafeCandidatesSame(r, w, intent, a.candidates, b.candidates);
  }

  lemma SamplesOfSame(r: Renaming, w: World, e: Event, f: Event, a: Joined, b: Joined, ix: Indexes, jx: Indexes,
                      seed: string)
    requires Consistent(r) && f.run == e.run && f.episode == e.episode && f.step == e.step
    requires SameJoin(r, w, a, b) && SameIndexed(r, w, ix, jx)
    ensures SampleOf(f, b, jx, w, seed) == SampleOf(e, a, ix, w, seed)
  {
    ChosenSame(r, w, a, b);
    if Chosen(a).Ok? {
      var chosen := Chosen(a).value;
      LinksSame(r, w, e, f, a.selection, b.selection, CandidateAt(a, chosen), CandidateAt(b, chosen), ix, jx);
      var link := Linked(e, a.selection, CandidateAt(a, chosen), ix, w);
      if link.Ok? {
        ProjectionsSame(r, w, e, f, a, b, chosen, link.value, seed);
      }
    }
  }

  lemma SamplesSame(r: Renaming, w: World, e: Event, f: Event, ix: Indexes, jx: Indexes, seed: string)
    requires Consistent(r) && SameEvent(r, w, e, f) && SameIndexed(r, w, ix, jx)
    ensures SampleFrom(f, jx, w, seed) == SampleFrom(e, ix, w, seed)
  {
    JoinsSame(r, w, e, f, ix, jx);
    if Join(e, ix, w).Ok? {
      assert JoinLikeness(r, w)(Join(e, ix, w).value, Join(f, jx, w).value);
      SamplesOfSame(r, w, e, f, Join(e, ix, w).value, Join(f, jx, w).value, ix, jx, seed);
    }
  }

  // ----- all samples --------------------------------------------------------------------

  /** The same loop state, but for the raw selection ids it remembers. */
  ghost predicate SameBuilt(rename: string -> string, a: Built, b: Built) {
    && b.samples == a.samples && b.exclusions == a.exclusions && b.kept == a.kept && b.duplicates == a.duplicates
    && forall id :: id in a.seen <==> rename(id) in b.seen
  }

  lemma SeenOneMore(rename: string -> string, a: set<string>, b: set<string>, id: string)
    requires Injective(rename) && forall x :: x in a <==> rename(x) in b
    ensures forall x :: x in a + {id} <==> rename(x) in b + {rename(id)}
  {
  }

  lemma TakesSame(rename: string -> string, e: Event, f: Event, sample: Result<Sample, Refusal>, a: Built, b: Built)
    requires Injective(rename) && SameBuilt(rename, a, b) && SelectionIdOf(f) == Renamed(rename, SelectionIdOf(e))
    ensures SameBuilt(rename, Take(e, sample, a), Take(f, sample, b))
  {
    if SelectionIdOf(e).Some? {
      SeenOneMore(rename, a.seen, b.seen, SelectionIdOf(e).value);
    }
  }

  lemma {:induction false} BuildsSame(rename: string -> string, a: seq<Event>, b: seq<Event>, p: Sampler, q: Sampler)
    requires Injective(rename) && |b| == |a|
    requires forall i :: 0 <= i < |a| ==>
      q(b[i]) == p(a[i]) && SelectionIdOf(b[i]) == Renamed(rename, SelectionIdOf(a[i]))
    ensures SameBuilt(rename, BuildUpTo(a, p), BuildUpTo(b, q))
  {
    if a != [] {
      var n := |a| - 1;
      BuildsSame(rename, a[..n], b[..n], p, q);
      TakesSame(rename, a[n], b[n], p(a[n]), BuildUpTo(a[..n], p), BuildUpTo(b[..n], q));
    }
  }

  lemma {:induction false} FiltersSame(alike: Likeness, a: seq<Event>, b: seq<Event>, p: Event -> bool)
    requires SameEvents(alike, a, b) && forall x, y :: alike(x, y) ==> p(x) == p(y)
    ensures SameEvents(alike, Filter(a, p), Filter(b, p))
  {
    if a != [] {
      var n := |a| - 1;
      FiltersSame(alike, a[..n], b[..n], p);
      assert alike(a[n], b[n]);
    }
  }

  lemma SelectionsSame(r: Renaming, w: World, a: seq<Event>, b: seq<Event>)
    requires SameEvents(Alike(r, w), a, b)
    ensures SameEvents(Alike(r, w), Filter(a, IsSelection()), Filter(b, IsSelection()))
  {
    FiltersSame(Alike(r, w), a, b, IsSelection());
  }

  lemma AllSamplesSame(r: Renaming, w: World, a: seq<Event>, b: seq<Event>, ix: Indexes, jx: Indexes, seed: string)
    requires Consistent(r) && SameEvents(Alike(r, w), a, b) && SameIndexed(r, w, ix, jx)
    ensures var x, y := BuildUpTo(a, SamplerOf(ix, w, seed)), BuildUpTo(b, SamplerOf(jx, w, seed));
      y.samples == x.samples && y.exclusions == x.exclusions && y.duplicates == x.duplicates
  {
    forall i | 0 <= i < |a|
      ensures SamplerOf(jx, w, seed)(b[i]) == SamplerOf(ix, w, seed)(a[i])
      ensures SelectionIdOf(b[i]) == Renamed(r.selection, SelectionIdOf(a[i]))
    {
      assert Alike(r, w)(a[i], b[i]);
      SamplesSame(r, w, a[i], b[i], ix, jx, seed);
    }
    BuildsSame(r.selection, a, b, SamplerOf(ix, w, seed), SamplerOf(jx, w, seed));
  }

  // ----- source fingerprints ------------------------------------------------------------

  /** Known positions agree under the renaming of intents and candidates. */
  ghost predicate SameOrdinals(rename: string -> string, a: Ordinals, b: Ordinals) {
    forall id :: (id in a <==> rename(id) in b) && (id in a ==> b[rename(id)] == a[id])
  }

  lemma {:induction false} OrdinalsSame(r: Renaming, a: seq<RawCandidate>, b: seq<RawCandidate>)
    requires Consistent(r) && SameRaws(r, a, b)
    ensures SameOrdinals(r.candidate, OrdinalsOf(a), OrdinalsOf(b))
  {
    if a != [] {
      var n := |a| - 1;
      assert SameRaw(r, a[n], b[n]);
      OrdinalsSame(r, a[..n], b[..n]);
    }
  }

  function IntentRenaming(r: Renaming): SelectionKey -> SelectionKey { (k: SelectionKey) => (k.0, k.1, r.intent(k.2)) }

  type Known = map<SelectionKey, Ordinals>

  ghost predicate SameKnown(keys: SelectionKey -> SelectionKey, rename: string -> string, a: Known, b: Known) {
    forall k :: (k in a <==> keys(k) in b) && (k in a ==> SameOrdinals(rename, a[k], b[keys(k)]))
  }

  lemma IntentRenamingIsOneToOne(r: Renaming)
    requires Consistent(r)
    ensures OneToOne(IntentRenaming(r))
  {
    forall k: SelectionKey, l: SelectionKey | IntentRenaming(r)(k) == IntentRenaming(r)(l) ensures k == l {
      assert r.intent(k.2) == r.intent(l.2);
    }
  }

  lemma NotedSame(r: Renaming, w: World, e: Event, f: Event, a: Known, b: Known)
    requires Consistent(r) && SameEvent(r, w, e, f) && SameKnown(IntentRenaming(r), r.candidate, a, b)
    ensures SameKnown(IntentRenaming(r), r.candidate, Noted(e, a), Noted(f, b))
  {
    CandidatesKeysSame(r, w, e, f);
    if CandidatesKeyOf(e).Some? && CandidatesIn(e).Some? {
      OrdinalsSame(r, CandidatesIn(e).value, CandidatesIn(f).value);
      IntentRenamingIsOneToOne(r);
    }
  }

  lemma CandidatesKeysSame(r: Renaming, w: World, a: Event, b: Event)
    requires SameEvent(r, w, a, b)
    ensures CandidatesKeyOf(b) == Mapped(IntentRenaming(r), CandidatesKeyOf(a))
  {
  }

  lemma {:induction false} AllKnownSame(r: Renaming, w: World, a: seq<Event>, b: seq<Event>)
    requires Consistent(r) && SameEvents(Alike(r, w), a, b)
    ensures SameKnown(IntentRenaming(r), r.candidate, CandidateOrdinals(a), CandidateOrdinals(b))
  {
    if a != [] {
      var n := |a| - 1;
      AllKnownSame(r, w, a[..n], b[..n]);
      assert Alike(r, w)(a[n], b[n]);
      NotedSame(r, w, a[n], b[n], CandidateOrdinals(a[..n]), CandidateOrdinals(b[..n]));
    }
  }

  lemma OrdinalsInSame(keys: SelectionKey -> SelectionKey, rename: string -> string, a: Known, b: Known,
                       k: SelectionKey, id: string)
    requires SameKnown(keys, rename, a, b)
    ensures OrdinalIn(b, keys(k), rename(id)) == OrdinalIn(a, k, id)
  {
    if k in a {
      assert SameOrdinals(rename, a[k], b[keys(k)]);
    }
  }

  lemma {:induction false} ShownSame(r: Renaming, a: seq<RawCandidate>, b: seq<RawCandidate>)
    requires SameRaws(r, a, b)
    ensures Shown(b) == Shown(a)
  {
    if a != [] {
      var n := |a| - 1;
      assert SameRaw(r, a[n], b[n]);
      ShownSame(r, a[..n], b[..n]);
    }
  }

  lemma SelectionsShownSame(r: Renaming, w: World, run: string, episode: string, s: Selection, t: Selection, a: Known,
                            b: Known)
    requires SameSelection(r, w, s, t) && SameKnown(IntentRenaming(r), r.candidate, a, b)
    ensures ShowSelection(w, run, episode, Some(t), b) == ShowSelection(w, run, episode, Some(s), a)
  {
    if s.candidate.Some? {
      OrdinalsInSame(IntentRenaming(r), r.candidate, a, b, (run, episode, s.intent), s.candidate.value);
    }
  }

  lemma LineagesShownSame(r: Renaming, run: string, episode: string, l: Lineage, m: Lineage, a: Known, b: Known)
    requires SameLineage(r, l, m) && SameKnown(IntentRenaming(r), r.candidate, a, b)
    ensures ShowLineage(run, episode, Some(m), b) == ShowLineage(run, episode, Some(l), a)
  {
    OrdinalsInSame(IntentRenaming(r), r.candidate, a, b, (run, episode, l.intent), l.candidate);
  }

  lemma ShowsSame(r: Renaming, w: World, e: Event, f: Event, a: Known, b: Known)
    requires SameEvent(r, w, e, f) && SameKnown(IntentRenaming(r), r.candidate, a, b)
    ensures Show(w, f, b) == Show(w, e, a)
  {
    match e.body
    case CandidatesBody(_, candidates) =>
      if candidates.Some? {
        ShownSame(r, candidates.value, f.body.candidates.value);
      }
    case SelectionBody(_, selection) =>
      if selection.Some? {
        SelectionsShownSame(r, w, e.run, e.episode, selection.value, f.body.selection.value, a, b);
      }
    case LineageBody(_, lineage) =>
      if lineage.Some? {
        LineagesShownSame(r, e.run, e.episode, lineage.value, f.body.lineage.value, a, b);
      }
    case _ => 
  }

  lemma {:induction false} EntriesSame(r: Renaming, w: World, a: seq<Event>, b: seq<Event>, known: Known, other: Known)
    requires SameEvents(Alike(r, w), a, b) && SameKnown(IntentRenaming(r), r.candidate, known, other)
    ensures Entries(w, b, other) == Entries(w, a, known)
  {
    if a != [] {
      var n := |a| - 1;
      EntriesSame(r, w, a[..n], b[..n], known, other);
      assert Alike(r, w)(a[n], b[n]);
      ShowsSame(r, w, a[n], b[n], known, other);
    }
  }

  /** The source fingerprint of a journal does not change either. */
  lemma SourceEntriesSame(r: Renaming, w: World, a: seq<Event>, b: seq<Event>)
    requires Consistent(r) && SameEvents(Alike(r, w), a, b)
    ensures SourceEntries(w, b) == SourceEntries(w, a)
  {
    AllKnownSame(r, w, a, b);
    EntriesSame(r, w, a, b, CandidateOrdinals(a), CandidateOrdinals(b));
  }

  // ----- the whole corpus ---------------------------------------------------------------

  ghost predicate SameJournals(alike: Likeness, a: seq<seq<Event>>, b: seq<seq<Event>>) {
    |b| == |a| && forall i :: 0 <= i < |a| ==> SameEvents(alike, a[i], b[i])
  }

  lemma ConcatSame(alike: Likeness, a: seq<Event>, b: seq<Event>, c: seq<Event>, d: seq<Event>)
    requires SameEvents(alike, a, c) && SameEvents(alike, b, d)
    ensures SameEvents(alike, a + b, c + d)
  {
    forall i | 0 <= i < |a + b| ensures alike((a + b)[i], (c + d)[i]) {
      if i < |a| {
        assert alike(a[i], c[i]);
      } else {
        assert alike(b[i - |a|], d[i - |a|]);
      }
    }
  }

  lemma {:induction false} ConcatsSame(alike: Likeness, a: seq<seq<Event>>, b: seq<seq<Event>>)
    requires SameJournals(alike, a, b)
    ensures SameEvents(alike, Concat(a), Concat(b))
  {
    if a != [] {
      var n := |a| - 1;
      ConcatsSame(alike, a[..n], b[..n]);
      ConcatSame(alike, Concat(a[..n]), a[n], Concat(b[..n]), b[n]);
    }
  }

  lemma {:induction false} SourcesSame(r: Renaming, w: World, digest: seq<Entry> -> string, a: seq<seq<Event>>,
                                       b: seq<seq<Event>>)
    requires Consistent(r) && SameJournals(Alike(r, w), a, b)
    ensures SourcesOf(w, digest, b) == SourcesOf(w, digest, a)
  {
    if a != [] {
      var n := |a| - 1;
      SourcesSame(r, w, digest, a[..n], b[..n]);
      SourceEntriesSame(r, w, a[n], b[n]);
      SelectionsSame(r, w, a[n], b[n]);
    }
  }

  /** Journals that differ only by consistent renamings of runtime identifiers and by redacted
      values give the very same corpus: the same files, the same manifest with the same source
      fingerprints, or the same refusal. */
  lemma CorpusIsPrivate(r: Renaming, a: seq<seq<Event>>, b: seq<seq<Event>>, w: World, codec: Codec,
                        digest: seq<Entry> -> string,
                        seed: string)
    requires Consistent(r) && SameJournals(Alike(r, w), a, b)
    ensures var x, y := CorpusOf(a, w, codec, digest, seed), CorpusOf(b, w, codec, digest, seed);
      y == x || (x.Err? && y.Err? && x.error.DuplicateIdentity? && y.error.DuplicateIdentity?)
  {
    if a != [] && seed != "" {
      var events, others := Concat(a), Concat(b);
      ConcatsSame(Alike(r, w), a, b);
      IndexesStaySame(r, w, events, others);
      if IndexOf(events).Ok? {
        EventsGiveSame(r, w, events, others, IndexOf(events).value, IndexOf(others).value, seed);
        SourcesSame(r, w, digest, a, b);
      }
    }
  }

  lemma EventsGiveSame(r: Renaming, w: World, a: seq<Event>, b: seq<Event>, ix: Indexes, jx: Indexes, seed: string)
    requires Consistent(r) && SameEvents(Alike(r, w), a, b)
    requires SameIndexes(Alike(r, w), KeyRenaming(r), SelectionRenaming(r), ix, jx)
    ensures var p, q := Filter(a, IsSelection()), Filter(b, IsSelection());
      |p| == |q| && GivesSame(BuildUpTo(p, SamplerOf(ix, w, seed)), BuildUpTo(q, SamplerOf(jx, w, seed)))
  {
    SelectionsSame(r, w, a, b);
    AllSamplesSame(r, w, Filter(a, IsSelection()), Filter(b, IsSelection()), ix, jx, seed);
  }

  /** What a corpus takes from the loop over the selections. */
  ghost predicate GivesSame(x: Built, y: Built) {
    Ordered(y) == Ordered(x) && Reasons(y) == Reasons(x)
  }
}
