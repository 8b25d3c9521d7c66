/** Collapsing the history: one entry per signature, at its last position, with the step
    of its first occurrence and the number of occurrences. */
module HistoryCompaction {
  import opened Ordering
  import opened History

  /** A bounded event without its occurrence counters. */
  datatype Content = Content(fields: map<string, Json>, stepId: Option<int>)

  /** A bounded event with its occurrence counters filled in. */
  datatype Entry = Entry(content: Content, first: int, repeats: int)

  function OrElse(value: Option<int>, default: int): int {
    if value.Some? then value.value else default
  }

  function AtLeastOnce(n: int): (r: int)
    ensures r >= 1
  {
    if n > 1 then n else 1
  }

  function Read(event: Event, codec: Codec): Entry {
    Entry(Content(BoundedFieldsOf(event.fields, codec), event.stepId),
          OrElse(event.firstStep, OrElse(event.stepId, 0)),
          AtLeastOnce(OrElse(event.repeats, 1)))
  }

  /** Everything but the counters; for an execution also without its command. */
  function Signature(content: Content, codec: Codec): string {
    codec.dumps(if IsExecution(content.fields) then content.fields - {"command_id"} else content.fields)
  }

  function Emit(entry: Entry): Event {
    if entry.repeats == 1 then Event(entry.content.fields, entry.content.stepId, None, None)
    else Event(entry.content.fields, entry.content.stepId, Some(entry.first), Some(entry.repeats))
  }

  function EmitAll(entries: seq<Entry>): (events: seq<Event>)
    ensures |events| == |entries|
  {
    if entries == [] then [] else EmitAll(entries[..|entries| - 1]) + [Emit(entries[|entries| - 1])]
  }

  function Merge(old_: Entry, new_: Entry): Entry {
    new_.(first := old_.first, repeats := old_.repeats + new_.repeats)
  }

  /** The signature under which entries are collapsed, as a function of their content. */
  type Key = Content -> string

  function KeyOf(codec: Codec): Key {
    content => Signature(content, codec)
  }

  function Find(entries: seq<Entry>, signature: string, key: Key): (p: Option<nat>)
    ensures match p
            case None => forall i :: 0 <= i < |entries| ==> key(entries[i].content) != signature
            case Some(i) => i < |entries| && key(entries[i].content) == signature
  {
    if entries == [] then None
    else if key(entries[|entries| - 1].content) == signature then Some(|entries| - 1)
    else Find(entries[..|entries| - 1], signature, key)
  }

  /** Move the entry with this signature to the end, merged with the new occurrence. */
  function Absorb(entries: seq<Entry>, entry: Entry, key: Key): seq<Entry> {
    match Find(entries, key(entry.content), key)
    case None => entries + [entry]
    case Some(i) => entries[..i] + entries[i + 1..] + [Merge(entries[i], entry)]
  }

  function AbsorbAll(entries: seq<Entry>, inputs: seq<Entry>, key: Key): seq<Entry> {
    if inputs == [] then entries
    else Absorb(AbsorbAll(entries, inputs[..|inputs| - 1], key), inputs[|inputs| - 1], key)
  }

  function ReadAll(events: seq<Event>, codec: Codec): (inputs: seq<Entry>)
    ensures |inputs| == |events|
    ensures forall i :: 0 <= i < |events| ==> inputs[i] == Read(events[i], codec)
  {
    seq(|events|, i requires 0 <= i < |events| => Read(events[i], codec))
  }

  /** The compacted history. */
  function Compact(events: seq<Event>, codec: Codec): seq<Event> {
    EmitAll(AbsorbAll([], ReadAll(events, codec), KeyOf(codec)))
  }

  // ----- the loop over the history ------------------------------------------------------

  /** A dict slot: signature, position of the latest occurrence, entry. */
  datatype Slot = Slot(signature: string, index: nat, entry: Entry)

  predicate Earlier(a: Slot, b: Slot) { a.index < b.index }

  function EntriesOf(slots: seq<Slot>): (entries: seq<Entry>)
    ensures |entries| == |slots|
    ensures forall i :: 0 <= i < |slots| ==> entries[i] == slots[i].entry
  {
    seq(|slots|, i requires 0 <= i < |slots| => slots[i].entry)
  }

  function FindSlot(slots: seq<Slot>, signature: string): (p: Option<nat>)
    ensures match p
            case None => forall i :: 0 <= i < |slots| ==> slots[i].signature != signature
            case Some(i) => i < |slots| && slots[i].signature == signature
  {
    if slots == [] then None
    else if slots[|slots| - 1].signature == signature then Some(|slots| - 1)
    else FindSlot(slots[..|slots| - 1], signature)
  }

  /** Slots listed by position: strictly increasing below `bound`, keyed by signature. */
  ghost predicate InOrder(slots: seq<Slot>, bound: nat, key: Key) {
    && (forall i :: 0 <= i < |slots| ==> slots[i].index < bound && slots[i].signature == key(slots[i].entry.content))
    && (forall i, j :: 0 <= i < j < |slots| ==>
          slots[i].index < slots[j].index && slots[i].signature != slots[j].signature)
  }

  function SortSlots(slots: seq<Slot>): seq<Slot> {
    Sort(slots, (a, b) => Earlier(a, b))
  }

  /** The dict after one event: overwrite the signature's slot, or add one. */
  function Record(collapsed: seq<Slot>, index: nat, entry: Entry, key: Key): seq<Slot> {
    var signature := key(entry.content);
    match FindSlot(collapsed, signature)
    case None => collapsed + [Slot(signature, index, entry)]
    case Some(p) => collapsed[p := Slot(signature, index, Merge(collapsed[p].entry, entry))]
  }

  /** `collapsed`, in dict order, holds the slots that `ordered` lists by position. */
  ghost predicate Represents(collapsed: seq<Slot>, ordered: seq<Slot>, inputs: seq<Entry>, key: Key) {
    && InOrder(ordered, |inputs|, key)
    && EntriesOf(ordered) == AbsorbAll([], inputs, key)
    && multiset(collapsed) == multiset(ordered)
  }

  method Collapse(events: seq<Event>, codec: Codec) returns (collapsed: seq<Slot>, ghost ordered: seq<Slot>)
    ensures Represents(collapsed, ordered, ReadAll(events, codec), KeyOf(codec))
  {
    var key := KeyOf(codec);
    ghost var inputs := ReadAll(events, codec);
    collapsed, ordered := [], [];
    for index := 0 to |events|
      invariant Represents(collapsed, ordered, inputs[..index], key)
    {
      ordered := RecordStep(collapsed, ordered, inputs, index, key);
      collapsed := Record(collapsed, index, Read(events[index], codec), key);
    }
    assert inputs[..|events|] == inputs;
  }

  /** `compact_memory_events`: a dict from signature to the latest slot, then a sort. */
  method CompactMemoryEvents(events: seq<Event>, codec: Codec) returns (result: seq<Event>)
    ensures result == Compact(events, codec)
  {
    var collapsed, ordered := Collapse(events, codec);
    var sorted := SortSlots(collapsed);
    SortRestoresOrder(collapsed, ordered, |events|, KeyOf(codec));
    result := [];
    for k := 0 to |sorted|
      invariant result == EmitAll(EntriesOf(sorted)[..k])
    {
      assert EntriesOf(sorted)[..k + 1][..k] == EntriesOf(sorted)[..k];
      result := result + [Emit(sorted[k].entry)];
    }
    assert EntriesOf(sorted)[..|sorted|] == EntriesOf(sorted);
  }

  lemma RecordStep(collapsed: seq<Slot>, ordered: seq<Slot>, inputs: seq<Entry>, index: nat, key: Key)
    returns (after: seq<Slot>)
    requires index < |inputs| && Represents(collapsed, ordered, inputs[..index], key)
    ensures Represents(Record(collapsed, index, inputs[index], key), after, inputs[..index + 1], key)
  {
    assert inputs[..index + 1][..index] == inputs[..index];
    var entry := inputs[index];
    SameMembers(collapsed, ordered);
    match FindSlot(collapsed, key(entry.content))
    case None =>
      after := ordered + [Slot(key(entry.content), index, entry)];
      AbsorbNew(ordered, collapsed, index, entry, key);
    case Some(p) =>
      assert collapsed[p] in ordered;
      var q :| 0 <= q < |ordered| && ordered[q] == collapsed[p];
      after := MoveToEnd(ordered, q, index, entry);
      MovedInOrder(ordered, q, index, entry, key);
      MovedAbsorbs(ordered, q, index, entry, key);
      MovedMultiset(collapsed, p, ordered, q, index, entry);
  }

  function MoveToEnd(slots: seq<Slot>, q: nat, index: nat, entry: Entry): seq<Slot>
    requires q < |slots|
  {
    slots[..q] + slots[q + 1..] + [Slot(slots[q].signature, index, Merge(slots[q].entry, entry))]
  }

  lemma AbsorbNew(ordered: seq<Slot>, collapsed: seq<Slot>, index: nat, entry: Entry, key: Key)
    requires InOrder(ordered, index, key) && forall x :: x in ordered <==> x in collapsed
    requires FindSlot(collapsed, key(entry.content)) == None
    ensures var slot := Slot(key(entry.content), index, entry);
      && InOrder(ordered + [slot], index + 1, key)
      && EntriesOf(ordered + [slot]) == Absorb(EntriesOf(ordered), entry, key)
  {
    forall i | 0 <= i < |ordered| ensures ordered[i].signature != key(entry.content) {
      assert ordered[i] in collapsed;
    }
  }

  lemma MovedInOrder(ordered: seq<Slot>, q: nat, index: nat, entry: Entry, key: Key)
    requires InOrder(ordered, index, key) && q < |ordered|
    requires ordered[q].signature == key(entry.content)
    ensures InOrder(MoveToEnd(ordered, q, index, entry), index + 1, key)
  {
    var after := MoveToEnd(ordered, q, index, entry);
    assert key(Merge(ordered[q].entry, entry).content) == key(entry.content);
    forall i | 0 <= i < |after| - 1 ensures after[i] == ordered[if i < q then i else i + 1] {
    }
  }

  lemma MovedAbsorbs(ordered: seq<Slot>, q: nat, index: nat, entry: Entry, key: Key)
    requires InOrder(ordered, index, key) && q < |ordered|
    requires ordered[q].signature == key(entry.content)
    ensures EntriesOf(MoveToEnd(ordered, q, index, entry)) == Absorb(EntriesOf(ordered), entry, key)
  {
    var found := Find(EntriesOf(ordered), key(entry.content), key);
    assert EntriesOf(ordered)[q] == ordered[q].entry;
    assert found.Some?;
    assert ordered[found.value].signature == ordered[q].signature;
    assert found.value == q;
  }

  lemma MovedMultiset(collapsed: seq<Slot>, p: nat, ordered: seq<Slot>, q: nat, index: nat, entry: Entry)
    requires multiset(collapsed) == multiset(ordered) && p < |collapsed| && q < |ordered|
    requires collapsed[p] == ordered[q]
    ensures multiset(collapsed[p := Slot(collapsed[p].signature, index, Merge(collapsed[p].entry, entry))])
         == multiset(MoveToEnd(ordered, q, index, entry))
  {
    assert ordered == ordered[..q] + [ordered[q]] + ordered[q + 1..];
  }

  lemma SortRestoresOrder(collapsed: seq<Slot>, ordered: seq<Slot>, bound: nat, key: Key)
    requires InOrder(ordered, bound, key) && multiset(collapsed) == multiset(ordered)
    ensures SortSlots(collapsed) == ordered
  {
    var less: (Slot, Slot) -> bool := (a, b) => Earlier(a, b);
    SortSorts(collapsed, less);
    SortedUnique(ordered, SortSlots(collapsed), less);
  }
}
