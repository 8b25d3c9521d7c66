/** What a compacted history shows: which values are bounded and how, and for each kind of
    event the last one, the step of the first one, and how often it occurred. */
module HistoryMeaning {
  import opened History
  import opened HistoryCompaction
  import opened HistoryTheorems
  import opened Ordering

  // ----- bounded values -----------------------------------------------------------------

  /** Within the bounds: strings of at most 160 characters; lists and objects of at most 8
      small values down to the third level, and only strings there; and keys of at most 80
      characters, each once. */
  ghost predicate Small(value: Json, depth: nat)
    requires depth <= 3
    decreases value
  {
    match value
    case JStr(s) => |s| <= 160
    case JList(items) => depth < 3 && |items| <= 8 && forall i :: 0 <= i < |items| ==> Small(items[i], depth + 1)
    case JObj(fields) =>
      && depth < 3 && |fields| <= 8
      && (forall i, j :: 0 <= i < j < |fields| ==> fields[i].0 != fields[j].0)
      && forall i :: 0 <= i < |fields| ==> |fields[i].0| <= 80 && Small(fields[i].1, depth + 1)
    case _ => depth < 3
  }

  lemma {:induction false} ItemsAreSmall(items: seq<Json>, depth: nat, codec: Codec)
    requires depth < 3
    ensures forall i :: 0 <= i < |items| ==> Small(BoundedItems(items, depth, codec)[i], depth + 1)
    decreases 2 - depth, 1, |items|
  {
    if items != [] {
      ItemsAreSmall(items[..|items| - 1], depth, codec);
      BoundedIsSmall(items[|items| - 1], depth + 1, codec);
    }
  }

  ghost predicate SmallFields(fields: seq<(string, Json)>, depth: nat)
    requires depth < 3
  {
    && UniqueKeys(fields)
    && forall i :: 0 <= i < |fields| ==> |fields[i].0| <= 80 && Small(fields[i].1, depth + 1)
  }

  lemma {:induction false} FieldsAreSmall(fields: seq<(string, Json)>, depth: nat, codec: Codec)
    requires depth < 3
    ensures SmallFields(BoundedFields(fields, depth, codec), depth)
    ensures |BoundedFields(fields, depth, codec)| <= |fields|
    decreases 2 - depth, 1, |fields|
  {
    if fields != [] {
      var (key, value) := fields[|fields| - 1];
      FieldsAreSmall(fields[..|fields| - 1], depth, codec);
      BoundedIsSmall(value, depth + 1, codec);
      var before := BoundedFields(fields[..|fields| - 1], depth, codec);
      SmallPut(before, BoundedText(key, 80), BoundedJson(value, depth + 1, codec), depth);
    }
  }

  lemma SmallPut(before: seq<(string, Json)>, key: string, value: Json, depth: nat)
    requires depth < 3 && SmallFields(before, depth) && |key| <= 80 && Small(value, depth + 1)
    ensures SmallFields(Put(before, key, value), depth) && |Put(before, key, value)| <= |before| + 1
  {
    PutFacts(before, key, value);
    var after := Put(before, key, value);
    forall i | 0 <= i < |after| ensures |after[i].0| <= 80 && Small(after[i].1, depth + 1) {
      assert after[i] in after;
    }
  }

  lemma {:induction false} BoundedIsSmall(value: Json, depth: nat, codec: Codec)
    requires depth <= 3
    ensures Small(BoundedJson(value, depth, codec), depth)
    decreases 3 - depth, 0
  {
    if depth < 3 && value.JList? {
      ItemsAreSmall(FirstEight(value.items), depth, codec);
    } else if depth < 3 && value.JObj? {
      FieldsAreSmall(FirstEight(value.fields), depth, codec);
    }
  }

  lemma {:induction false} SmallItemsStay(items: seq<Json>, depth: nat, codec: Codec)
    requires depth < 3 && forall i :: 0 <= i < |items| ==> Small(items[i], depth + 1)
    ensures BoundedItems(items, depth, codec) == items
    decreases 2 - depth, 1, |items|
  {
    if items != [] {
      var n := |items| - 1;
      SmallItemsStay(items[..n], depth, codec);
      SmallStays(items[n], depth + 1, codec);
      assert items == items[..n] + [items[n]];
    }
  }

  lemma {:induction false} SmallFieldsStay(fields: seq<(string, Json)>, depth: nat, codec: Codec)
    requires depth < 3 && SmallFields(fields, depth)
    ensures BoundedFields(fields, depth, codec) == fields
    decreases 2 - depth, 1, |fields|
  {
    if fields != [] {
      var n := |fields| - 1;
      SmallFieldsStay(fields[..n], depth, codec);
      SmallStays(fields[n].1, depth + 1, codec);
      PutFacts(fields[..n], fields[n].0, fields[n].1);
      assert fields == fields[..n] + [fields[n]];
    }
  }

  lemma {:induction false} SmallStays(value: Json, depth: nat, codec: Codec)
    requires depth <= 3 && Small(value, depth)
    ensures BoundedJson(value, depth, codec) == value
    decreases 3 - depth, 0
  {
    match value
    case JList(items) => SmallItemsStay(items, depth, codec);
    case JObj(fields) => SmallFieldsStay(fields, depth, codec);
    case _ =>
  }

  /** Bounding makes every value small, and leaves alone exactly the small ones. */
  lemma BoundedMeaning(value: Json, codec: Codec)
    ensures Small(BoundedJson(value, 0, codec), 0)
    ensures BoundedJson(value, 0, codec) == value <==> Small(value, 0)
  {
    BoundedIsSmall(value, 0, codec);
    if Small(value, 0) {
      SmallStays(value, 0, codec);
    }
  }

  /** A text that is too long is cut to one character less and marked. */
  lemma CutMeaning(text: string, limit: nat)
    requires 1 <= limit < |text|
    ensures |BoundedText(text, limit)| == limit
    ensures BoundedText(text, limit)[limit - 1] == '…'
    ensures forall i :: 0 <= i < limit - 1 ==> BoundedText(text, limit)[i] == text[i]
  {
  }

  /** Of a list the first eight are kept, each bounded one level down. */
  lemma ListMeaning(items: seq<Json>, depth: nat, codec: Codec)
    requires depth < 3
    ensures BoundedJson(JList(items), depth, codec).JList?
    ensures var kept := BoundedJson(JList(items), depth, codec).items;
      && |kept| == (if |items| < 8 then |items| else 8)
      && forall i :: 0 <= i < |kept| ==> kept[i] == BoundedJson(items[i], depth + 1, codec)
  {
    ItemsOneByOne(FirstEight(items), depth, codec);
  }

  lemma {:induction false} ItemsOneByOne(items: seq<Json>, depth: nat, codec: Codec)
    requires depth < 3
    ensures forall i :: 0 <= i < |items| ==>
      BoundedItems(items, depth, codec)[i] == BoundedJson(items[i], depth + 1, codec)
    decreases |items|
  {
    if items != [] {
      ItemsOneByOne(items[..|items| - 1], depth, codec);
    }
  }

  /** `value` is what `fields` hold under `key`. */
  ghost predicate HoldsAt(fields: seq<(string, Json)>, key: string, value: Json) {
    exists i :: 0 <= i < |fields| && fields[i] == (key, value)
  }

  lemma PutHolds(fields: seq<(string, Json)>, key: string, value: Json, other: string, kept: Json)
    ensures HoldsAt(Put(fields, key, value), key, value)
    ensures other != key && HoldsAt(fields, other, kept) ==> HoldsAt(Put(fields, key, value), other, kept)
  {
    var after := Put(fields, key, value);
    var p := Position(fields, key);
    if p.None? {
      assert after[|fields|] == (key, value);
    } else {
      assert after[p.value] == (key, value);
    }
    if other != key && HoldsAt(fields, other, kept) {
      var i :| 0 <= i < |fields| && fields[i] == (other, kept);
      assert after[i] == (other, kept);
    }
  }

  /** Of an object the first eight fields are kept, each bounded one level down under its key
      cut to 80 characters; of fields whose keys are cut to the same the last one counts. */
  lemma FieldMeaning(fields: seq<(string, Json)>, depth: nat, codec: Codec, i: nat)
    requires depth < 3 && i < |fields| && i < 8
    requires forall j :: i < j < |fields| && j < 8 ==> BoundedText(fields[j].0, 80) != BoundedText(fields[i].0, 80)
    ensures BoundedJson(JObj(fields), depth, codec).JObj?
    ensures HoldsAt(BoundedJson(JObj(fields), depth, codec).fields, BoundedText(fields[i].0, 80),
                    BoundedJson(fields[i].1, depth + 1, codec))
  {
    var first := FirstEight(fields);
    assert forall j :: 0 <= j < |first| ==> first[j] == fields[j];
    LastFieldHolds(first, depth, codec, i);
  }

  lemma {:induction false} LastFieldHolds(fields: seq<(string, Json)>, depth: nat, codec: Codec, i: nat)
    requires depth < 3 && i < |fields|
    requires forall j :: i < j < |fields| ==> BoundedText(fields[j].0, 80) != BoundedText(fields[i].0, 80)
    ensures HoldsAt(BoundedFields(fields, depth, codec), BoundedText(fields[i].0, 80),
                    BoundedJson(fields[i].1, depth + 1, codec))
    decreases |fields|
  {
    var n := |fields| - 1;
    var before, last := BoundedFields(fields[..n], depth, codec), fields[n];
    var key, value := BoundedText(last.0, 80), BoundedJson(last.1, depth + 1, codec);
    assert BoundedFields(fields, depth, codec) == Put(before, key, value);
    if i < n {
      LastFieldHolds(fields[..n], depth, codec, i);
      PutHolds(before, key, value, BoundedText(fields[i].0, 80), BoundedJson(fields[i].1, depth + 1, codec));
    } else {
      PutHolds(before, key, value, key, value);
    }
  }

  // ----- bounded events -----------------------------------------------------------------

  /** What an execution keeps beside its kind, its reason and its evidence. */
  predicate OfExecution(key: string) {
    || key == "protocol_version" || key == "command_id" || key == "success" || key == "action_name"
    || key == "actor" || key == "source" || key == "status" || key == "execution_stage"
    || key == "failure_code" || key == "pysc2_function"
    || key == "requested_arguments" || key == "resolved_arguments"
  }

  /** What any other event keeps. */
  predicate OfEvent(key: string) {
    || key == "event_type" || key == "strategic_goal" || key == "summary" || key == "commands"
    || key == "rejected_commands" || key == "command_id" || key == "success" || key == "failure_reason"
    || key == "pysc2_function" || key == "error_type" || key == "message" || key == "module"
  }

  predicate OfExecutionEvent(fields: map<string, Json>) {
    "event_type" in fields && fields["event_type"] == JStr("execution")
  }

  /** An ordinary event keeps its keys, texts cut to 300 characters, and nothing else. */
  lemma OrdinaryEventMeaning(fields: map<string, Json>, codec: Codec, key: string)
    requires !OfExecutionEvent(fields)
    ensures var kept := BoundedFieldsOf(fields, codec);
      && (key in kept <==> key in fields && OfEvent(key))
      && (key in kept ==>
            match fields[key]
            case JStr(text) => kept[key] == JStr(BoundedText(text, 300))
            case value => kept[key] == value)
  {
  }

  /** An execution keeps its keys bounded, its reason as a text of at most 240 characters, and
      its evidence if that is an object. */
  lemma ExecutionEventMeaning(fields: map<string, Json>, codec: Codec, key: string)
    requires OfExecutionEvent(fields)
    ensures var kept := BoundedFieldsOf(fields, codec);
      && (key in kept <==>
            && key in fields
            && (key == "event_type" || OfExecution(key) || key == "failure_reason"
                || (key == "effect_evidence" && fields[key].JObj?)))
      && (key in kept && key == "event_type" ==> kept[key] == JStr("execution"))
      && (key in kept && OfExecution(key) ==> kept[key] == BoundedJson(fields[key], 0, codec))
      && (key in kept && key == "failure_reason" ==>
            match fields[key]
            case JNull => kept[key] == JNull
            case JStr(text) => kept[key] == JStr(BoundedText(text, 240))
            case value => kept[key] == JStr(BoundedText(codec.str(value), 240)))
      && (key in kept && key == "effect_evidence" ==>
            kept[key] == JObj(Evidence(EVIDENCE_KEYS, fields[key].fields, codec)))
  {
  }

  /** What is kept of the evidence of an execution. */
  predicate OfEvidence(key: string) {
    || key == "target_type" || key == "target_position" || key == "target_tag" || key == "builder_tag"
    || key == "actor_tag" || key == "new_structure_tag" || key == "dispatch_game_loop"
    || key == "accepted_game_loop" || key == "confirmed_game_loop" || key == "worker_orders"
    || key == "order_seen" || key == "order_last_seen_game_loop" || key == "post_order_grace_game_loops"
    || key == "mineral_delta" || key == "resource_delta" || key == "elapsed_game_loops"
    || key == "base_timeout_game_loops" || key == "effective_timeout_game_loops"
    || key == "active_order_extension"
  }

  /** Evidence is kept under its keys, bounded; an actor tag only if there is one. */
  lemma EvidenceMeaning(fields: seq<(string, Json)>, codec: Codec, key: string)
    ensures Lookup(Evidence(EVIDENCE_KEYS, fields, codec), key) ==
      match Lookup(fields, key)
      case None => None
      case Some(value) =>
        if OfEvidence(key) && !(key == "actor_tag" && value == JNull) then Some(BoundedJson(value, 0, codec)) else None
  {
    EvidenceKeysDistinct();
    EvidenceLookup(EVIDENCE_KEYS, fields, codec, key);
    assert key in EVIDENCE_KEYS <==> OfEvidence(key);
  }

  // ----- the compacted history ----------------------------------------------------------

  /** What tells kinds of events apart: everything kept, but of an execution not its command. */
  function Kind(event: Event, codec: Codec): string {
    var kept := BoundedFieldsOf(event.fields, codec);
    codec.dumps(if OfExecutionEvent(kept) then map key | key in kept && key != "command_id" :: kept[key] else kept)
  }

  lemma KindMeaning(event: Event, codec: Codec)
    ensures KeyOf(codec)(Read(event, codec).content) == Kind(event, codec)
  {
    var kept := BoundedFieldsOf(event.fields, codec);
    assert kept - {"command_id"} == map key | key in kept && key != "command_id" :: kept[key];
  }

  /** How often an event counts: as often as it says, and at least once. */
  function Times(event: Event): int {
    match event.repeats
    case None => 1
    case Some(n) => if n < 1 then 1 else n
  }

  /** The step an event says it first occurred at. */
  function FirstStep(event: Event): int {
    match event.firstStep
    case Some(step) => step
    case None => match event.stepId case Some(step) => step case None => 0
  }

  /** How often events of a kind occurred. */
  function Occurrences(events: seq<Event>, kind: string, codec: Codec): int {
    if events == [] then 0
    else
      var n := |events| - 1;
      Occurrences(events[..n], kind, codec) + if Kind(events[n], codec) == kind then Times(events[n]) else 0
  }

  function RepeatsOf(inputs: seq<Entry>, signature: string, key: Key): int {
    if inputs == [] then 0
    else
      var n := |inputs| - 1;
      RepeatsOf(inputs[..n], signature, key) + if key(inputs[n].content) == signature then inputs[n].repeats else 0
  }

  lemma {:induction false} OccurrencesAreRead(events: seq<Event>, kind: string, codec: Codec)
    ensures RepeatsOf(ReadAll(events, codec), kind, KeyOf(codec)) == Occurrences(events, kind, codec)
  {
    if events != [] {
      var n := |events| - 1;
      OccurrencesAreRead(events[..n], kind, codec);
      KindMeaning(events[n], codec);
      assert ReadAll(events, codec)[..n] == ReadAll(events[..n], codec);
      assert ReadAll(events, codec)[n] == Read(events[n], codec);
    }
  }

  /** The repeats kept under a signature. */
  function KeptRepeats(entries: seq<Entry>, signature: string, key: Key): int {
    match Find(entries, signature, key)
    case None => 0
    case Some(p) => entries[p].repeats
  }

  lemma AbsorbCounts(entries: seq<Entry>, entry: Entry, signature: string, key: Key)
    requires Kept(entries, key)
    ensures KeptRepeats(Absorb(entries, entry, key), signature, key)
         == KeptRepeats(entries, signature, key) + if key(entry.content) == signature then entry.repeats else 0
  {
    AbsorbShape(entries, entry, key);
    AbsorbedSignatures(entries, entry, key, signature);
    var after := Absorb(entries, entry, key);
    var p := Find(entries, key(entry.content), key);
    var a, b := Find(entries, signature, key), Find(after, signature, key);
    if key(entry.content) == signature {
      assert key(after[|after| - 1].content) == signature;
    } else if a.Some? {
      var i := if p.None? || a.value < p.value then a.value else a.value - 1;
      assert after[i] == entries[a.value];
      OnlyOne(entries, entry, key, i, b);
    }
  }

  lemma OnlyOne(entries: seq<Entry>, entry: Entry, key: Key, i: nat, b: Option<nat>)
    requires Kept(entries, key) && i < |Absorb(entries, entry, key)|
    requires b == Find(Absorb(entries, entry, key), key(Absorb(entries, entry, key)[i].content), key)
    ensures b == Some(i)
  {
    AbsorbDistinctly(entries, entry, key);
  }

  lemma AbsorbDistinctly(entries: seq<Entry>, entry: Entry, key: Key)
    requires Kept(entries, key)
    ensures var after := Absorb(entries, entry, key);
      forall i, j :: 0 <= i < j < |after| ==> key(after[i].content) != key(after[j].content)
  {
    if entry.repeats >= 1 {
      AbsorbOneKeeps(entries, entry, key);
    } else {
      AbsorbOneKeeps(entries, entry.(repeats := 1), key);
      AbsorbShape(entries, entry, key);
      AbsorbShape(entries, entry.(repeats := 1), key);
    }
  }

  lemma {:induction false} RepeatsAreKept(inputs: seq<Entry>, signature: string, key: Key)
    requires Counted(inputs)
    ensures KeptRepeats(AbsorbAll([], inputs, key), signature, key) == RepeatsOf(inputs, signature, key)
  {
    if inputs != [] {
      var n := |inputs| - 1;
      assert Counted(inputs[..n]);
      RepeatsAreKept(inputs[..n], signature, key);
      AbsorbKeeps([], inputs[..n], key);
      AbsorbCounts(AbsorbAll([], inputs[..n], key), inputs[n], signature, key);
    }
  }

  /** `shown` stands for a kind of event: the `first` and the `last` of the history are at these
      positions. It shows the last, and if there were several how many, and the step of the first. */
  ghost predicate Shows(shown: Event, events: seq<Event>, first: int, last: int, codec: Codec) {
    && 0 <= first <= last < |events| && Kind(events[first], codec) == Kind(events[last], codec)
    && (forall i :: 0 <= i < first ==> Kind(events[i], codec) != Kind(events[last], codec))
    && (forall i :: last < i < |events| ==> Kind(events[i], codec) != Kind(events[last], codec))
    && shown.fields == BoundedFieldsOf(events[last].fields, codec) && shown.stepId == events[last].stepId
    && var times := Occurrences(events, Kind(events[last], codec), codec);
       if times == 1 then shown.firstStep == None && shown.repeats == None
       else shown.firstStep == Some(FirstStep(events[first])) && shown.repeats == Some(times)
  }

  lemma {:induction false} LastIndexFinds(inputs: seq<Entry>, signature: string, key: Key)
    requires LastIndex(inputs, signature, key) >= 0
    ensures key(inputs[LastIndex(inputs, signature, key)].content) == signature
    ensures forall i :: LastIndex(inputs, signature, key) < i < |inputs| ==> key(inputs[i].content) != signature
  {
    var n := |inputs| - 1;
    if key(inputs[n].content) != signature {
      LastIndexFinds(inputs[..n], signature, key);
    }
  }

  /** Where an entry kept comes from. */
  ghost predicate From(entry: Entry, inputs: seq<Entry>, first: int, last: int, key: Key) {
    && 0 <= first <= last < |inputs| && entry.content == inputs[last].content && entry.first == inputs[first].first
    && key(inputs[first].content) == key(entry.content)
    && (forall i :: 0 <= i < first ==> key(inputs[i].content) != key(entry.content))
    && (forall i :: last < i < |inputs| ==> key(inputs[i].content) != key(entry.content))
    && entry.repeats == RepeatsOf(inputs, key(entry.content), key)
  }

  lemma EntryComesFrom(inputs: seq<Entry>, key: Key, k: nat) returns (first: int, last: int)
    requires Counted(inputs) && k < |AbsorbAll([], inputs, key)|
    ensures From(AbsorbAll([], inputs, key)[k], inputs, first, last, key)
    ensures last == LastIndex(inputs, key(AbsorbAll([], inputs, key)[k].content), key)
  {
    var entries := AbsorbAll([], inputs, key);
    var signature := key(entries[k].content);
    EntriesArePlaced(inputs, key);
    AbsorbKeeps([], inputs, key);
    RepeatsAreKept(inputs, signature, key);
    assert Placed(entries[k], inputs, key);
    first, last := FirstIndex(inputs, signature, key), LastIndex(inputs, signature, key);
    FirstIndexFinds(inputs, signature, key);
    LastIndexFinds(inputs, signature, key);
    var p := Find(entries, signature, key).value;
    assert p == k;
  }

  lemma {:induction false} EmitAllEmits(entries: seq<Entry>)
    ensures forall k :: 0 <= k < |entries| ==> EmitAll(entries)[k] == Emit(entries[k])
  {
    if entries != [] {
      EmitAllEmits(entries[..|entries| - 1]);
    }
  }

  /** Every event of a compacted history stands for a kind of event that occurred. */
  lemma CompactedShows(events: seq<Event>, codec: Codec, k: nat) returns (first: int, last: int)
    requires k < |Compact(events, codec)|
    ensures Shows(Compact(events, codec)[k], events, first, last, codec)
  {
    var inputs, key := ReadAll(events, codec), KeyOf(codec);
    ReadsCounted(events, codec);
    EmitAllEmits(AbsorbAll([], inputs, key));
    first, last := EntryComesFrom(inputs, key, k);
    EntryShows(events, codec, AbsorbAll([], inputs, key)[k], first, last);
  }

  lemma EntryShows(events: seq<Event>, codec: Codec, entry: Entry, first: int, last: int)
    requires From(entry, ReadAll(events, codec), first, last, KeyOf(codec))
    ensures Shows(Emit(entry), events, first, last, codec)
  {
    forall i | 0 <= i < |events|
      ensures KeyOf(codec)(ReadAll(events, codec)[i].content) == Kind(events[i], codec)
    {
      KindMeaning(events[i], codec);
    }
    OccurrencesAreRead(events, Kind(events[last], codec), codec);
  }

  /** And every kind that occurred is shown once, in the order of the last occurrences. */
  lemma EveryKindIsShown(events: seq<Event>, codec: Codec, i: nat) returns (k: nat, first: int, last: int)
    requires i < |events|
    ensures k < |Compact(events, codec)| && Shows(Compact(events, codec)[k], events, first, last, codec)
    ensures Kind(events[last], codec) == Kind(events[i], codec)
  {
    var inputs, key := ReadAll(events, codec), KeyOf(codec);
    ReadsCounted(events, codec);
    EntriesArePlaced(inputs, key);
    KindMeaning(events[i], codec);
    var entries := AbsorbAll([], inputs, key);
    k := Find(entries, key(inputs[i].content), key).value;
    first, last := EntryComesFrom(inputs, key, k);
    EmitAllEmits(entries);
    EntryShows(events, codec, entries[k], first, last);
    KindMeaning(events[last], codec);
  }

  lemma ShownInOrder(events: seq<Event>, codec: Codec, j: nat, k: nat)
    returns (first: int, last: int, first': int, last': int)
    requires j < k < |Compact(events, codec)|
    ensures Shows(Compact(events, codec)[j], events, first, last, codec)
    ensures Shows(Compact(events, codec)[k], events, first', last', codec)
    ensures last < last'
  {
    var inputs, key := ReadAll(events, codec), KeyOf(codec);
    var entries := AbsorbAll([], inputs, key);
    ReadsCounted(events, codec);
    EmitAllEmits(entries);
    first, last := EntryComesFrom(inputs, key, j);
    first', last' := EntryComesFrom(inputs, key, k);
    EntryShows(events, codec, entries[j], first, last);
    EntryShows(events, codec, entries[k], first', last');
    EntriesInOrder(inputs, key, j, k);
  }

  lemma EntriesInOrder(inputs: seq<Entry>, key: Key, j: nat, k: nat)
    requires Counted(inputs) && j < k < |AbsorbAll([], inputs, key)|
    ensures var entries := AbsorbAll([], inputs, key);
      LastIndex(inputs, key(entries[j].content), key) < LastIndex(inputs, key(entries[k].content), key)
  {
    EntriesArePlaced(inputs, key);
  }
}
