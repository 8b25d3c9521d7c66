/** Compaction of the memory history: bounding each event, collapsing repeats under a
    signature, and why compacting early loses nothing a later compaction needs. */
module History {
  import opened Ordering

  datatype Json =
    | JNull
    | JBool(b: bool)
    | JNum(n: int)
    | JStr(s: string)
    | JList(items: seq<Json>)
    | JObj(fields: seq<(string, Json)>)

  /** Python's `str` on a JSON value, and the canonical `json.dumps` of an event. */
  datatype Codec = Codec(str: Json -> string, dumps: map<string, Json> -> string)

  // ----- bounding values ----------------------------------------------------------------

  function BoundedText(value: string, limit: nat): (r: string)
    requires limit >= 1
    ensures |r| <= limit
    ensures |value| <= limit ==> r == value
  {
    if |value| <= limit then value else value[..limit - 1] + ['\U{2026}']
  }

  function Position(fields: seq<(string, Json)>, key: string): (p: Option<nat>)
    ensures match p
            case None => forall i :: 0 <= i < |fields| ==> fields[i].0 != key
            case Some(i) => i < |fields| && fields[i].0 == key
  {
    if fields == [] then None
    else if fields[|fields| - 1].0 == key then Some(|fields| - 1)
    else Position(fields[..|fields| - 1], key)
  }

  function Lookup(fields: seq<(string, Json)>, key: string): Option<Json> {
    match Position(fields, key)
    case None => None
    case Some(i) => Some(fields[i].1)
  }

  /** Assignment to a Python dict: overwrite in place, or append a new key. */
  function Put(fields: seq<(string, Json)>, key: string, value: Json): seq<(string, Json)> {
    match Position(fields, key)
    case None => fields + [(key, value)]
    case Some(i) => fields[i := (key, value)]
  }

  function FirstEight<T>(s: seq<T>): (r: seq<T>)
    ensures |r| <= 8 && r <= s && (|s| <= 8 ==> r == s)
  {
    if |s| <= 8 then s else s[..8]
  }

  function BoundedJson(value: Json, depth: nat, codec: Codec): Json
    requires depth <= 3
    decreases 3 - depth, 0
  {
    if value.JStr? then JStr(BoundedText(value.s, 160))
    else if depth >= 3 then JStr(BoundedText(codec.str(value), 160))
    else match value
      case JList(items) => JList(BoundedItems(FirstEight(items), depth, codec))
      case JObj(fields) => JObj(BoundedFields(FirstEight(fields), depth, codec))
      case _ => value
  }

  function BoundedItems(items: seq<Json>, depth: nat, codec: Codec): (r: seq<Json>)
    requires depth < 3
    ensures |r| == |items|
    decreases 2 - depth, 1, |items|
  {
    if items == [] then []
    else BoundedItems(items[..|items| - 1], depth, codec)
         + [BoundedJson(items[|items| - 1], depth + 1, codec)]
  }

  function BoundedFields(fields: seq<(string, Json)>, depth: nat, codec: Codec): seq<(string, Json)>
    requires depth < 3
    decreases 2 - depth, 1, |fields|
  {
    if fields == [] then []
    else
      var (key, value) := fields[|fields| - 1];
      Put(BoundedFields(fields[..|fields| - 1], depth, codec),
          BoundedText(key, 80), BoundedJson(value, depth + 1, codec))
  }

  ghost predicate UniqueKeys(fields: seq<(string, Json)>) {
    forall i, j :: 0 <= i < j < |fields| ==> fields[i].0 != fields[j].0
  }

  /** Short distinct keys over values the next level leaves alone. */
  ghost predicate Settled(fields: seq<(string, Json)>, depth: nat, codec: Codec)
    requires depth < 3
  {
    && UniqueKeys(fields)
    && forall i :: 0 <= i < |fields| ==>
         |fields[i].0| <= 80 && BoundedJson(fields[i].1, depth + 1, codec) == fields[i].1
  }

  lemma PutFacts(fields: seq<(string, Json)>, key: string, value: Json)
    requires UniqueKeys(fields)
    ensures UniqueKeys(Put(fields, key, value))
    ensures |fields| <= |Put(fields, key, value)| <= |fields| + 1
    ensures forall f :: f in Put(fields, key, value) ==> f in fields || f == (key, value)
    ensures (forall i :: 0 <= i < |fields| ==> fields[i].0 != key) ==>
      Put(fields, key, value) == fields + [(key, value)]
  {
  }

  lemma {:induction false} BoundedFieldsSettle(fields: seq<(string, Json)>, depth: nat, codec: Codec)
    requires depth < 3
    ensures Settled(BoundedFields(fields, depth, codec), depth, codec)
    ensures |BoundedFields(fields, depth, codec)| <= |fields|
    decreases 2 - depth, 1, |fields|
  {
    if fields != [] {
      var (key, value) := fields[|fields| - 1];
      var before := BoundedFields(fields[..|fields| - 1], depth, codec);
      BoundedFieldsSettle(fields[..|fields| - 1], depth, codec);
      BoundedJsonIdempotent(value, depth + 1, codec);
      var short, small := BoundedText(key, 80), BoundedJson(value, depth + 1, codec);
      SettledPut(before, short, small, depth, codec);
    }
  }

  lemma SettledPut(before: seq<(string, Json)>, key: string, value: Json, depth: nat, codec: Codec)
    requires depth < 3 && Settled(before, depth, codec)
    requires |key| <= 80 && BoundedJson(value, depth + 1, codec) == value
    ensures Settled(Put(before, key, value), depth, codec) && |Put(before, key, value)| <= |before| + 1
  {
    PutFacts(before, key, value);
    var after := Put(before, key, value);
    forall i | 0 <= i < |after|
      ensures |after[i].0| <= 80 && BoundedJson(after[i].1, depth + 1, codec) == after[i].1
    {
      assert after[i] in after;
    }
  }

  lemma {:induction false} SettledFieldsStay(fields: seq<(string, Json)>, depth: nat, codec: Codec)
    requires depth < 3 && Settled(fields, depth, codec)
    ensures BoundedFields(fields, depth, codec) == fields
    decreases |fields|
  {
    if fields != [] {
      var init, last := fields[..|fields| - 1], fields[|fields| - 1];
      SettledFieldsStay(init, depth, codec);
      PutFacts(init, last.0, last.1);
      assert fields == init + [last];
    }
  }

  lemma {:induction false} BoundedItemsStay(items: seq<Json>, depth: nat, codec: Codec)
    requires depth < 3
    ensures BoundedItems(BoundedItems(items, depth, codec), depth, codec) == BoundedItems(items, depth, codec)
    decreases 2 - depth, 1, |items|
  {
    if items != [] {
      var init, last := items[..|items| - 1], items[|items| - 1];
      BoundedItemsStay(init, depth, codec);
      BoundedJsonIdempotent(last, depth + 1, codec);
      var once := BoundedItems(items, depth, codec);
      assert once[..|once| - 1] == BoundedItems(init, depth, codec);
    }
  }

  /** Bounding a value twice is bounding it once, whatever `str` and however deep. */
  lemma {:induction false} BoundedJsonIdempotent(value: Json, depth: nat, codec: Codec)
    requires depth <= 3
    ensures BoundedJson(BoundedJson(value, depth, codec), depth, codec) == BoundedJson(value, depth, codec)
    decreases 3 - depth, 0
  {
    if depth < 3 {
      match value
      case JList(items) =>
        BoundedItemsStay(FirstEight(items), depth, codec);
      case JObj(fields) =>
        var bounded := BoundedFields(FirstEight(fields), depth, codec);
        BoundedFieldsSettle(FirstEight(fields), depth, codec);
        SettledFieldsStay(bounded, depth, codec);
      case _ =>
    }
  }

  // ----- bounding events ----------------------------------------------------------------

  /** One history entry as a dict; the three counters the compaction reads are typed. */
  datatype Event = Event(fields: map<string, Json>, stepId: Option<int>,
                         firstStep: Option<int>, repeats: Option<int>)

  const EXECUTION_KEYS: set<string> := {
    "protocol_version", "command_id", "success", "action_name", "actor", "source", "status",
    "execution_stage", "failure_code", "pysc2_function", "requested_arguments", "resolved_arguments"}

  const EVENT_KEYS: set<string> := {
    "event_type", "strategic_goal", "summary", "commands", "rejected_commands", "command_id",
    "success", "failure_reason", "pysc2_function", "error_type", "message", "module"}

  const EVIDENCE_KEYS: seq<string> := [
    "target_type", "target_position", "target_tag", "builder_tag", "actor_tag",
    "new_structure_tag", "dispatch_game_loop", "accepted_game_loop", "confirmed_game_loop",
    "worker_orders", "order_seen", "order_last_seen_game_loop", "post_order_grace_game_loops",
    "mineral_delta", "resource_delta", "elapsed_game_loops", "base_timeout_game_loops",
    "effective_timeout_game_loops", "active_order_extension"]

  predicate IsExecution(fields: map<string, Json>) {
    "event_type" in fields && fields["event_type"] == JStr("execution")
  }

  predicate KeepsEvidence(fields: seq<(string, Json)>, key: string) {
    Lookup(fields, key).Some? && (key != "actor_tag" || Lookup(fields, key).value != JNull)
  }

  /** Evidence keys in allow-list order, bounded; an absent actor tag is left out. */
  function Evidence(keys: seq<string>, fields: seq<(string, Json)>, codec: Codec): seq<(string, Json)> {
    if keys == [] then []
    else
      var key := keys[|keys| - 1];
      Evidence(keys[..|keys| - 1], fields, codec)
      + (if KeepsEvidence(fields, key) then [(key, BoundedJson(Lookup(fields, key).value, 0, codec))] else [])
  }

  function TextOf(value: Json, codec: Codec): string {
    if value.JStr? then value.s else codec.str(value)
  }

  /** The bounded value of one field, or None when the field is not retained. */
  function BoundedField(execution: bool, key: string, value: Json, codec: Codec): Option<Json> {
    if execution then
      if key == "event_type" then Some(value)
      else if key in EXECUTION_KEYS then Some(BoundedJson(value, 0, codec))
      else if key == "failure_reason" then
        Some(if value == JNull then JNull else JStr(BoundedText(TextOf(value, codec), 240)))
      else if key == "effect_evidence" && value.JObj? then
        Some(JObj(Evidence(EVIDENCE_KEYS, value.fields, codec)))
      else None
    else if key in EVENT_KEYS then
      Some(if value.JStr? then JStr(BoundedText(value.s, 300)) else value)
    else None
  }

  function BoundedFieldsOf(fields: map<string, Json>, codec: Codec): map<string, Json> {
    map key | key in fields && BoundedField(IsExecution(fields), key, fields[key], codec).Some?
      :: BoundedField(IsExecution(fields), key, fields[key], codec).value
  }

  lemma {:induction false} EvidenceLookup(keys: seq<string>, fields: seq<(string, Json)>, codec: Codec, key: string)
    requires Distinct(keys)
    ensures Lookup(Evidence(keys, fields, codec), key)
         == if key in keys && KeepsEvidence(fields, key)
            then Some(BoundedJson(Lookup(fields, key).value, 0, codec)) else None
  {
    if keys != [] {
      var init, last := keys[..|keys| - 1], keys[|keys| - 1];
      EvidenceLookup(init, fields, codec, key);
      assert keys == init + [last];
      var before := Evidence(init, fields, codec);
      var after := Evidence(keys, fields, codec);
      if KeepsEvidence(fields, last) {
        assert after[..|after| - 1] == before;
      } else {
        assert after == before;
      }
    }
  }

  lemma {:induction false} EvidenceStays(keys: seq<string>, all: seq<string>, fields: seq<(string, Json)>, codec: Codec)
    requires Distinct(all) && forall k :: k in keys ==> k in all
    ensures Evidence(keys, Evidence(all, fields, codec), codec) == Evidence(keys, fields, codec)
  {
    if keys != [] {
      var last := keys[|keys| - 1];
      EvidenceStays(keys[..|keys| - 1], all, fields, codec);
      EvidenceLookup(all, fields, codec, last);
      if KeepsEvidence(fields, last) {
        BoundedJsonIdempotent(Lookup(fields, last).value, 0, codec);
        BoundedNull(Lookup(fields, last).value, codec);
      }
    }
  }

  lemma BoundedNull(value: Json, codec: Codec)
    ensures BoundedJson(value, 0, codec) == JNull <==> value == JNull
  {
  }

  lemma BoundedFieldIdempotent(execution: bool, key: string, value: Json, codec: Codec)
    requires BoundedField(execution, key, value, codec).Some?
    ensures var bounded := BoundedField(execution, key, value, codec).value;
      BoundedField(execution, key, bounded, codec) == Some(bounded)
  {
    if execution {
      if key in EXECUTION_KEYS {
        BoundedJsonIdempotent(value, 0, codec);
      } else if value.JObj? {
        EvidenceKeysDistinct();
        EvidenceStays(EVIDENCE_KEYS, EVIDENCE_KEYS, value.fields, codec);
      }
    }
  }

  lemma EvidenceKeysDistinct()
    ensures Distinct(EVIDENCE_KEYS)
  {
  }

  /** Bounding an event twice is bounding it once. */
  lemma BoundedEventIdempotent(fields: map<string, Json>, codec: Codec)
    ensures BoundedFieldsOf(BoundedFieldsOf(fields, codec), codec) == BoundedFieldsOf(fields, codec)
    ensures IsExecution(BoundedFieldsOf(fields, codec)) == IsExecution(fields)
  {
    var bounded := BoundedFieldsOf(fields, codec);
    KindSurvives(fields, codec);
    forall key | key in bounded ensures BoundedField(IsExecution(fields), key, bounded[key], codec)
      == Some(bounded[key]) {
      BoundedFieldIdempotent(IsExecution(fields), key, fields[key], codec);
    }
  }

  lemma KindSurvives(fields: map<string, Json>, codec: Codec)
    ensures IsExecution(BoundedFieldsOf(fields, codec)) == IsExecution(fields)
  {
    if !IsExecution(fields) && "event_type" in fields && fields["event_type"].JStr? {
      var text := fields["event_type"].s;
      assert |"execution"| == 9;
      if |text| > 300 {
        assert |BoundedText(text, 300)| == 300;
      }
    }
  }
}
