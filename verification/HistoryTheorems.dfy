/** Idempotence, composition and conservation of history compaction. */
module HistoryTheorems {
  import opened Ordering
  import opened History
  import opened HistoryCompaction

  /** Entries as the compaction keeps them: one per signature, each counted at least once. */
  ghost predicate Kept(entries: seq<Entry>, key: Key) {
    && (forall i, j :: 0 <= i < j < |entries| ==> key(entries[i].content) != key(entries[j].content))
    && Counted(entries)
  }

  ghost predicate Counted(entries: seq<Entry>) {
    forall i :: 0 <= i < |entries| ==> entries[i].repeats >= 1
  }

  lemma {:induction false} AbsorbKeeps(entries: seq<Entry>, inputs: seq<Entry>, key: Key)
    requires Kept(entries, key) && Counted(inputs)
    ensures Kept(AbsorbAll(entries, inputs, key), key)
  {
    if inputs != [] {
      AbsorbKeeps(entries, inputs[..|inputs| - 1], key);
      AbsorbOneKeeps(AbsorbAll(entries, inputs[..|inputs| - 1], key), inputs[|inputs| - 1], key);
    }
  }

  lemma AbsorbOneKeeps(entries: seq<Entry>, entry: Entry, key: Key)
    requires Kept(entries, key) && entry.repeats >= 1
    ensures Kept(Absorb(entries, entry, key), key)
  {
    AbsorbShape(entries, entry, key);
  }

  /** Where everything is after one absorption. */
  lemma AbsorbShape(entries: seq<Entry>, entry: Entry, key: Key)
    ensures var after := Absorb(entries, entry, key);
      if Find(entries, key(entry.content), key) == None then
        && |after| == |entries| + 1 && after[|entries|] == entry
        && (forall i :: 0 <= i < |entries| ==> after[i] == entries[i])
      else
        var p := Find(entries, key(entry.content), key).value;
        && p < |entries| == |after| && after[|after| - 1] == Merge(entries[p], entry)
        && (forall i :: 0 <= i < p ==> after[i] == entries[i])
        && (forall i :: p < i < |entries| ==> after[i - 1] == entries[i])
  {
  }

  lemma {:induction false} AbsorbAllAppend(entries: seq<Entry>, a: seq<Entry>, b: seq<Entry>, key: Key)
    ensures AbsorbAll(entries, a + b, key) == AbsorbAll(AbsorbAll(entries, a, key), b, key)
    decreases |b|
  {
    if b == [] {
      assert a + b == a;
    } else {
      AbsorbAllAppend(entries, a, b[..|b| - 1], key);
      assert (a + b)[..|a + b| - 1] == a + b[..|b| - 1];
    }
  }

  // ----- compacting what was already compacted ------------------------------------------

  /** What a second compaction reads back: a lone entry's first step is its own step. */
  function Forgetful(entry: Entry): Entry {
    if entry.repeats == 1 then entry.(first := OrElse(entry.content.stepId, 0)) else entry
  }

  function ForgetfulAll(entries: seq<Entry>): (r: seq<Entry>)
    ensures |r| == |entries|
    ensures forall i :: 0 <= i < |entries| ==> r[i] == Forgetful(entries[i])
  {
    seq(|entries|, i requires 0 <= i < |entries| => Forgetful(entries[i]))
  }

  lemma {:induction false} AbsorbDistinct(entries: seq<Entry>, key: Key)
    requires forall i, j :: 0 <= i < j < |entries| ==> key(entries[i].content) != key(entries[j].content)
    ensures AbsorbAll([], entries, key) == entries
  {
    if entries != [] {
      var n := |entries| - 1;
      AbsorbDistinct(entries[..n], key);
      AbsorbNew(entries[..n], entries[n], key);
      assert entries == entries[..n] + [entries[n]];
    }
  }

  lemma AbsorbNew(entries: seq<Entry>, entry: Entry, key: Key)
    requires forall i :: 0 <= i < |entries| ==> key(entries[i].content) != key(entry.content)
    ensures Absorb(entries, entry, key) == entries + [entry]
  {
  }

  lemma ReabsorbForgetful(entries: seq<Entry>, key: Key)
    requires Kept(entries, key)
    ensures AbsorbAll([], ForgetfulAll(entries), key) == ForgetfulAll(entries)
  {
    AbsorbDistinct(ForgetfulAll(entries), key);
  }

  lemma ReadsCounted(events: seq<Event>, codec: Codec)
    ensures Counted(ReadAll(events, codec))
  {
  }

  ghost predicate FromBounded(entries: seq<Entry>, codec: Codec) {
    forall i :: 0 <= i < |entries| ==> BoundedFieldsOf(entries[i].content.fields, codec) == entries[i].content.fields
  }

  lemma ReadsBounded(events: seq<Event>, codec: Codec)
    ensures FromBounded(ReadAll(events, codec), codec)
  {
    forall i | 0 <= i < |events|
      ensures BoundedFieldsOf(ReadAll(events, codec)[i].content.fields, codec)
        == ReadAll(events, codec)[i].content.fields
    {
      BoundedEventIdempotent(events[i].fields, codec);
    }
  }

  lemma {:induction false} AbsorbStaysBounded(inputs: seq<Entry>, key: Key, codec: Codec)
    requires FromBounded(inputs, codec)
    ensures FromBounded(AbsorbAll([], inputs, key), codec)
  {
    if inputs != [] {
      var n := |inputs| - 1;
      AbsorbStaysBounded(inputs[..n], key, codec);
      AbsorbShape(AbsorbAll([], inputs[..n], key), inputs[n], key);
    }
  }

  lemma {:induction false} EmitAllReadsBack(entries: seq<Entry>, codec: Codec)
    requires Counted(entries) && FromBounded(entries, codec)
    ensures ReadAll(EmitAll(entries), codec) == ForgetfulAll(entries)
  {
    if entries != [] {
      var n := |entries| - 1;
      EmitAllReadsBack(entries[..n], codec);
      assert EmitAll(entries)[..n] == EmitAll(entries[..n]);
      assert ReadAll(EmitAll(entries), codec)[..n] == ReadAll(EmitAll(entries[..n]), codec);
      assert ForgetfulAll(entries)[..n] == ForgetfulAll(entries[..n]);
      assert EmitAll(entries)[n] == Emit(entries[n]);
    }
  }

  /** All that reading a compacted history back needs to know. */
  lemma CompactedReadsBack(events: seq<Event>, codec: Codec)
    ensures var entries := AbsorbAll([], ReadAll(events, codec), KeyOf(codec));
      && Kept(entries, KeyOf(codec))
      && ReadAll(Compact(events, codec), codec) == ForgetfulAll(entries)
      && AbsorbAll([], ForgetfulAll(entries), KeyOf(codec)) == ForgetfulAll(entries)
  {
    var inputs, key := ReadAll(events, codec), KeyOf(codec);
    ReadsCounted(events, codec);
    ReadsBounded(events, codec);
    AbsorbKeeps([], inputs, key);
    AbsorbStaysBounded(inputs, key, codec);
    EmitAllReadsBack(AbsorbAll([], inputs, key), codec);
    ReabsorbForgetful(AbsorbAll([], inputs, key), key);
  }

  lemma {:induction false} EmitForgets(entries: seq<Entry>)
    ensures EmitAll(ForgetfulAll(entries)) == EmitAll(entries)
  {
    if entries != [] {
      EmitForgets(entries[..|entries| - 1]);
      assert ForgetfulAll(entries)[..|entries| - 1] == ForgetfulAll(entries[..|entries| - 1]);
    }
  }

  /** Compaction is idempotent, for every history. */
  lemma CompactIsIdempotent(events: seq<Event>, codec: Codec)
    ensures Compact(Compact(events, codec), codec) == Compact(events, codec)
  {
    CompactedReadsBack(events, codec);
    EmitForgets(AbsorbAll([], ReadAll(events, codec), KeyOf(codec)));
  }

  /** An occurrence that counts once and carries a first step other than its own. */
  predicate CarriesOwnFirst(entry: Entry) {
    entry.repeats == 1 && entry.first != OrElse(entry.content.stepId, 0)
  }

  ghost predicate Alone(inputs: seq<Entry>, i: nat, key: Key)
    requires i < |inputs|
  {
    forall j :: 0 <= j < |inputs| && j != i ==> key(inputs[j].content) != key(inputs[i].content)
  }

  /** Some event stands alone under its signature and carries a stray first step. */
  ghost predicate HasStrayFirst(inputs: seq<Entry>, key: Key) {
    exists i :: 0 <= i < |inputs| && CarriesOwnFirst(inputs[i]) && Alone(inputs, i, key)
  }

  lemma {:induction false} SignaturesCovered(inputs: seq<Entry>, key: Key, signature: string)
    ensures Find(AbsorbAll([], inputs, key), signature, key).Some? <==> Signed(inputs, key, signature)
  {
    if inputs != [] {
      var n := |inputs| - 1;
      SignaturesCovered(inputs[..n], key, signature);
      AbsorbedSignatures(AbsorbAll([], inputs[..n], key), inputs[n], key, signature);
      SignedOneMore(inputs, key, signature);
    }
  }

  ghost predicate Signed(inputs: seq<Entry>, key: Key, signature: string) {
    exists i :: 0 <= i < |inputs| && key(inputs[i].content) == signature
  }

  lemma SignedOneMore(inputs: seq<Entry>, key: Key, signature: string)
    requires inputs != []
    ensures var n := |inputs| - 1;
      Signed(inputs, key, signature) <==> Signed(inputs[..n], key, signature) || key(inputs[n].content) == signature
  {
    var n := |inputs| - 1;
    if Signed(inputs[..n], key, signature) {
      var i :| 0 <= i < n && key(inputs[..n][i].content) == signature;
      assert key(inputs[i].content) == signature;
    }
    if Signed(inputs, key, signature) {
      var i :| 0 <= i < |inputs| && key(inputs[i].content) == signature;
      if i < n {
        assert key(inputs[..n][i].content) == signature;
      }
    }
  }

  lemma AbsorbedSignatures(entries: seq<Entry>, last: Entry, key: Key, signature: string)
    ensures Find(Absorb(entries, last, key), signature, key).Some? <==>
            Find(entries, signature, key).Some? || key(last.content) == signature
  {
    AbsorbShape(entries, last, key);
    var after := Absorb(entries, last, key);
    if Find(entries, signature, key).Some? && key(last.content) != signature {
      var i := Find(entries, signature, key).value;
      var p := Find(entries, key(last.content), key);
      assert after[if p.None? || i < p.value then i else i - 1] == entries[i];
    }
  }

  /** Entries that count once are exactly the lone inputs that count once. */
  lemma {:induction false} LoneEntries(inputs: seq<Entry>, key: Key, entry: Entry)
    requires entry.repeats == 1 && Counted(inputs)
    ensures entry in AbsorbAll([], inputs, key) <==>
            exists i :: 0 <= i < |inputs| && inputs[i] == entry && Alone(inputs, i, key)
  {
    if inputs != [] {
      var n := |inputs| - 1;
      var init, last := inputs[..n], inputs[n];
      LoneEntries(init, key, entry);
      AbsorbKeeps([], init, key);
      SignaturesCovered(init, key, key(last.content));
      AbsorbedOnce(AbsorbAll([], init, key), last, entry, key);
      AloneSplit(inputs, key, entry);
    }
  }

  lemma AloneSplit(inputs: seq<Entry>, key: Key, entry: Entry)
    requires inputs != []
    ensures var n := |inputs| - 1;
      (exists i :: 0 <= i < |inputs| && inputs[i] == entry && Alone(inputs, i, key)) <==>
        || ((exists i :: 0 <= i < n && inputs[..n][i] == entry && Alone(inputs[..n], i, key))
          && key(entry.content) != key(inputs[n].content))
        || (inputs[n] == entry && !exists i :: 0 <= i < n && key(inputs[..n][i].content) == key(entry.content))
  {
    var n := |inputs| - 1;
    if i :| 0 <= i < |inputs| && inputs[i] == entry && Alone(inputs, i, key) {
      if i < n {
        assert inputs[..n][i] == entry && Alone(inputs[..n], i, key);
      }
    }
    if i :|
      && 0 <= i < n && inputs[..n][i] == entry && Alone(inputs[..n], i, key)
      && key(entry.content) != key(inputs[n].content)
    {
      forall j | 0 <= j < |inputs| && j != i ensures key(inputs[j].content) != key(inputs[i].content) {
        if j < n {
          assert inputs[..n][j] == inputs[j];
        }
      }
      assert Alone(inputs, i, key);
    }
    if inputs[n] == entry && !exists i :: 0 <= i < n && key(inputs[..n][i].content) == key(entry.content) {
      forall j | 0 <= j < n ensures key(inputs[j].content) != key(entry.content) {
        assert inputs[..n][j] == inputs[j];
      }
      assert Alone(inputs, n, key);
    }
  }

  lemma AbsorbedOnce(entries: seq<Entry>, last: Entry, entry: Entry, key: Key)
    requires Kept(entries, key) && last.repeats >= 1 && entry.repeats == 1
    ensures entry in Absorb(entries, last, key) <==>
      || (entry in entries && key(entry.content) != key(last.content))
      || (entry == last && Find(entries, key(last.content), key) == None)
  {
    match Find(entries, key(last.content), key)
    case None =>
    case Some(p) =>
      assert entries == entries[..p] + [entries[p]] + entries[p + 1..];
      assert Merge(entries[p], last).repeats >= 2;
  }

  /** Compacting a prefix first changes nothing, whatever follows, exactly when no event of
      the prefix carries a stray first step. */
  lemma EarlyCompactionIsHarmless(a: seq<Event>, codec: Codec)
    ensures (forall b :: Compact(Compact(a, codec) + b, codec) == Compact(a + b, codec))
       <==> !HasStrayFirst(ReadAll(a, codec), KeyOf(codec))
  {
    var inputs, key := ReadAll(a, codec), KeyOf(codec);
    if HasStrayFirst(inputs, key) {
      var k :| 0 <= k < |inputs| && CarriesOwnFirst(inputs[k]) && Alone(inputs, k, key);
      ReadsCounted(a, codec);
      LoneEntries(inputs, key, inputs[k]);
      StrayFirstIsLost(a, inputs[k], codec);
    } else {
      forall b ensures Compact(Compact(a, codec) + b, codec) == Compact(a + b, codec) {
        NothingStrayComposes(a, b, codec);
      }
    }
  }

  lemma NothingStrayComposes(a: seq<Event>, b: seq<Event>, codec: Codec)
    requires !HasStrayFirst(ReadAll(a, codec), KeyOf(codec))
    ensures Compact(Compact(a, codec) + b, codec) == Compact(a + b, codec)
  {
    var inputs, key := ReadAll(a, codec), KeyOf(codec);
    var entries := AbsorbAll([], inputs, key);
    ReadsCounted(a, codec);
    CompactedReadsBack(a, codec);
    forall i | 0 <= i < |entries| ensures Forgetful(entries[i]) == entries[i] {
      if CarriesOwnFirst(entries[i]) {
        LoneEntries(inputs, key, entries[i]);
      }
    }
    assert ForgetfulAll(entries) == entries;
    ReadAllAppend(Compact(a, codec), b, codec);
    ReadAllAppend(a, b, codec);
    AbsorbAllAppend([], ReadAll(Compact(a, codec), codec), ReadAll(b, codec), key);
    AbsorbAllAppend([], inputs, ReadAll(b, codec), key);
  }

  lemma ReadAllAppend(a: seq<Event>, b: seq<Event>, codec: Codec)
    ensures ReadAll(a + b, codec) == ReadAll(a, codec) + ReadAll(b, codec)
  {
  }

  /** The witness: repeating the stray event's content exposes the forgotten first step. */
  lemma StrayFirstIsLost(a: seq<Event>, entry: Entry, codec: Codec)
    requires entry in AbsorbAll([], ReadAll(a, codec), KeyOf(codec)) && CarriesOwnFirst(entry)
    ensures Compact(Compact(a, codec) + [Emit(entry)], codec) != Compact(a + [Emit(entry)], codec)
  {
    var b, key := [Emit(entry)], KeyOf(codec);
    var entries := AbsorbAll([], ReadAll(a, codec), key);
    CompactedReadsBack(a, codec);
    var p :| 0 <= p < |entries| && entries[p] == entry;
    LoneReadsBack(a, entry, codec);
    MergesDiffer(entries, p, key);
    CompactAppendOne(Compact(a, codec), b, Forgetful(entry), codec);
    CompactAppendOne(a, b, Forgetful(entry), codec);
  }

  lemma LoneReadsBack(a: seq<Event>, entry: Entry, codec: Codec)
    requires entry in AbsorbAll([], ReadAll(a, codec), KeyOf(codec)) && entry.repeats == 1
    ensures ReadAll([Emit(entry)], codec) == [Forgetful(entry)]
  {
    ReadsBounded(a, codec);
    AbsorbStaysBounded(ReadAll(a, codec), KeyOf(codec), codec);
  }

  lemma CompactAppendOne(a: seq<Event>, b: seq<Event>, entry: Entry, codec: Codec)
    requires ReadAll(b, codec) == [entry]
    ensures Compact(a + b, codec)
      == EmitAll(Absorb(AbsorbAll([], ReadAll(a, codec), KeyOf(codec)), entry, KeyOf(codec)))
  {
    ReadAllAppend(a, b, codec);
    AbsorbAllAppend([], ReadAll(a, codec), [entry], KeyOf(codec));
  }

  lemma MergesDiffer(entries: seq<Entry>, p: nat, key: Key)
    requires Kept(entries, key) && p < |entries| && CarriesOwnFirst(entries[p])
    ensures EmitAll(Absorb(ForgetfulAll(entries), Forgetful(entries[p]), key))
         != EmitAll(Absorb(entries, Forgetful(entries[p]), key))
  {
    var again := Forgetful(entries[p]);
    LastMerged(entries, p, again, key);
    LastMerged(ForgetfulAll(entries), p, again, key);
  }

  lemma LastMerged(entries: seq<Entry>, p: nat, entry: Entry, key: Key)
    requires p < |entries| && key(entries[p].content) == key(entry.content)
    requires forall i, j :: 0 <= i < j < |entries| ==> key(entries[i].content) != key(entries[j].content)
    ensures var events := EmitAll(Absorb(entries, entry, key));
      |events| == |entries| && events[|events| - 1] == Emit(Merge(entries[p], entry))
  {
    var found := Find(entries, key(entry.content), key);
    assert found.Some? && found.value == p;
    AbsorbShape(entries, entry, key);
  }

  /** In particular: events without a first step of their own compose. */
  lemma FreshEventsCompose(a: seq<Event>, b: seq<Event>, codec: Codec)
    requires forall e :: e in a ==> e.firstStep == None
    ensures Compact(Compact(a, codec) + b, codec) == Compact(a + b, codec)
  {
    forall i | 0 <= i < |a| ensures !CarriesOwnFirst(ReadAll(a, codec)[i]) {
      assert a[i] in a;
    }
    EarlyCompactionIsHarmless(a, codec);
  }

  // ----- what is conserved --------------------------------------------------------------

  function TotalRepeats(entries: seq<Entry>): int {
    if entries == [] then 0 else TotalRepeats(entries[..|entries| - 1]) + entries[|entries| - 1].repeats
  }

  lemma {:induction false} TotalRepeatsSplit(a: seq<Entry>, b: seq<Entry>)
    ensures TotalRepeats(a + b) == TotalRepeats(a) + TotalRepeats(b)
    decreases |b|
  {
    if b == [] {
      assert a + b == a;
    } else {
      TotalRepeatsSplit(a, b[..|b| - 1]);
      assert (a + b)[..|a + b| - 1] == a + b[..|b| - 1];
    }
  }

  lemma AbsorbAddsRepeats(entries: seq<Entry>, entry: Entry, key: Key)
    ensures TotalRepeats(Absorb(entries, entry, key)) == TotalRepeats(entries) + entry.repeats
  {
    match Find(entries, key(entry.content), key)
    case None =>
      assert (entries + [entry])[..|entries|] == entries;
    case Some(p) =>
      TotalRepeatsSplit(entries[..p] + entries[p + 1..], [Merge(entries[p], entry)]);
      TotalRepeatsSplit(entries[..p], entries[p + 1..]);
      assert entries == entries[..p] + ([entries[p]] + entries[p + 1..]);
      TotalRepeatsSplit(entries[..p], [entries[p]] + entries[p + 1..]);
      TotalRepeatsSplit([entries[p]], entries[p + 1..]);
  }

  lemma {:induction false} AbsorbConserves(inputs: seq<Entry>, key: Key)
    ensures TotalRepeats(AbsorbAll([], inputs, key)) == TotalRepeats(inputs)
  {
    if inputs != [] {
      AbsorbConserves(inputs[..|inputs| - 1], key);
      AbsorbAddsRepeats(AbsorbAll([], inputs[..|inputs| - 1], key), inputs[|inputs| - 1], key);
    }
  }

  lemma {:induction false} ForgettingConserves(entries: seq<Entry>)
    ensures TotalRepeats(ForgetfulAll(entries)) == TotalRepeats(entries)
  {
    if entries != [] {
      ForgettingConserves(entries[..|entries| - 1]);
      assert ForgetfulAll(entries)[..|entries| - 1] == ForgetfulAll(entries[..|entries| - 1]);
    }
  }

  /** No occurrence is lost or invented: the counts read from the compacted history add up
      to the counts read from the original. */
  lemma CompactionConservesOccurrences(events: seq<Event>, codec: Codec)
    ensures TotalRepeats(ReadAll(Compact(events, codec), codec)) == TotalRepeats(ReadAll(events, codec))
  {
    CompactedReadsBack(events, codec);
    AbsorbConserves(ReadAll(events, codec), KeyOf(codec));
    ForgettingConserves(AbsorbAll([], ReadAll(events, codec), KeyOf(codec)));
  }

  /** Position of the last input with this signature, or -1. */
  function LastIndex(inputs: seq<Entry>, signature: string, key: Key): (i: int)
    ensures -1 <= i < |inputs|
  {
    if inputs == [] then -1
    else if key(inputs[|inputs| - 1].content) == signature then |inputs| - 1
    else LastIndex(inputs[..|inputs| - 1], signature, key)
  }

  /** Position of the first input with this signature, or -1. */
  function FirstIndex(inputs: seq<Entry>, signature: string, key: Key): (i: int)
    ensures -1 <= i < |inputs|
  {
    if inputs == [] then -1
    else
      var earlier := FirstIndex(inputs[..|inputs| - 1], signature, key);
      if earlier >= 0 then earlier
      else if key(inputs[|inputs| - 1].content) == signature then |inputs| - 1
      else -1
  }

  /** The entry shows its last occurrence's content and its first occurrence's first step. */
  ghost predicate Placed(entry: Entry, inputs: seq<Entry>, key: Key) {
    var first := FirstIndex(inputs, key(entry.content), key);
    var last := LastIndex(inputs, key(entry.content), key);
    first >= 0 && last >= 0 && entry.content == inputs[last].content && entry.first == inputs[first].first
  }

  ghost predicate ListedByLast(entries: seq<Entry>, inputs: seq<Entry>, key: Key) {
    forall k, l :: 0 <= k < l < |entries| ==>
      LastIndex(inputs, key(entries[k].content), key) < LastIndex(inputs, key(entries[l].content), key)
  }

  ghost predicate Covers(entries: seq<Entry>, inputs: seq<Entry>, key: Key) {
    forall i :: 0 <= i < |inputs| ==> Find(entries, key(inputs[i].content), key).Some?
  }

  /** One entry per signature that occurs, in the order of the last occurrences. */
  lemma {:induction false} EntriesArePlaced(inputs: seq<Entry>, key: Key)
    requires Counted(inputs)
    ensures var entries := AbsorbAll([], inputs, key);
      && (forall k :: 0 <= k < |entries| ==> Placed(entries[k], inputs, key))
      && ListedByLast(entries, inputs, key)
      && Covers(entries, inputs, key)
  {
    if inputs != [] {
      var n := |inputs| - 1;
      var entries := AbsorbAll([], inputs[..n], key);
      EntriesArePlaced(inputs[..n], key);
      AbsorbKeeps([], inputs[..n], key);
      forall i | 0 <= i < |inputs| ensures Find(AbsorbAll([], inputs, key), key(inputs[i].content), key).Some? {
        SignaturesCovered(inputs, key, key(inputs[i].content));
      }
      match Find(entries, key(inputs[n].content), key)
      case None => PlaceNew(entries, inputs, key);
      case Some(p) => PlaceOld(entries, inputs, p, key);
    }
  }

  lemma StillPlaced(entry: Entry, inputs: seq<Entry>, key: Key)
    requires inputs != [] && Placed(entry, inputs[..|inputs| - 1], key)
    requires key(entry.content) != key(inputs[|inputs| - 1].content)
    ensures Placed(entry, inputs, key)
    ensures LastIndex(inputs, key(entry.content), key) == LastIndex(inputs[..|inputs| - 1], key(entry.content), key)
  {
  }

  lemma PlaceNew(entries: seq<Entry>, inputs: seq<Entry>, key: Key)
    requires inputs != [] && Find(entries, key(inputs[|inputs| - 1].content), key) == None
    requires forall k :: 0 <= k < |entries| ==> Placed(entries[k], inputs[..|inputs| - 1], key)
    requires ListedByLast(entries, inputs[..|inputs| - 1], key) && Covers(entries, inputs[..|inputs| - 1], key)
    ensures var after := entries + [inputs[|inputs| - 1]];
      && (forall k :: 0 <= k < |after| ==> Placed(after[k], inputs, key))
      && ListedByLast(after, inputs, key)
  {
    var n := |inputs| - 1;
    var last := inputs[n];
    forall k | 0 <= k < |entries|
      ensures Placed(entries[k], inputs, key) && LastIndex(inputs, key(entries[k].content), key) < n
      ensures LastIndex(inputs, key(entries[k].content), key) == LastIndex(inputs[..n], key(entries[k].content), key)
    {
      StillPlaced(entries[k], inputs, key);
    }
    if FirstIndex(inputs[..n], key(last.content), key) >= 0 {
      FirstIndexFinds(inputs[..n], key(last.content), key);
    }
    assert Placed(last, inputs, key);
  }

  lemma PlaceOld(entries: seq<Entry>, inputs: seq<Entry>, p: nat, key: Key)
    requires inputs != [] && Kept(entries, key)
    requires Find(entries, key(inputs[|inputs| - 1].content), key) == Some(p)
    requires forall k :: 0 <= k < |entries| ==> Placed(entries[k], inputs[..|inputs| - 1], key)
    requires ListedByLast(entries, inputs[..|inputs| - 1], key)
    ensures var after := Absorb(entries, inputs[|inputs| - 1], key);
      && (forall k :: 0 <= k < |after| ==> Placed(after[k], inputs, key))
      && ListedByLast(after, inputs, key)
  {
    var after := Absorb(entries, inputs[|inputs| - 1], key);
    AbsorbShape(entries, inputs[|inputs| - 1], key);
    forall k | 0 <= k < |after| ensures Placed(after[k], inputs, key) {
      PlacedAfter(entries, inputs, p, k, key);
    }
    forall k, l | 0 <= k < l < |after|
      ensures LastIndex(inputs, key(after[k].content), key) < LastIndex(inputs, key(after[l].content), key)
    {
      PlacedAfter(entries, inputs, p, k, key);
      PlacedAfter(entries, inputs, p, l, key);
    }
  }

  /** Entry `k` after merging entry `p` with the last input: still placed, and its last
      index is the old one, or the end for the merged entry. */
  lemma PlacedAfter(entries: seq<Entry>, inputs: seq<Entry>, p: nat, k: nat, key: Key)
    requires inputs != [] && Kept(entries, key) && k < |entries|
    requires Find(entries, key(inputs[|inputs| - 1].content), key) == Some(p)
    requires forall k :: 0 <= k < |entries| ==> Placed(entries[k], inputs[..|inputs| - 1], key)
    ensures var n := |inputs| - 1;
      var after := Absorb(entries, inputs[n], key);
      && |after| == |entries|
      && Placed(after[k], inputs, key)
      && LastIndex(inputs, key(after[k].content), key)
         == if k == |entries| - 1 then n else LastIndex(inputs[..n], key(entries[if k < p then k else k + 1].content),
                                                        key)
  {
    var n := |inputs| - 1;
    AbsorbShape(entries, inputs[n], key);
    if k == |entries| - 1 {
      assert Placed(entries[p], inputs[..n], key);
    } else {
      var before := if k < p then k else k + 1;
      assert Absorb(entries, inputs[n], key)[k] == entries[before];
      StillPlaced(entries[before], inputs, key);
    }
  }

  lemma {:induction false} FirstIndexFinds(inputs: seq<Entry>, signature: string, key: Key)
    requires FirstIndex(inputs, signature, key) >= 0
    ensures key(inputs[FirstIndex(inputs, signature, key)].content) == signature
    ensures forall i :: 0 <= i < FirstIndex(inputs, signature, key) ==> key(inputs[i].content) != signature
  {
    var n := |inputs| - 1;
    if FirstIndex(inputs[..n], signature, key) >= 0 {
      FirstIndexFinds(inputs[..n], signature, key);
    } else {
      NeverFirst(inputs[..n], signature, key);
    }
  }

  lemma {:induction false} NeverFirst(inputs: seq<Entry>, signature: string, key: Key)
    requires FirstIndex(inputs, signature, key) < 0
    ensures forall i :: 0 <= i < |inputs| ==> key(inputs[i].content) != signature
  {
    if inputs != [] {
      NeverFirst(inputs[..|inputs| - 1], signature, key);
    }
  }
}
