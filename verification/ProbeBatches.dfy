/** Partition of qualification probes into batches, and the two validators of a plan. */
module ProbeBatches {
  import opened Folding
  import opened Ordering

  const MAX_RULES_PER_BATCH := 8
  const MAX_BATCHES := 2

  /** An eligible rule with the number of shadow states that support it. */
  datatype Parent = Parent(id: string, states: nat)

  predicate Before(a: Parent, b: Parent) {
    a.states > b.states || (a.states == b.states && StringLess(a.id, b.id))
  }

  function ByRank(): (Parent, Parent) -> bool {
    (a, b) => Before(a, b)
  }

  function Ids(parents: seq<Parent>): (r: seq<string>)
    ensures |r| == |parents| && forall i :: 0 <= i < |r| ==> r[i] == parents[i].id
  {
    if parents == [] then [] else Ids(parents[..|parents| - 1]) + [parents[|parents| - 1].id]
  }

  function Flatten<T>(batches: seq<seq<T>>): seq<T> {
    if batches == [] then [] else Flatten(batches[..|batches| - 1]) + batches[|batches| - 1]
  }

  datatype PartitionError = BadBatchSize | BadBatchCount | DuplicateIds | CapacityExceeded(required: nat)

  predicate HasDuplicates(ids: seq<string>) {
    |set id | id in ids| != |ids|
  }

  function Required(n: nat, k: nat): nat
    requires k >= 1
  {
    if n == 0 then 0 else (n + k - 1) / k
  }

  /** Consecutive slices of `k`, the last one possibly shorter. */
  function Chunks<T>(s: seq<T>, k: nat): seq<seq<T>>
    requires k >= 1
  {
    if s == [] then []
    else if |s| <= k then [s]
    else [s[..k]] + Chunks(s[k..], k)
  }

  function Partition(parents: seq<Parent>, perBatch: int, maxBatches: int): Result<seq<seq<Parent>>, PartitionError> {
    if !(1 <= perBatch <= MAX_RULES_PER_BATCH) then Err(BadBatchSize)
    else if !(1 <= maxBatches <= MAX_BATCHES) then Err(BadBatchCount)
    else
      var ordered := Sort(parents, ByRank());
      if HasDuplicates(Ids(ordered)) then Err(DuplicateIds)
      else if Required(|ordered|, perBatch) > maxBatches then Err(CapacityExceeded(Required(|ordered|, perBatch)))
      else Ok(Chunks(ordered, perBatch))
  }

  // ----- the partition is ordered, complete and bounded ---------------------------------

  lemma {:induction false} FlattenCons<T>(first: seq<T>, rest: seq<seq<T>>)
    ensures Flatten([first] + rest) == first + Flatten(rest)
  {
    if rest == [] {
      assert [first] + rest == [first] && [first][..0] == [];
    } else {
      var n := |rest| - 1;
      FlattenCons(first, rest[..n]);
      InitOfCons(first, rest);
    }
  }

  lemma InitOfCons<T>(first: T, rest: seq<T>)
    requires rest != []
    ensures ([first] + rest)[..|rest|] == [first] + rest[..|rest| - 1]
  {
  }

  /** Slicing loses nothing, fills every slice but the last, and needs exactly the rounded-up
      number of them. */
  lemma {:induction false} ChunksPartition<T>(s: seq<T>, k: nat)
    requires k >= 1
    ensures Flatten(Chunks(s, k)) == s
    ensures |Chunks(s, k)| == Required(|s|, k)
    ensures forall i :: 0 <= i < |Chunks(s, k)| ==> 1 <= |Chunks(s, k)[i]| <= k
    ensures forall i :: 0 <= i < |Chunks(s, k)| - 1 ==> |Chunks(s, k)[i]| == k
    decreases |s|
  {
    if s == [] {
    } else if |s| <= k {
      assert [s][..0] == [];
      RoundUpSmall(|s|, k);
    } else {
      ChunksPartition(s[k..], k);
      FlattenCons(s[..k], Chunks(s[k..], k));
      RoundUpStep(|s|, k);
      assert s[..k] + s[k..] == s;
    }
  }

  lemma RoundUpSmall(n: nat, k: nat)
    requires 1 <= n <= k
    ensures (n + k - 1) / k == 1
  {
    DivideBetween(n + k - 1, k, 1);
  }

  lemma DivideBetween(x: nat, k: nat, q: nat)
    requires k >= 1 && q * k <= x < q * k + k
    ensures x / k == q
  {
    var d := x / k;
    assert d * k <= x < d * k + k;
    assert d + 1 <= q ==> (d + 1) * k <= q * k;
    assert q + 1 <= d ==> (q + 1) * k <= d * k;
  }

  lemma RoundUpStep(n: nat, k: nat)
    requires k >= 1 && n > k
    ensures (n + k - 1) / k == 1 + (n - k + k - 1) / k
  {
    var q := (n - 1) / k;
    assert q * k <= n - 1 < q * k + k;
    assert (q + 1) * k == q * k + k;
    DivideBetween(n + k - 1, k, q + 1);
  }

  lemma CapacityMeaning(n: nat, k: nat, m: nat)
    requires k >= 1
    ensures Required(n, k) <= m <==> n <= k * m
  {
    if n > 0 {
      var q := (n + k - 1) / k;
      assert q * k <= n + k - 1 < q * k + k;
      MultiplyMonotone(q, m, k);
      MultiplyMonotone(m + 1, q, k);
      assert (m + 1) * k == m * k + k;
    }
  }

  lemma MultiplyMonotone(a: nat, b: nat, k: nat)
    ensures a <= b ==> a * k <= b * k
  {
  }

  lemma ByRankIsAKeyOrder()
    ensures KeyOrder(ByRank())
  {
    forall a: Parent, b: Parent ensures Before(a, b) ==> !Before(b, a) {
      StringTrichotomy(a.id, b.id);
    }
    forall a: Parent, b: Parent, c: Parent | Before(a, c) ensures Before(a, b) || Before(b, c) {
      StringTrichotomy(a.id, b.id);
      if StringLess(b.id, a.id) && StringLess(a.id, c.id) {
        StringTransitive(b.id, a.id, c.id);
      }
    }
  }

  lemma DistinctSnoc(s: seq<string>, x: string)
    ensures Distinct(s + [x]) <==> Distinct(s) && x !in s
  {
    var t := s + [x];
    if Distinct(t) {
      forall i, j | 0 <= i < j < |s| ensures s[i] != s[j] {
        assert t[i] != t[j];
      }
      forall i | 0 <= i < |s| ensures s[i] != x {
        assert t[i] != t[|s|];
      }
    }
  }

  lemma {:induction false} NoDuplicatesMeaning(ids: seq<string>)
    ensures HasDuplicates(ids) <==> !Distinct(ids)
    ensures |set id | id in ids| <= |ids|
  {
    if ids != [] {
      var n := |ids| - 1;
      NoDuplicatesMeaning(ids[..n]);
      DistinctSnoc(ids[..n], ids[n]);
      assert ids == ids[..n] + [ids[n]];
      var before := set id | id in ids[..n];
      assert (set id | id in ids) == before + {ids[n]};
    }
  }

  ghost predicate Ranked(s: seq<Parent>) {
    forall i, j :: 0 <= i < j < |s| ==> Before(s[i], s[j])
  }

  /** Partitioning succeeds exactly when the limits are in range, the ids are distinct and
      the capacity suffices. */
  lemma PartitionSucceeds(parents: seq<Parent>, perBatch: int, maxBatches: int)
    ensures Partition(parents, perBatch, maxBatches).Ok? <==>
      && 1 <= perBatch <= MAX_RULES_PER_BATCH && 1 <= maxBatches <= MAX_BATCHES
      && DistinctIds(parents) && |parents| <= perBatch * maxBatches
  {
    if 1 <= perBatch <= MAX_RULES_PER_BATCH && 1 <= maxBatches <= MAX_BATCHES {
      SortedIds(parents);
      NoDuplicatesMeaning(Ids(Sort(parents, ByRank())));
      CapacityMeaning(|parents|, perBatch, maxBatches);
    }
  }

  ghost predicate DistinctIds(parents: seq<Parent>) {
    forall i, j :: 0 <= i < j < |parents| ==> parents[i].id != parents[j].id
  }

  lemma SortedIds(parents: seq<Parent>)
    ensures |Sort(parents, ByRank())| == |parents|
    ensures multiset(Sort(parents, ByRank())) == multiset(parents) && Sorted(Sort(parents, ByRank()), ByRank())
    ensures Distinct(Ids(Sort(parents, ByRank()))) <==> DistinctIds(parents)
  {
    ByRankIsAKeyOrder();
    SortSorts(parents, ByRank());
    SameMembers(Sort(parents, ByRank()), parents);
    IdCountsAgree(Sort(parents, ByRank()), parents);
    NoDuplicatesMeaning(Ids(Sort(parents, ByRank())));
    NoDuplicatesMeaning(Ids(parents));
    assert Distinct(Ids(parents)) <==> DistinctIds(parents);
  }

  lemma IdCountsAgree(a: seq<Parent>, b: seq<Parent>)
    requires multiset(a) == multiset(b)
    ensures (set id | id in Ids(a)) == (set id | id in Ids(b)) && |a| == |b|
  {
    SameMembers(a, b);
    forall id ensures id in Ids(a) <==> id in Ids(b) {
      IdFrom(a, b, id);
      IdFrom(b, a, id);
    }
  }

  lemma IdFrom(a: seq<Parent>, b: seq<Parent>, id: string)
    requires forall x :: x in a ==> x in b
    ensures id in Ids(a) ==> id in Ids(b)
  {
    if id in Ids(a) {
      var i :| 0 <= i < |a| && Ids(a)[i] == id;
      assert a[i] in b;
      var j :| 0 <= j < |b| && b[j] == a[i];
      assert Ids(b)[j] == id;
    }
  }

  /** The batches are the ranked list of all parents cut into full slices. */
  lemma PartitionMeaning(parents: seq<Parent>, perBatch: int, maxBatches: int, batches: seq<seq<Parent>>)
    requires Partition(parents, perBatch, maxBatches) == Ok(batches)
    ensures multiset(Flatten(batches)) == multiset(parents) && Ranked(Flatten(batches))
    ensures |batches| == Required(|parents|, perBatch) <= maxBatches
    ensures forall i :: 0 <= i < |batches| ==> 1 <= |batches[i]| <= perBatch
    ensures forall i :: 0 <= i < |batches| - 1 ==> |batches[i]| == perBatch
  {
    var ordered := Sort(parents, ByRank());
    NoDuplicatesMeaning(Ids(ordered));
    SortedIsRanked(parents);
    SlicesMeaning(ordered, perBatch, batches);
  }

  lemma SlicesMeaning(ordered: seq<Parent>, perBatch: nat, batches: seq<seq<Parent>>)
    requires perBatch >= 1 && batches == Chunks(ordered, perBatch)
    ensures Flatten(batches) == ordered && |batches| == Required(|ordered|, perBatch)
    ensures forall i :: 0 <= i < |batches| ==> 1 <= |batches[i]| <= perBatch
    ensures forall i :: 0 <= i < |batches| - 1 ==> |batches[i]| == perBatch
  {
    ChunksPartition(ordered, perBatch);
  }

  lemma SortedIsRanked(parents: seq<Parent>)
    requires Distinct(Ids(Sort(parents, ByRank())))
    ensures |Sort(parents, ByRank())| == |parents|
    ensures multiset(Sort(parents, ByRank())) == multiset(parents) && Ranked(Sort(parents, ByRank()))
  {
    SortedIds(parents);
    RankIsStrict(Sort(parents, ByRank()));
  }

  lemma RankIsStrict(ordered: seq<Parent>)
    requires Sorted(ordered, ByRank()) && Distinct(Ids(ordered))
    ensures Ranked(ordered)
  {
    forall i, j | 0 <= i < j < |ordered| ensures Before(ordered[i], ordered[j]) {
      assert !ByRank()(ordered[j], ordered[i]);
      assert Ids(ordered)[i] != Ids(ordered)[j];
      StringTrichotomy(ordered[i].id, ordered[j].id);
    }
  }

  /** The listing order of the parents does not matter. */
  lemma PartitionForgetsOrder(a: seq<Parent>, b: seq<Parent>, perBatch: int, maxBatches: int)
    requires multiset(a) == multiset(b)
    ensures Partition(a, perBatch, maxBatches) == Partition(b, perBatch, maxBatches)
  {
    ByRankIsAKeyOrder();
    forall x: Parent, y: Parent | x != y ensures Before(x, y) || Before(y, x) {
      StringTrichotomy(x.id, y.id);
    }
    SortForgetsOrder(a, b, ByRank());
  }

  // ----- the integrity record -----------------------------------------------------------

  function Repeated(flattened: seq<string>): set<string> {
    set id | id in flattened && multiset(flattened)[id] > 1
  }

  function NotIn(s: seq<string>, t: seq<string>): (r: seq<string>)
    ensures forall x :: x in r <==> x in s && x !in t
  {
    if s == [] then []
    else
      var init := NotIn(s[..|s| - 1], t);
      if s[|s| - 1] in t then init else init + [s[|s| - 1]]
  }

  /** The record that is written into the plan. */
  datatype Integrity = Integrity(
    verified: bool, orderedUnion: bool, disjoint: bool, sizesWithinLimit: bool, countWithinLimit: bool,
    sizes: seq<nat>, duplicates: set<string>, missing: seq<string>, extra: seq<string>)

  function SizesOf(batches: seq<seq<string>>): seq<nat> {
    if batches == [] then [] else SizesOf(batches[..|batches| - 1]) + [|batches[|batches| - 1]|]
  }

  function IntegrityOf(eligible: seq<string>, batches: seq<seq<string>>, perBatch: int, maxBatches: int): Integrity {
    var flattened := Flatten(batches);
    var duplicates := Repeated(flattened);
    var missing := NotIn(eligible, flattened);
    var extra := NotIn(flattened, eligible);
    var sizes := forall b :: b in batches ==> 1 <= |b| <= perBatch;
    var count := 1 <= |batches| <= maxBatches;
    Integrity(flattened == eligible && duplicates == {} && missing == [] && extra == [] && sizes && count,
              flattened == eligible, duplicates == {}, sizes, count, SizesOf(batches), duplicates, missing, extra)
  }

  lemma {:induction false} CountsAtMostOne(s: seq<string>)
    ensures Repeated(s) == {} <==> Distinct(s)
  {
    if s != [] {
      var n := |s| - 1;
      var before, last := s[..n], s[n];
      CountsAtMostOne(before);
      DistinctSnoc(before, last);
      assert s == before + [last];
      assert multiset(s) == multiset(before) + multiset{last};
      assert Repeated(s) == Repeated(before) + if last in before then {last} else {} by {
        assert forall id :: id in before ==> id in multiset(before);
      }
    }
  }

  /** An ordered, duplicate-free, bounded partition. */
  ghost predicate Partitions(eligible: seq<string>, batches: seq<seq<string>>, perBatch: int, maxBatches: int) {
    && Flatten(batches) == eligible && Distinct(eligible)
    && (forall b :: b in batches ==> 1 <= |b| <= perBatch) && 1 <= |batches| <= maxBatches
  }

  /** Verified means exactly that; the two membership checks add nothing. */
  lemma VerifiedMeaning(eligible: seq<string>, batches: seq<seq<string>>, perBatch: int, maxBatches: int)
    ensures IntegrityOf(eligible, batches, perBatch, maxBatches).verified <==>
      Partitions(eligible, batches, perBatch, maxBatches)
  {
    CountsAtMostOne(Flatten(batches));
    if Flatten(batches) == eligible {
      assert NotIn(eligible, eligible) == [] by {
        if NotIn(eligible, eligible) != [] {
          assert NotIn(eligible, eligible)[0] in NotIn(eligible, eligible);
        }
      }
    }
  }

  // ----- the plan and its validator -----------------------------------------------------

  datatype Batch = Batch(id: string, index: int, size: int, members: seq<string>, path: string, sha: string)

  datatype Plan = Plan(
    perBatch: int, maxBatches: int, eligible: seq<string>, records: seq<(int, string)>, batches: seq<Batch>,
    verified: bool, eligibleCount: int, requiredBatches: int)

  function Digit(n: nat): char
    requires n < 10
  {
    "0123456789"[n]
  }

  function Decimal(n: nat): string {
    if n < 10 then [Digit(n)] else Decimal(n / 10) + [Digit(n % 10)]
  }

  /** The batch number padded to at least three digits. */
  function BatchId(index: nat): string {
    "batch-" + if index < 10 then "00" + Decimal(index) else if index < 100 then "0" + Decimal(index)
      else Decimal(index)
  }

  function BatchesOf(members: seq<seq<Parent>>, name: nat -> string, path: nat -> string,
                     sha: nat -> string): (r: seq<Batch>)
    ensures |r| == |members|
    ensures forall i :: 0 <= i < |r| ==>
      r[i] == Batch(name(i), i, |members[i]|, Ids(members[i]), path(i), sha(i))
  {
    if members == [] then []
    else
      var i := |members| - 1;
      BatchesOf(members[..i], name, path, sha) + [Batch(name(i), i, |members[i]|, Ids(members[i]), path(i), sha(i))]
  }

  function Members(batches: seq<Batch>): (r: seq<seq<string>>)
    ensures |r| == |batches| && forall i :: 0 <= i < |r| ==> r[i] == batches[i].members
  {
    if batches == [] then [] else Members(batches[..|batches| - 1]) + [batches[|batches| - 1].members]
  }

  function RankRecords(ids: seq<string>): (r: seq<(int, string)>)
    ensures |r| == |ids| && forall i :: 0 <= i < |r| ==> r[i] == (i + 1, ids[i])
  {
    if ids == [] then [] else RankRecords(ids[..|ids| - 1]) + [(|ids|, ids[|ids| - 1])]
  }

  datatype PlanError = NoParents | PartitionFailed(error: PartitionError) | NotVerified

  function Recorded(eligible: seq<string>, batches: seq<Batch>, perBatch: int, maxBatches: int)
    : Result<Plan, PlanError>
  {
    if !IntegrityOf(eligible, Members(batches), perBatch, maxBatches).verified then Err(NotVerified)
    else Ok(PlanOf(eligible, batches, perBatch, maxBatches))
  }

  function PlanOf(eligible: seq<string>, batches: seq<Batch>, perBatch: int, maxBatches: int): Plan {
    Plan(perBatch, maxBatches, eligible, RankRecords(eligible), batches, true, |eligible|, |batches|)
  }

  /** The plan that preparation writes for non-empty eligible parents. */
  function Prepare(parents: seq<Parent>, perBatch: int, maxBatches: int, path: nat -> string, sha: nat -> string)
    : Result<Plan, PlanError>
  {
    if parents == [] then Err(NoParents)
    else
      match Partition(parents, perBatch, maxBatches)
      case Err(e) => Err(PartitionFailed(e))
      case Ok(members) => Recorded(Ids(Flatten(members)), BatchesOf(members, BatchId, path, sha), perBatch, maxBatches)
  }

  lemma {:induction false} IdsOfFlatten(members: seq<seq<Parent>>, batches: seq<seq<string>>)
    requires |members| == |batches| && forall i :: 0 <= i < |members| ==> batches[i] == Ids(members[i])
    ensures Flatten(batches) == Ids(Flatten(members))
  {
    if members != [] {
      var n := |members| - 1;
      IdsOfFlatten(members[..n], batches[..n]);
    }
  }

  lemma ChunksPartitionIds(ordered: seq<Parent>, perBatch: nat, maxBatches: nat, strings: seq<seq<string>>)
    requires ordered != [] && Distinct(Ids(ordered)) && perBatch >= 1 && Required(|ordered|, perBatch) <= maxBatches
    requires |strings| == |Chunks(ordered, perBatch)|
    requires forall i :: 0 <= i < |strings| ==> strings[i] == Ids(Chunks(ordered, perBatch)[i])
    ensures Partitions(Ids(Flatten(Chunks(ordered, perBatch))), strings, perBatch, maxBatches)
  {
    ChunksPartition(ordered, perBatch);
    SlicesPartitionIds(Chunks(ordered, perBatch), strings, perBatch, maxBatches);
  }

  /** What preparation builds is always verified: the integrity failure cannot happen. */
  lemma PreparedPlansAreVerified(parents: seq<Parent>, perBatch: int, maxBatches: int, path: nat -> string,
                                 sha: nat -> string)
    requires parents != [] && Partition(parents, perBatch, maxBatches).Ok?
    ensures Prepare(parents, perBatch, maxBatches, path, sha).Ok?
  {
    var members := Partition(parents, perBatch, maxBatches).value;
    var ordered := Sort(parents, ByRank());
    assert ordered != [] by {
      ByRankIsAKeyOrder();
      SortSorts(parents, ByRank());
      SameMembers(ordered, parents);
    }
    NoDuplicatesMeaning(Ids(ordered));
    var batches := BatchesOf(members, BatchId, path, sha);
    ChunksPartitionIds(ordered, perBatch, maxBatches, Members(batches));
    VerifiedMeaning(Ids(Flatten(members)), Members(batches), perBatch, maxBatches);
    assert Recorded(Ids(Flatten(members)), batches, perBatch, maxBatches).Ok?;
  }

  lemma SlicesPartitionIds(members: seq<seq<Parent>>, strings: seq<seq<string>>, perBatch: int, maxBatches: int)
    requires |strings| == |members| && forall i :: 0 <= i < |members| ==> strings[i] == Ids(members[i])
    requires Distinct(Ids(Flatten(members))) && 1 <= |members| <= maxBatches
    requires forall i :: 0 <= i < |members| ==> 1 <= |members[i]| <= perBatch
    ensures Partitions(Ids(Flatten(members)), strings, perBatch, maxBatches)
  {
    IdsOfFlatten(members, strings);
    forall b | b in strings ensures 1 <= |b| <= perBatch {
      var i :| 0 <= i < |strings| && strings[i] == b;
    }
  }

  datatype PlanFault =
    | EmptyPlan | RepeatedEligible | RecordsOutOfOrder | NoBatches | LimitsOutOfRange | TooManyBatches
    | BadIndex(at: nat) | BadMembers(at: nat) | BadSize(at: nat) | RepeatedMember(at: nat) | Overlap(at: nat)
    | BadProbePath(at: nat) | UnionMismatch | IntegrityMissing | CountMismatch

  /** What the validator demands of each batch by itself. */
  predicate BatchWellFormed(plan: Plan, i: nat, name: nat -> string)
    requires i < |plan.batches|
  {
    var b := plan.batches[i];
    && b.id == name(i) && b.index == i && 1 <= |b.members| <= plan.perBatch
    && b.size == |b.members| && !HasDuplicates(b.members)
  }

  predicate HeaderAccepted(plan: Plan) {
    && plan.eligible != [] && !HasDuplicates(plan.eligible)
    && plan.records == RankRecords(plan.eligible)
    && 1 <= plan.perBatch <= 8 && 1 <= plan.maxBatches <= 2 && 1 <= |plan.batches| <= plan.maxBatches
  }

  ghost predicate BatchesAccepted(plan: Plan, name: nat -> string) {
    && (forall i :: 0 <= i < |plan.batches| ==> BatchWellFormed(plan, i, name))
    && (forall i, j :: 0 <= i < j < |plan.batches| ==> plan.batches[i].path != plan.batches[j].path)
    && Flatten(Members(plan.batches)) == plan.eligible
  }

  ghost function Passing(name: nat -> string): Plan -> bool {
    (plan: Plan) => HeaderAccepted(plan) && BatchesAccepted(plan, name)
  }

  /** The plan is well indexed, its batches partition the eligible parents in order, and its
      counts and integrity flag agree. */
  ghost predicate Accepted(plan: Plan) {
    && Passing(BatchId)(plan)
    && plan.verified && plan.eligibleCount == |plan.eligible| && plan.requiredBatches == |plan.batches|
  }

  /** Each parent's batch. */
  ghost predicate Assigns(owner: map<string, string>, batches: seq<Batch>) {
    && (forall i, p :: 0 <= i < |batches| && p in batches[i].members ==> p in owner && owner[p] == batches[i].id)
    && (forall p :: p in owner ==> exists i :: 0 <= i < |batches| && p in batches[i].members)
  }

  function Owned(owner: map<string, string>, b: Batch): map<string, string> {
    owner + map p | p in b.members :: b.id
  }

  lemma AssignsOneMore(batches: seq<Batch>, i: nat, owner: map<string, string>)
    requires i < |batches| && Assigns(owner, batches[..i])
    requires forall p :: p in owner ==> p !in batches[i].members
    ensures Assigns(Owned(owner, batches[i]), batches[..i + 1])
  {
    var next := Owned(owner, batches[i]);
    var before, after := batches[..i], batches[..i + 1];
    assert after[i] == batches[i] && forall k :: 0 <= k < i ==> after[k] == before[k];
    forall k: nat, p | k < |after| && p in after[k].members ensures p in next && next[p] == after[k].id {
      if k < i {
        assert p in before[k].members;
      }
    }
    forall p | p in next ensures exists k :: 0 <= k < |after| && p in after[k].members {
      if p in batches[i].members {
        assert p in after[i].members;
      } else {
        var k :| 0 <= k < |before| && p in before[k].members;
        assert p in after[k].members;
      }
    }
  }

  lemma MembersOneMore(batches: seq<Batch>, i: nat)
    requires i < |batches|
    ensures Flatten(Members(batches[..i + 1])) == Flatten(Members(batches[..i])) + batches[i].members
  {
    assert batches[..i + 1][..i] == batches[..i];
    var m := Members(batches[..i + 1]);
    assert m == Members(batches[..i]) + [batches[i].members];
    assert m[..i] == Members(batches[..i]);
  }

  lemma {:induction false} FlattenPrefix(batches: seq<Batch>, n: nat)
    requires n <= |batches|
    ensures Flatten(Members(batches[..n])) <= Flatten(Members(batches))
    decreases |batches| - n
  {
    if n < |batches| {
      MembersOneMore(batches, n);
      FlattenPrefix(batches, n + 1);
    } else {
      assert batches[..n] == batches;
    }
  }

  lemma DistinctConcat(a: seq<string>, b: seq<string>)
    requires Distinct(a) && Distinct(b) && forall p :: p in b ==> p !in a
    ensures Distinct(a + b)
  {
    forall i, j | 0 <= i < j < |a + b| ensures (a + b)[i] != (a + b)[j] {
      if i < |a| <= j {
        assert b[j - |a|] in b && a[i] in a;
      }
    }
  }

  /** A parent in two batches makes the union repeat it. */
  lemma OverlapRepeats(batches: seq<Batch>, i: nat, p: string)
    requires i < |batches| && p in batches[i].members && p in Flatten(Members(batches[..i]))
    ensures !Distinct(Flatten(Members(batches)))
  {
    MembersOneMore(batches, i);
    FlattenPrefix(batches, i + 1);
    RepeatRemains(Flatten(Members(batches[..i])), batches[i].members, Flatten(Members(batches)), p);
  }

  lemma RepeatRemains(a: seq<string>, b: seq<string>, all: seq<string>, p: string)
    requires a + b <= all && p in a && p in b
    ensures !Distinct(all)
  {
    var j :| 0 <= j < |a| && a[j] == p;
    var k :| 0 <= k < |b| && b[k] == p;
    assert (a + b)[j] == all[j] && (a + b)[|a| + k] == all[|a| + k];
  }

  /** What the loop over the batches has established before batch `i`. */
  ghost predicate CheckedUpTo(plan: Plan, name: nat -> string, i: nat, flattened: seq<string>,
                              owner: map<string, string>, paths: set<string>)
    requires i <= |plan.batches|
  {
    && (forall k :: 0 <= k < i ==> BatchWellFormed(plan, k, name))
    && PathsSeen(plan.batches, i, paths)
    && flattened == Flatten(Members(plan.batches[..i])) && Distinct(flattened)
    && Assigns(owner, plan.batches[..i]) && Covers(owner, flattened)
  }

  ghost predicate Covers(owner: map<string, string>, flattened: seq<string>) {
    forall p :: p in owner <==> p in flattened
  }

  ghost predicate PathsSeen(batches: seq<Batch>, i: nat, paths: set<string>)
    requires i <= |batches|
  {
    && (forall k, l :: 0 <= k < l < i ==> batches[k].path != batches[l].path)
    && (forall k :: 0 <= k < i ==> batches[k].path in paths)
    && (forall p :: p in paths ==> PathBefore(batches, i, p))
  }

  ghost predicate PathBefore(batches: seq<Batch>, i: nat, p: string)
    requires i <= |batches|
  {
    exists k :: 0 <= k < i && batches[k].path == p
  }

  /** A batch that fails its checks spoils the plan. */
  lemma BatchRefutes(plan: Plan, name: nat -> string, i: nat, flattened: seq<string>, owner: map<string, string>,
                     paths: set<string>)
    requires i < |plan.batches| && CheckedUpTo(plan, name, i, flattened, owner, paths)
    requires !BatchWellFormed(plan, i, name) || plan.batches[i].path in paths
      || exists p :: p in plan.batches[i].members && p in owner
    requires !HasDuplicates(plan.eligible)
    ensures !BatchesAccepted(plan, name)
  {
    if BatchWellFormed(plan, i, name) {
      if plan.batches[i].path in paths {
        assert PathBefore(plan.batches, i, plan.batches[i].path);
      } else {
        var p :| p in plan.batches[i].members && p in owner;
        OverlapRepeats(plan.batches, i, p);
        NoDuplicatesMeaning(plan.eligible);
      }
    }
  }

  lemma CheckedOneMore(plan: Plan, name: nat -> string, i: nat, flattened: seq<string>, owner: map<string, string>,
                       paths: set<string>)
    requires i < |plan.batches| && CheckedUpTo(plan, name, i, flattened, owner, paths)
    requires BatchWellFormed(plan, i, name) && plan.batches[i].path !in paths
    requires forall p :: p in plan.batches[i].members ==> p !in owner
    ensures CheckedUpTo(plan, name, i + 1, flattened + plan.batches[i].members, Owned(owner, plan.batches[i]),
                        paths + {plan.batches[i].path})
  {
    var b := plan.batches[i];
    NoDuplicatesMeaning(b.members);
    MembersOneMore(plan.batches, i);
    AssignsOneMore(plan.batches, i, owner);
    PathsOneMore(plan.batches, i, paths);
    CoversOneMore(owner, flattened, b);
  }

  lemma CoversOneMore(owner: map<string, string>, flattened: seq<string>, b: Batch)
    requires Covers(owner, flattened) && Distinct(flattened) && Distinct(b.members)
    requires forall p :: p in b.members ==> p !in owner
    ensures Covers(Owned(owner, b), flattened + b.members) && Distinct(flattened + b.members)
  {
    DistinctConcat(flattened, b.members);
  }

  lemma PathsOneMore(batches: seq<Batch>, i: nat, paths: set<string>)
    requires i < |batches| && PathsSeen(batches, i, paths) && batches[i].path !in paths
    ensures PathsSeen(batches, i + 1, paths + {batches[i].path})
  {
    forall p | p in paths + {batches[i].path} ensures PathBefore(batches, i + 1, p) {
      if p in paths {
        assert PathBefore(batches, i, p);
      } else {
        assert batches[i].path == p;
      }
    }
  }

  datatype Progress = Progress(flattened: seq<string>, owner: map<string, string>, paths: set<string>)

  /** One round of the loop over the batches. */
  function Advance(plan: Plan, name: nat -> string, i: nat, p: Progress): Result<Progress, PlanFault> {
    if i >= |plan.batches| then Ok(p)
    else
      var b := plan.batches[i];
      if b.id != name(i) || b.index != i then Err(BadIndex(i))
      else if !(1 <= |b.members| <= plan.perBatch) then Err(BadMembers(i))
      else if b.size != |b.members| then Err(BadSize(i))
      else if HasDuplicates(b.members) then Err(RepeatedMember(i))
      else if exists m :: m in b.members && m in p.owner then Err(Overlap(i))
      else if b.path in p.paths then Err(BadProbePath(i))
      else Ok(Progress(p.flattened + b.members, Owned(p.owner, b), p.paths + {b.path}))
  }

  function Rounds(plan: Plan, name: nat -> string): (nat, Progress) -> Result<Progress, PlanFault> {
    (i: nat, p: Progress) => Advance(plan, name, i, p)
  }

  ghost function Checked(plan: Plan, name: nat -> string): (nat, Progress) -> bool {
    (i: nat, p: Progress) => i <= |plan.batches| && CheckedUpTo(plan, name, i, p.flattened, p.owner, p.paths)
  }

  const NOTHING := Progress([], map[], {})

  lemma RoundKeepsChecked(plan: Plan, name: nat -> string, i: nat, p: Progress)
    requires i < |plan.batches| && Checked(plan, name)(i, p)
    ensures Rounds(plan, name)(i, p).Ok? ==> Checked(plan, name)(i + 1, Rounds(plan, name)(i, p).value)
    ensures Rounds(plan, name)(i, p).Err? && !HasDuplicates(plan.eligible) ==> !BatchesAccepted(plan, name)
  {
    var r := Advance(plan, name, i, p);
    assert Rounds(plan, name)(i, p) == r;
    if r.Ok? {
      CheckedOneMore(plan, name, i, p.flattened, p.owner, p.paths);
    } else if !HasDuplicates(plan.eligible) {
      BatchRefutes(plan, name, i, p.flattened, p.owner, p.paths);
    }
  }

  /** The loop over the batches accepts exactly the batches that are well formed, disjoint and
      together the eligible list. */
  lemma RoundsDecide(plan: Plan, name: nat -> string)
    requires !HasDuplicates(plan.eligible)
    ensures var r := Fold(|plan.batches|, NOTHING, Rounds(plan, name));
      && (BatchesAccepted(plan, name) <==> r.Ok? && r.value.flattened == plan.eligible)
      && (r.Ok? ==> Assigns(r.value.owner, plan.batches))
  {
    var n, rounds, checked := |plan.batches|, Rounds(plan, name), Checked(plan, name);
    forall i: nat, p | i < n && checked(i, p) && rounds(i, p).Ok? ensures checked(i + 1, rounds(i, p).value) {
      RoundKeepsChecked(plan, name, i, p);
    }
    if Fold(n, NOTHING, rounds).Err? {
      var i, p := FoldRefusal(n, NOTHING, rounds, checked);
      RoundKeepsChecked(plan, name, i, p);
    } else {
      FoldKeeps(n, NOTHING, rounds, checked);
      assert plan.batches[..n] == plan.batches;
    }
  }

  /** Why a plan is refused: its header first, then its batches one by one, then what they
      make up. */
  function FaultOf(plan: Plan): Option<PlanFault> {
    FaultBut(plan, UnionFault(plan, BatchId))
  }

  /** The checks around the one that the batches make up the eligible list. */
  function FaultBut(plan: Plan, union: Option<PlanFault>): Option<PlanFault> {
    if plan.eligible == [] then Some(EmptyPlan)
    else if HasDuplicates(plan.eligible) then Some(RepeatedEligible)
    else if plan.records != RankRecords(plan.eligible) then Some(RecordsOutOfOrder)
    else if plan.batches == [] then Some(NoBatches)
    else if !(1 <= plan.perBatch <= 8) || !(1 <= plan.maxBatches <= 2) then Some(LimitsOutOfRange)
    else if |plan.batches| > plan.maxBatches then Some(TooManyBatches)
    else if union.Some? then union
    else if !plan.verified then Some(IntegrityMissing)
    else if plan.eligibleCount != |plan.eligible| || plan.requiredBatches != |plan.batches| then Some(CountMismatch)
    else None
  }

  function UnionFault(plan: Plan, name: nat -> string): Option<PlanFault> {
    match Fold(|plan.batches|, NOTHING, Rounds(plan, name))
    case Err(f) => Some(f)
    case Ok(p) => if p.flattened != plan.eligible then Some(UnionMismatch) else None
  }

  /** The structural checks on a plan, in order, with early refusals. */
  method ValidatePlan(plan: Plan) returns (r: Result<map<string, string>, PlanFault>)
    ensures r.Ok? <==> Accepted(plan)
    ensures r.Ok? ==> Assigns(r.value, plan.batches)
    ensures r.Err? ==> FaultOf(plan) == Some(r.error)
  {
    if plan.eligible == [] {
      return Err(EmptyPlan);
    }
    if HasDuplicates(plan.eligible) {
      return Err(RepeatedEligible);
    }
    if plan.records != RankRecords(plan.eligible) {
      return Err(RecordsOutOfOrder);
    }
    if plan.batches == [] {
      return Err(NoBatches);
    }
    if !(1 <= plan.perBatch <= 8) || !(1 <= plan.maxBatches <= 2) {
      return Err(LimitsOutOfRange);
    }
    if |plan.batches| > plan.maxBatches {
      return Err(TooManyBatches);
    }
    var fault, owner := CheckBatches(plan, BatchId);
    if fault.Some? {
      return Err(fault.value);
    }
    if !plan.verified {
      return Err(IntegrityMissing);
    }
    if plan.eligibleCount != |plan.eligible| || plan.requiredBatches != |plan.batches| {
      return Err(CountMismatch);
    }
    return Ok(owner);
  }

  method RunRounds(plan: Plan, name: nat -> string) returns (r: Result<Progress, PlanFault>)
    ensures r == Fold(|plan.batches|, NOTHING, Rounds(plan, name))
  {
    r := Ok(NOTHING);
    var i := 0;
    while i < |plan.batches|
      invariant 0 <= i <= |plan.batches|
      invariant r == Fold(i, NOTHING, Rounds(plan, name)) && r.Ok?
    {
      ghost var before := r.value;
      r := Advance(plan, name, i, r.value);
      assert Rounds(plan, name)(i, before) == r;
      if r.Err? {
        FoldStops(|plan.batches|, i + 1, NOTHING, Rounds(plan, name));
        return;
      }
      i := i + 1;
    }
  }

  method CheckBatches(plan: Plan, name: nat -> string) returns (fault: Option<PlanFault>, owner: map<string, string>)
    requires !HasDuplicates(plan.eligible)
    ensures fault.None? <==> BatchesAccepted(plan, name)
    ensures fault.None? ==> Assigns(owner, plan.batches)
    ensures fault == UnionFault(plan, name)
  {
    var r := RunRounds(plan, name);
    RoundsDecide(plan, name);
    if r.Err? {
      return Some(r.error), map[];
    }
    return if r.value.flattened != plan.eligible then Some(UnionMismatch) else None, r.value.owner;
  }

  // ----- preparation and validation agree -----------------------------------------------

  lemma {:induction false} BatchInUnion(batches: seq<seq<string>>, i: nat)
    requires i < |batches| && Distinct(Flatten(batches))
    ensures Distinct(batches[i])
  {
    var n := |batches| - 1;
    var init, last := Flatten(batches[..n]), batches[n];
    forall j, k | 0 <= j < k < |init| ensures init[j] != init[k] {
      assert (init + last)[j] != (init + last)[k];
    }
    forall j, k | 0 <= j < k < |last| ensures last[j] != last[k] {
      assert (init + last)[|init| + j] != (init + last)[|init| + k];
    }
    if i < n {
      BatchInUnion(batches[..n], i);
    }
  }

  /** The validator only accepts what the integrity record calls verified. */
  lemma AcceptedIsVerified(plan: Plan)
    requires Accepted(plan)
    ensures IntegrityOf(plan.eligible, Members(plan.batches), plan.perBatch, plan.maxBatches).verified
  {
    var members := Members(plan.batches);
    NoDuplicatesMeaning(plan.eligible);
    forall b | b in members ensures 1 <= |b| <= plan.perBatch {
      var i :| 0 <= i < |members| && members[i] == b;
      assert BatchWellFormed(plan, i, BatchId);
    }
    VerifiedMeaning(plan.eligible, members, plan.perBatch, plan.maxBatches);
  }

  /** Every plan that preparation writes, with its probe files apart, passes the validator. */
  lemma PreparedPlansAreAccepted(parents: seq<Parent>, perBatch: int, maxBatches: int, path: nat -> string,
                                 sha: nat -> string)
    requires Prepare(parents, perBatch, maxBatches, path, sha).Ok?
    requires forall i, j :: 0 <= i < j < MAX_BATCHES ==> path(i) != path(j)
    ensures Accepted(Prepare(parents, perBatch, maxBatches, path, sha).value)
  {
    var members := Partition(parents, perBatch, maxBatches).value;
    PartitionSucceeds(parents, perBatch, maxBatches);
    var eligible, batches := Ids(Flatten(members)), BatchesOf(members, BatchId, path, sha);
    VerifiedMeaning(eligible, Members(batches), perBatch, maxBatches);
    BatchFacts(batches, members, BatchId, path, sha);
    PartitioningPlansAreAccepted(PlanOf(eligible, batches, perBatch, maxBatches), BatchId);
  }

  lemma BatchFacts(batches: seq<Batch>, members: seq<seq<Parent>>, name: nat -> string, path: nat -> string,
                   sha: nat -> string)
    requires batches == BatchesOf(members, name, path, sha) && |batches| <= MAX_BATCHES
    requires forall i, j :: 0 <= i < j < MAX_BATCHES ==> path(i) != path(j)
    ensures NamedInOrder(batches, name)
  {
  }

  ghost predicate NamedInOrder(batches: seq<Batch>, name: nat -> string) {
    && (forall i :: 0 <= i < |batches| ==>
          batches[i].id == name(i) && batches[i].index == i && batches[i].size == |batches[i].members|)
    && (forall i, j :: 0 <= i < j < |batches| ==> batches[i].path != batches[j].path)
  }

  lemma PartitioningPlansAreAccepted(plan: Plan, name: nat -> string)
    requires 1 <= plan.perBatch <= MAX_RULES_PER_BATCH && 1 <= plan.maxBatches <= MAX_BATCHES
    requires Partitions(plan.eligible, Members(plan.batches), plan.perBatch, plan.maxBatches)
    requires plan.records == RankRecords(plan.eligible) && NamedInOrder(plan.batches, name)
    ensures Passing(name)(plan)
  {
    NoDuplicatesMeaning(plan.eligible);
    PartitioningBatchesAreAccepted(plan, name);
    UnionIsNotEmpty(Members(plan.batches));
  }

  lemma UnionIsNotEmpty(batches: seq<seq<string>>)
    requires batches != [] && forall b :: b in batches ==> b != []
    ensures Flatten(batches) != []
  {
    assert batches[|batches| - 1] in batches;
  }

  lemma PartitioningBatchesAreAccepted(plan: Plan, name: nat -> string)
    requires NamedInOrder(plan.batches, name)
    requires Partitions(plan.eligible, Members(plan.batches), plan.perBatch, plan.maxBatches)
    ensures BatchesAccepted(plan, name)
  {
    var strings := Members(plan.batches);
    forall i | 0 <= i < |plan.batches| ensures BatchWellFormed(plan, i, name) {
      assert strings[i] in strings;
      BatchInUnion(strings, i);
      NoDuplicatesMeaning(strings[i]);
    }
  }
}
