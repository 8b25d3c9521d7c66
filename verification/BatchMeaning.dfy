/** Where each eligible rule ends up, why a request is refused, what a prepared plan says, and
    which status rows are accepted. */
module BatchMeaning {
  import opened BatchStatus
  import opened Folding
  import opened Ordering
  import opened ProbeBatches

  // ----- the partition ------------------------------------------------------------------

  /** The rules that come before `x`: with more supporting states, or as many and a smaller id. */
  ghost function Ahead(parents: seq<Parent>, x: Parent): set<Parent> {
    set y | y in parents && (y.states > x.states || (y.states == x.states && StringLess(y.id, x.id)))
  }

  lemma {:induction false} MembersCount(s: seq<Parent>)
    requires DistinctIds(s)
    ensures |set y | y in s| == |s|
  {
    if s != [] {
      var init, last := s[..|s| - 1], s[|s| - 1];
      MembersCount(init);
      assert last !in init;
      assert (set y | y in s) == (set y | y in init) + {last};
    }
  }

  lemma AheadOfRanked(parents: seq<Parent>, ordered: seq<Parent>, p: nat)
    requires Ranked(ordered) && DistinctIds(ordered) && p < |ordered|
    requires forall y :: y in ordered <==> y in parents
    ensures |Ahead(parents, ordered[p])| == p
  {
    var x := ordered[p];
    MembersCount(ordered[..p]);
    forall y ensures y in Ahead(parents, x) <==> y in ordered[..p] {
      if y in Ahead(parents, x) {
        var q :| 0 <= q < |ordered| && ordered[q] == y;
        StringTrichotomy(y.id, x.id);
        if q >= p {
          RankedIsOneWay(ordered, p, q);
        }
      }
    }
    assert Ahead(parents, x) == set y | y in ordered[..p];
  }

  lemma RankedIsOneWay(ordered: seq<Parent>, p: nat, q: nat)
    requires Ranked(ordered) && p <= q < |ordered|
    ensures !Before(ordered[q], ordered[p])
  {
    StringTrichotomy(ordered[p].id, ordered[q].id);
    assert p < q ==> Before(ordered[p], ordered[q]);
  }

  /** `x` is the p-th of all, counted batch by batch, `k` to a batch. */
  ghost predicate InPlace<T>(batches: seq<seq<T>>, k: int, p: nat, x: T) {
    k >= 1 && p / k < |batches| && p % k < |batches[p / k]| && batches[p / k][p % k] == x
  }

  lemma {:induction false} ChunkAt<T>(s: seq<T>, k: nat, p: nat)
    requires k >= 1 && p < |s|
    ensures InPlace(Chunks(s, k), k, p, s[p])
    decreases |s|
  {
    if |s| <= k || p < k {
      DivideBetween(p, k, 0);
    } else {
      ChunkAt(s[k..], k, p - k);
      DividedLess(p, k);
    }
  }

  lemma DividedLess(p: nat, k: nat)
    requires 1 <= k <= p
    ensures p / k == (p - k) / k + 1 && p % k == (p - k) % k
  {
    var q := (p - k) / k;
    assert (q + 1) * k == q * k + k;
    DivideBetween(p, k, q + 1);
  }

  /** A rule goes to the batch and the place that the number of rules before it gives. */
  lemma PlaceMeaning(parents: seq<Parent>, perBatch: int, maxBatches: int, batches: seq<seq<Parent>>, x: Parent)
    requires Partition(parents, perBatch, maxBatches) == Ok(batches) && x in parents
    ensures InPlace(batches, perBatch, |Ahead(parents, x)|, x)
  {
    var ordered := Sort(parents, ByRank());
    PartitionSucceeds(parents, perBatch, maxBatches);
    SortedIds(parents);
    SortedIsRanked(parents);
    SameMembers(ordered, parents);
    assert Distinct(Ids(ordered));
    assert DistinctIds(ordered) by {
      forall i, j | 0 <= i < j < |ordered| ensures ordered[i].id != ordered[j].id {
        assert Ids(ordered)[i] != Ids(ordered)[j];
      }
    }
    var p :| 0 <= p < |ordered| && ordered[p] == x;
    AheadOfRanked(parents, ordered, p);
    ChunkAt(ordered, perBatch, p);
  }

  /** Why a request is refused: first the limits ... */
  lemma LimitRefusalMeaning(parents: seq<Parent>, perBatch: int, maxBatches: int)
    ensures var r := Partition(parents, perBatch, maxBatches);
      && (r == Err(BadBatchSize) <==> perBatch < 1 || perBatch > 8)
      && (r == Err(BadBatchCount) <==> 1 <= perBatch <= 8 && (maxBatches < 1 || maxBatches > 2))
  {
  }

  /** `n` rules need that many batches of `k`: fewer do not hold them. */
  ghost predicate NeedsBatches(n: nat, k: nat, required: nat) {
    n <= k * required && (required > 0 ==> k * (required - 1) < n)
  }

  lemma DuplicateRefusalMeaning(parents: seq<Parent>, perBatch: int, maxBatches: int)
    requires 1 <= perBatch <= 8 && 1 <= maxBatches <= 2
    ensures Partition(parents, perBatch, maxBatches) == Err(DuplicateIds) <==>
            exists i, j :: 0 <= i < j < |parents| && parents[i].id == parents[j].id
  {
    PartitionSucceeds(parents, perBatch, maxBatches);
    SortedIds(parents);
    NoDuplicatesMeaning(Ids(Sort(parents, ByRank())));
  }

  lemma CapacityRefusalMeaning(parents: seq<Parent>, perBatch: int, maxBatches: int, required: nat)
    requires 1 <= perBatch <= 8 && 1 <= maxBatches <= 2
    requires Partition(parents, perBatch, maxBatches) == Err(CapacityExceeded(required))
    ensures required > maxBatches && NeedsBatches(|parents|, perBatch, required)
  {
    SortedIds(parents);
    RequiredMeaning(|parents|, perBatch);
  }

  /** ... then the ids, and then the room: the number of batches that would be needed. */
  lemma RefusalMeaning(parents: seq<Parent>, perBatch: int, maxBatches: int)
    requires 1 <= perBatch <= 8 && 1 <= maxBatches <= 2
    ensures var r := Partition(parents, perBatch, maxBatches);
      && (r == Err(DuplicateIds) <==> exists i, j :: 0 <= i < j < |parents| && parents[i].id == parents[j].id)
      && (r.Ok? ==> |parents| <= perBatch * maxBatches)
      && (r.Err? && r.error.CapacityExceeded? ==>
            r.error.required > maxBatches && NeedsBatches(|parents|, perBatch, r.error.required))
  {
    var r := Partition(parents, perBatch, maxBatches);
    DuplicateRefusalMeaning(parents, perBatch, maxBatches);
    if r.Ok? {
      PartitionSucceeds(parents, perBatch, maxBatches);
    } else if r.error.CapacityExceeded? {
      CapacityRefusalMeaning(parents, perBatch, maxBatches, r.error.required);
    }
  }

  lemma RequiredMeaning(n: nat, k: nat)
    requires k >= 1
    ensures NeedsBatches(n, k, Required(n, k))
  {
    CapacityMeaning(n, k, Required(n, k));
    if Required(n, k) > 0 {
      CapacityMeaning(n, k, Required(n, k) - 1);
    }
  }

  // ----- prepared plans -----------------------------------------------------------------

  function DigitOf(n: nat): char {
    '0' + (n % 10) as char
  }

  /** A batch is named by its number, in three digits. */
  lemma BatchIdMeaning(index: nat)
    requires index < 1000
    ensures BatchId(index) == "batch-" + [DigitOf(index / 100), DigitOf(index / 10), DigitOf(index)]
  {
    DigitsOf(index);
    if index < 10 {
      assert Decimal(index) == [Digit(index)];
    } else if index < 100 {
      assert Decimal(index) == [Digit(index / 10)] + [Digit(index % 10)];
    } else {
      assert Decimal(index / 10) == [Digit(index / 100)] + [Digit(index / 10 % 10)];
    }
  }

  lemma DigitsOf(index: nat)
    ensures forall n: nat :: n < 10 ==> Digit(n) == DigitOf(n)
    ensures index / 10 / 10 == index / 100
  {
    forall n: nat | n < 10 ensures Digit(n) == DigitOf(n) {
      OneDigit(n);
    }
  }

  lemma OneDigit(n: nat)
    requires n < 10
    ensures Digit(n) == DigitOf(n)
  {
  }

  /** What a prepared plan says: batches numbered and named from zero, each with its size, its
      rules by id and the files it goes to; and the eligible ids, ranked from one, are those of
      the batches in order. */
  lemma PreparedMeaning(parents: seq<Parent>, perBatch: int, maxBatches: int, path: nat -> string, sha: nat -> string)
    requires Prepare(parents, perBatch, maxBatches, path, sha).Ok?
    ensures var plan := Prepare(parents, perBatch, maxBatches, path, sha).value;
      var cut := Partition(parents, perBatch, maxBatches);
      && cut.Ok? && |plan.batches| == |cut.value|
      && (forall i :: 0 <= i < |plan.batches| ==>
            plan.batches[i] == Batch(BatchId(i), i, |cut.value[i]|, Ids(cut.value[i]), path(i), sha(i)))
      && plan.eligible == Ids(Flatten(cut.value)) && |plan.records| == |plan.eligible|
      && (forall i :: 0 <= i < |plan.records| ==> plan.records[i] == (i + 1, plan.eligible[i]))
      && plan.perBatch == perBatch && plan.maxBatches == maxBatches && plan.verified
      && plan.eligibleCount == |plan.eligible| && plan.requiredBatches == |plan.batches|
  {
  }

  // ----- status rows --------------------------------------------------------------------

  /** Everything a row attests about its run agrees with the plan. */
  ghost predicate Attests(row: Row, b: Batch, a: Attestation) {
    && row.path == b.path && row.sha == b.sha && row.exitCode == "0"
    && row.gitBefore == a.git && row.gitAfter == a.git && (forall d :: d in row.dirty ==> d == "false")
    && (forall s :: s in row.submodule ==> s == a.submodule) && row.submoduleDiff.0 == row.submoduleDiff.1
    && row.reviewedCommit.0 == a.reviewedCommit && row.reviewedCommit.1 == a.reviewedCommit
    && row.reviewedTree.0 == a.reviewedTree && row.reviewedTree.1 == a.reviewedTree
    && row.reviewedDiff.0 == row.reviewedDiff.1
  }

  /** A row is accepted by itself exactly when it names a batch of the plan with its number,
      one of the seeds 0, 1 and 2, and attests what the plan says. */
  lemma AttestedMeaning(m: Matrix, row: Row)
    requires UniqueBatchIds(m.batches)
    ensures WellAttested(m, row) <==>
      && row.seed in {Some(0), Some(1), Some(2)}
      && exists b :: b in m.batches && b.id == row.batch && row.index == Some(b.index) && Attests(row, b, m.attestation)
  {
    if BatchById(m.batches, row.batch).Some? {
      var b := BatchById(m.batches, row.batch).value;
      forall c | c in m.batches && c.id == row.batch ensures c == b {
        var i :| 0 <= i < |m.batches| && m.batches[i] == c;
        var j :| 0 <= j < |m.batches| && m.batches[j] == b;
      }
      assert Attests(row, b, m.attestation) <==> AttestationFault(row, b, m.attestation) == None;
    }
  }

  /** What is amiss with an attestation, by the first thing that disagrees. */
  lemma AttestationFaultMeaning(row: Row, b: Batch, a: Attestation)
    ensures var f := AttestationFault(row, b, a);
      && (f == None <==> Attests(row, b, a))
      && (f == Some(PathMismatch) <==> row.path != b.path)
      && (f == Some(ShaMismatch) ==> row.path == b.path && row.sha != b.sha)
      && (f == Some(NonzeroExit) ==> row.sha == b.sha && row.exitCode != "0")
      && (f == Some(GitMismatch) ==>
            row.exitCode == "0" && (row.gitBefore != a.git || row.gitAfter != a.git
                                    || exists d :: d in row.dirty && d != "false"))
      && (f == Some(SubmoduleMismatch) ==> row.gitAfter == a.git && exists s :: s in row.submodule && s != a.submodule)
      && (f == Some(SubmoduleDiffMismatch) ==> row.submoduleDiff.0 != row.submoduleDiff.1)
      && (f == Some(ReviewedCommitMismatch) ==>
            row.reviewedCommit.0 != a.reviewedCommit || row.reviewedCommit.1 != a.reviewedCommit)
      && (f == Some(ReviewedTreeMismatch) ==>
            row.reviewedTree.0 != a.reviewedTree || row.reviewedTree.1 != a.reviewedTree)
      && (f == Some(ReviewedDiffMismatch) ==> row.reviewedDiff.0 != row.reviewedDiff.1)
  {
  }

  ghost predicate HasBatch(m: Matrix, row: Row) {
    exists b :: b in m.batches && b.id == row.batch
  }

  /** What is amiss with a row after the rows before it. */
  ghost predicate RowAmiss(m: Matrix, row: Row, before: seq<Row>, f: RowFault) {
    match f
    case UnknownBatch => !HasBatch(m, row)
    case InvalidNumber => HasBatch(m, row) && (row.seed == None || row.index == None)
    case IndexMismatch =>
      row.index != None && exists b :: b in m.batches && b.id == row.batch && row.index != Some(b.index)
    case DuplicateRow => row.seed != None && exists r :: r in before && r.batch == row.batch && r.seed == row.seed
    case UnexpectedRow => row.seed != None && row.seed !in {Some(0), Some(1), Some(2)}
    case _ => exists b :: b in m.batches && b.id == row.batch && AttestationFault(row, b, m.attestation) == Some(f)
  }

  /** The rows are refused for the first thing amiss with the first row that is not accepted. */
  ghost predicate FirstAmiss(m: Matrix, rows: seq<Row>, f: RowFault) {
    exists i :: 0 <= i < |rows| && RowsFit(Fits(m), BatchStatus.Keys(), rows[..i]) && RowAmiss(m, rows[i], rows[..i], f)
  }

  lemma RowAmissMeaning(m: Matrix, row: Row, before: seq<Row>, indexed: map<BatchStatus.Key, Row>)
    requires Index(m, row, indexed).Err?
    requires KeyOf(row) in indexed ==> exists r :: r in before && KeyOf(r) == KeyOf(row) && r.seed != None
    ensures RowAmiss(m, row, before, Index(m, row, indexed).error)
    ensures !OfMatrix(Index(m, row, indexed).error)
  {
    var found := BatchById(m.batches, row.batch);
    if found.None? {
    } else if row.seed.None? || row.index.None? {
      assert HasBatch(m, row);
    } else if row.index.value != found.value.index {
      assert RowAmiss(m, row, before, IndexMismatch);
    } else if KeyOf(row) in indexed {
      var r :| r in before && KeyOf(r) == KeyOf(row) && r.seed != None;
      assert RowAmiss(m, row, before, DuplicateRow);
    }
  }

  lemma TakenBefore(m: Matrix, rows: seq<Row>, i: nat, indexed: map<BatchStatus.Key, Row>)
    requires i < |rows| && IndexedBy(Fits(m), BatchStatus.Keys(), rows, i, indexed) && KeyOf(rows[i]) in indexed
    ensures exists r :: r in rows[..i] && KeyOf(r) == KeyOf(rows[i]) && r.seed != None
  {
    assert RowFor(BatchStatus.Keys(), rows, i, KeyOf(rows[i]));
    var j :| 0 <= j < i && BatchStatus.Keys()(rows[j]) == KeyOf(rows[i]);
    assert Fits(m)(rows[j]) == WellAttested(m, rows[j]) && rows[..i][j] == rows[j];
  }

  /** A fault of the plan's matrix, or of the rows as a whole. */
  predicate OfMatrix(f: RowFault) {
    f in {NoProbeBatches, NoSeeds, DuplicateBatches, WrongSeeds, MissingRows}
  }

  lemma PrefixFits(m: Matrix, rows: seq<Row>, i: nat, indexed: map<BatchStatus.Key, Row>)
    requires i <= |rows| && IndexedBy(Fits(m), BatchStatus.Keys(), rows, i, indexed)
    ensures RowsFit(Fits(m), BatchStatus.Keys(), rows[..i])
  {
    assert forall j :: 0 <= j < i ==> rows[..i][j] == rows[j];
  }

  /** Why status rows are refused. */
  lemma StatusFaultMeaning(m: Matrix, rows: seq<Row>)
    ensures match StatusFault(m, rows)
            case None => PlanFits(m) && Bijective(m, rows)
            case Some(NoProbeBatches) => m.batches == []
            case Some(NoSeeds) => m.seeds == []
            case Some(DuplicateBatches) =>
              exists i, j :: 0 <= i < j < |m.batches| && m.batches[i].id == m.batches[j].id
            case Some(WrongSeeds) => multiset(m.seeds) != multiset{0, 1, 2}
            case Some(MissingRows) =>
              RowsFit(Fits(m), BatchStatus.Keys(), rows)
              && exists key :: Planned(m, key) && !RowFor(BatchStatus.Keys(), rows, |rows|, key)
            case Some(f) => PlanFits(m) && FirstAmiss(m, rows, f)
  {
    RowRoundsDecide(m, rows);
    if PlanFits(m) {
      var start: map<BatchStatus.Key, Row> := map[];
      var r := Fold(|rows|, start, RowRounds(m, rows));
      if r.Ok? {
        CompleteMeaning(m, rows, r.value);
      } else {
        FirstRowRefused(m, rows, r.error);
      }
    }
  }

  lemma RefusedRow(m: Matrix, rows: seq<Row>) returns (i: nat, indexed: map<BatchStatus.Key, Row>)
    requires Fold(|rows|, map[], RowRounds(m, rows)).Err?
    ensures i < |rows| && RowsDone(m, rows)(i, indexed)
    ensures RowRounds(m, rows)(i, indexed) == Err(Fold(|rows|, map[], RowRounds(m, rows)).error)
  {
    var n, rounds, done := |rows|, RowRounds(m, rows), RowsDone(m, rows);
    var start: map<BatchStatus.Key, Row> := map[];
    forall k: nat, s | k < n && done(k, s) && rounds(k, s).Ok? ensures done(k + 1, rounds(k, s).value) {
      RowKeeps(m, rows, k, s);
    }
    i, indexed := FoldRefusal(n, start, rounds, done);
  }

  lemma FirstRowRefused(m: Matrix, rows: seq<Row>, f: RowFault)
    requires Fold(|rows|, map[], RowRounds(m, rows)) == Err(f)
    ensures FirstAmiss(m, rows, f) && !OfMatrix(f)
  {
    var i, indexed := RefusedRow(m, rows);
    assert Index(m, rows[i], indexed) == Err(f);
    if KeyOf(rows[i]) in indexed {
      TakenBefore(m, rows, i, indexed);
    }
    RowAmissMeaning(m, rows[i], rows[..i], indexed);
    PrefixFits(m, rows, i, indexed);
  }

  // ----- refused plans ------------------------------------------------------------------

  /** What is amiss with the i-th batch, beside the batches before it. */
  ghost predicate BatchAmiss(plan: Plan, i: nat, f: PlanFault) {
    && i < |plan.batches|
    && var b := plan.batches[i];
       match f
       case BadIndex(at) => at == i && (b.id != BatchId(i) || b.index != i)
       case BadMembers(at) => at == i && (b.members == [] || |b.members| > plan.perBatch)
       case BadSize(at) => at == i && b.size != |b.members|
       case RepeatedMember(at) => at == i && !Distinct(b.members)
       case Overlap(at) => at == i && exists j, p :: 0 <= j < i && p in plan.batches[j].members && p in b.members
       case BadProbePath(at) => at == i && exists j :: 0 <= j < i && plan.batches[j].path == b.path
       case _ => false
  }

  ghost predicate SomeBatchAmiss(plan: Plan, f: PlanFault) {
    exists i :: BatchAmiss(plan, i, f)
  }

  lemma AdvanceMeaning(plan: Plan, i: nat, p: Progress)
    requires i < |plan.batches| && Checked(plan, BatchId)(i, p) && Advance(plan, BatchId, i, p).Err?
    ensures BatchAmiss(plan, i, Advance(plan, BatchId, i, p).error)
  {
    var b := plan.batches[i];
    NoDuplicatesMeaning(b.members);
    if m :| m in b.members && m in p.owner {
      var j :| 0 <= j < |plan.batches[..i]| && m in plan.batches[..i][j].members;
      assert m in plan.batches[j].members;
    }
    if b.path in p.paths {
      assert PathBefore(plan.batches, i, b.path);
    }
  }

  lemma RefusedBatch(plan: Plan, f: PlanFault)
    requires Fold(|plan.batches|, NOTHING, Rounds(plan, BatchId)) == Err(f)
    ensures SomeBatchAmiss(plan, f)
  {
    var n, rounds, checked := |plan.batches|, Rounds(plan, BatchId), Checked(plan, BatchId);
    forall i: nat, p | i < n && checked(i, p) && rounds(i, p).Ok? ensures checked(i + 1, rounds(i, p).value) {
      RoundKeepsChecked(plan, BatchId, i, p);
    }
    var i, p := FoldRefusal(n, NOTHING, rounds, checked);
    assert rounds(i, p) == Advance(plan, BatchId, i, p);
    AdvanceMeaning(plan, i, p);
  }

  /** What is amiss with a plan that is refused. */
  ghost predicate PlanAmiss(plan: Plan, f: PlanFault) {
    match f
    case EmptyPlan => plan.eligible == []
    case RepeatedEligible => !Distinct(plan.eligible)
    case RecordsOutOfOrder =>
      || |plan.records| != |plan.eligible|
      || exists i :: 0 <= i < |plan.records| && plan.records[i] != (i + 1, plan.eligible[i])
    case NoBatches => plan.batches == []
    case LimitsOutOfRange => plan.perBatch < 1 || plan.perBatch > 8 || plan.maxBatches < 1 || plan.maxBatches > 2
    case TooManyBatches => |plan.batches| > plan.maxBatches
    case UnionMismatch => Flatten(Members(plan.batches)) != plan.eligible
    case IntegrityMissing => !plan.verified
    case CountMismatch => plan.eligibleCount != |plan.eligible| || plan.requiredBatches != |plan.batches|
    case _ => SomeBatchAmiss(plan, f)
  }

  lemma FaultButMeaning(plan: Plan, union: Option<PlanFault>)
    requires union.Some? ==> PlanAmiss(plan, union.value)
    ensures FaultBut(plan, union).Some? ==> PlanAmiss(plan, FaultBut(plan, union).value)
  {
    NoDuplicatesMeaning(plan.eligible);
    if |plan.records| == |plan.eligible|
       && (forall i :: 0 <= i < |plan.records| ==> plan.records[i] == (i + 1, plan.eligible[i])) {
      assert plan.records == RankRecords(plan.eligible);
    }
  }

  lemma UnionFaultMeaning(plan: Plan)
    ensures var union := UnionFault(plan, BatchId); union.Some? ==> PlanAmiss(plan, union.value)
  {
    var r := Fold(|plan.batches|, NOTHING, Rounds(plan, BatchId));
    if r.Err? {
      RefusedBatch(plan, r.error);
      assert exists i :: BatchAmiss(plan, i, r.error);
    } else {
      BatchesMakeUp(plan, r.value);
    }
  }

  /** Why a plan is refused. */
  lemma PlanFaultMeaning(plan: Plan)
    ensures FaultOf(plan).Some? ==> PlanAmiss(plan, FaultOf(plan).value)
  {
    UnionFaultMeaning(plan);
    FaultButMeaning(plan, UnionFault(plan, BatchId));
  }

  lemma BatchesMakeUp(plan: Plan, p: Progress)
    requires Fold(|plan.batches|, NOTHING, Rounds(plan, BatchId)) == Ok(p)
    ensures p.flattened == Flatten(Members(plan.batches))
  {
    var n, rounds, checked := |plan.batches|, Rounds(plan, BatchId), Checked(plan, BatchId);
    forall i: nat, q | i < n && checked(i, q) && rounds(i, q).Ok? ensures checked(i + 1, rounds(i, q).value) {
      RoundKeepsChecked(plan, BatchId, i, q);
    }
    FoldKeeps(n, NOTHING, rounds, checked);
    assert plan.batches[..n] == plan.batches;
  }
}
