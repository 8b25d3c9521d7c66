/** The index of the batch-by-seed status rows against the plan's matrix of runs. */
module BatchStatus {
  import opened Folding
  import opened Ordering
  import opened ProbeBatches

  /** A status row; `git`, `submodule` and the other attestations are kept in the groups they are compared in. */
  datatype Row = Row(
    batch: string, seed: Option<int>, index: Option<int>, path: string, sha: string, exitCode: string,
    gitBefore: string, gitAfter: string, dirty: seq<string>, submodule: seq<string>, submoduleDiff: (string, string),
    reviewedCommit: (string, string), reviewedTree: (string, string), reviewedDiff: (string, string))

  datatype Attestation = Attestation(git: string, submodule: string, reviewedCommit: string, reviewedTree: string)

  datatype Matrix = Matrix(batches: seq<Batch>, seeds: seq<int>, attestation: Attestation)

  datatype RowFault =
    | NoProbeBatches | NoSeeds | DuplicateBatches | WrongSeeds
    | UnknownBatch | InvalidNumber | IndexMismatch | DuplicateRow | UnexpectedRow
    | PathMismatch | ShaMismatch | NonzeroExit | GitMismatch | SubmoduleMismatch | SubmoduleDiffMismatch
    | ReviewedCommitMismatch | ReviewedTreeMismatch | ReviewedDiffMismatch | MissingRows

  type Key = (string, int)

  predicate UniqueBatchIds(batches: seq<Batch>) {
    forall i, j :: 0 <= i < j < |batches| ==> batches[i].id != batches[j].id
  }

  function BatchById(batches: seq<Batch>, id: string): (r: Option<Batch>)
    ensures r.Some? ==> r.value in batches && r.value.id == id
    ensures r.None? ==> forall b :: b in batches ==> b.id != id
  {
    if batches == [] then None
    else if batches[|batches| - 1].id == id then Some(batches[|batches| - 1])
    else BatchById(batches[..|batches| - 1], id)
  }

  /** The planned pairs: every batch with each of the seeds 0, 1 and 2. */
  predicate Planned(m: Matrix, key: Key) {
    BatchById(m.batches, key.0).Some? && 0 <= key.1 <= 2
  }

  /** What a row attests, apart from being the only one for its pair. */
  function AttestationFault(row: Row, b: Batch, a: Attestation): Option<RowFault> {
    if row.path != b.path then Some(PathMismatch)
    else if row.sha != b.sha then Some(ShaMismatch)
    else if row.exitCode != "0" then Some(NonzeroExit)
    else if !(row.gitBefore == row.gitAfter == a.git && forall d :: d in row.dirty ==> d == "false")
      then Some(GitMismatch)
    else if !(forall s :: s in row.submodule ==> s == a.submodule) then Some(SubmoduleMismatch)
    else if row.submoduleDiff.0 != row.submoduleDiff.1 then Some(SubmoduleDiffMismatch)
    else if row.reviewedCommit != (a.reviewedCommit, a.reviewedCommit) then Some(ReviewedCommitMismatch)
    else if row.reviewedTree != (a.reviewedTree, a.reviewedTree) then Some(ReviewedTreeMismatch)
    else if row.reviewedDiff.0 != row.reviewedDiff.1 then Some(ReviewedDiffMismatch)
    else None
  }

  /** A row for a planned pair whose attestations all hold. */
  predicate WellAttested(m: Matrix, row: Row) {
    && BatchById(m.batches, row.batch).Some? && row.seed.Some?
    && row.index == Some(BatchById(m.batches, row.batch).value.index)
    && 0 <= row.seed.value <= 2
    && AttestationFault(row, BatchById(m.batches, row.batch).value, m.attestation).None?
  }

  function KeyOf(row: Row): Key {
    (row.batch, if row.seed.Some? then row.seed.value else -1)
  }

  /** One round of the loop over the rows. */
  function Index(m: Matrix, row: Row, indexed: map<Key, Row>): Result<map<Key, Row>, RowFault> {
    match BatchById(m.batches, row.batch)
    case None => Err(UnknownBatch)
    case Some(b) =>
      if row.seed.None? || row.index.None? then Err(InvalidNumber)
      else if row.index.value != b.index then Err(IndexMismatch)
      else if KeyOf(row) in indexed then Err(DuplicateRow)
      else if !(0 <= row.seed.value <= 2) then Err(UnexpectedRow)
      else
        match AttestationFault(row, b, m.attestation)
        case Some(f) => Err(f)
        case None => Ok(indexed[KeyOf(row) := row])
  }

  lemma IndexMeaning(m: Matrix, row: Row, indexed: map<Key, Row>)
    ensures Index(m, row, indexed).Ok? <==> WellAttested(m, row) && KeyOf(row) !in indexed
    ensures Index(m, row, indexed).Ok? ==> Index(m, row, indexed).value == indexed[KeyOf(row) := row]
  {
  }

  function RowRounds(m: Matrix, rows: seq<Row>): (nat, map<Key, Row>) -> Result<map<Key, Row>, RowFault> {
    (i: nat, indexed: map<Key, Row>) => if i < |rows| then Index(m, rows[i], indexed) else Ok(indexed)
  }

  // ----- what an index of rows holds, whatever a row must satisfy -------------------------

  /** Rows `..i` fit, their keys are distinct, and the index holds each under its key and
      nothing else. */
  ghost predicate IndexedBy<R(!new), K(!new)>(fits: R -> bool, key: R -> K, rows: seq<R>, i: nat, indexed: map<K, R>)
    requires i <= |rows|
  {
    && (forall j :: 0 <= j < i ==> fits(rows[j]) && key(rows[j]) in indexed && indexed[key(rows[j])] == rows[j])
    && (forall j, k :: 0 <= j < k < i ==> key(rows[j]) != key(rows[k]))
    && (forall k :: k in indexed ==> RowFor(key, rows, i, k))
  }

  ghost predicate RowFor<R(!new), K>(key: R -> K, rows: seq<R>, i: nat, k: K)
    requires i <= |rows|
  {
    exists j :: 0 <= j < i && key(rows[j]) == k
  }

  lemma IndexedOneMore<R(!new), K(!new)>(fits: R -> bool, key: R -> K, rows: seq<R>, i: nat, indexed: map<K, R>)
    requires i < |rows| && IndexedBy(fits, key, rows, i, indexed) && fits(rows[i]) && key(rows[i]) !in indexed
    ensures IndexedBy(fits, key, rows, i + 1, indexed[key(rows[i]) := rows[i]])
  {
    var next := indexed[key(rows[i]) := rows[i]];
    forall k | k in next ensures RowFor(key, rows, i + 1, k) {
      if k in indexed {
        var j :| 0 <= j < i && key(rows[j]) == k;
      } else {
        assert key(rows[i]) == k;
      }
    }
  }

  /** All rows fit and no two share a key. */
  ghost predicate RowsFit<R(!new), K(!new)>(fits: R -> bool, key: R -> K, rows: seq<R>) {
    && (forall j :: 0 <= j < |rows| ==> fits(rows[j]))
    && (forall j, k :: 0 <= j < k < |rows| ==> key(rows[j]) != key(rows[k]))
  }

  lemma KeyTaken<R(!new), K(!new)>(fits: R -> bool, key: R -> K, rows: seq<R>, i: nat, indexed: map<K, R>)
    requires i < |rows| && IndexedBy(fits, key, rows, i, indexed) && key(rows[i]) in indexed
    ensures !RowsFit(fits, key, rows)
  {
    assert RowFor(key, rows, i, key(rows[i]));
    var j :| 0 <= j < i && key(rows[j]) == key(rows[i]);
  }

  function Fits(m: Matrix): Row -> bool {
    (row: Row) => WellAttested(m, row)
  }

  function Keys(): Row -> Key {
    (row: Row) => KeyOf(row)
  }

  ghost function RowsDone(m: Matrix, rows: seq<Row>): (nat, map<Key, Row>) -> bool {
    (i: nat, indexed: map<Key, Row>) => i <= |rows| && IndexedBy(Fits(m), Keys(), rows, i, indexed)
  }

  lemma RowKeeps(m: Matrix, rows: seq<Row>, i: nat, indexed: map<Key, Row>)
    requires i < |rows| && RowsDone(m, rows)(i, indexed)
    ensures RowRounds(m, rows)(i, indexed).Ok? ==> RowsDone(m, rows)(i + 1, RowRounds(m, rows)(i, indexed).value)
    ensures RowRounds(m, rows)(i, indexed).Err? ==> !RowsFit(Fits(m), Keys(), rows)
  {
    IndexMeaning(m, rows[i], indexed);
    assert Fits(m)(rows[i]) == WellAttested(m, rows[i]) && Keys()(rows[i]) == KeyOf(rows[i]);
    if RowRounds(m, rows)(i, indexed).Ok? {
      IndexedOneMore(Fits(m), Keys(), rows, i, indexed);
    } else if Fits(m)(rows[i]) {
      KeyTaken(Fits(m), Keys(), rows, i, indexed);
    }
  }

  /** The loop over the rows accepts exactly the rows that fit, and then indexes each. */
  lemma RowRoundsDecide(m: Matrix, rows: seq<Row>)
    ensures Fold(|rows|, map[], RowRounds(m, rows)).Ok? <==> RowsFit(Fits(m), Keys(), rows)
    ensures Fold(|rows|, map[], RowRounds(m, rows)).Ok? ==>
      IndexedBy(Fits(m), Keys(), rows, |rows|, Fold(|rows|, map[], RowRounds(m, rows)).value)
  {
    var n, rounds, done := |rows|, RowRounds(m, rows), RowsDone(m, rows);
    var start: map<Key, Row> := map[];
    forall i: nat, s | i < n && done(i, s) && rounds(i, s).Ok? ensures done(i + 1, rounds(i, s).value) {
      RowKeeps(m, rows, i, s);
    }
    if Fold(n, start, rounds).Err? {
      var i, s := FoldRefusal(n, start, rounds, done);
      RowKeeps(m, rows, i, s);
    } else {
      FoldKeeps(n, start, rounds, done);
    }
  }

  /** The rows are in one-to-one correspondence with the planned pairs. */
  ghost predicate Bijective(m: Matrix, rows: seq<Row>) {
    && RowsFit(Fits(m), Keys(), rows)
    && forall key :: Planned(m, key) ==> RowFor(Keys(), rows, |rows|, key)
  }

  predicate PlanFits(m: Matrix) {
    && m.batches != [] && m.seeds != [] && UniqueBatchIds(m.batches) && multiset(m.seeds) == multiset{0, 1, 2}
  }

  predicate Complete(m: Matrix, indexed: map<Key, Row>) {
    forall b :: b in m.batches ==> (b.id, 0) in indexed && (b.id, 1) in indexed && (b.id, 2) in indexed
  }

  /** Why status rows are refused: the plan's matrix first, then the rows one by one, and then
      what is missing. */
  function StatusFault(m: Matrix, rows: seq<Row>): Option<RowFault> {
    if m.batches == [] then Some(NoProbeBatches)
    else if m.seeds == [] then Some(NoSeeds)
    else if !UniqueBatchIds(m.batches) then Some(DuplicateBatches)
    else if multiset(m.seeds) != multiset{0, 1, 2} then Some(WrongSeeds)
    else
      match Fold(|rows|, map[], RowRounds(m, rows))
      case Err(f) => Some(f)
      case Ok(indexed) => if Complete(m, indexed) then None else Some(MissingRows)
  }

  method RunRows(m: Matrix, rows: seq<Row>) returns (r: Result<map<Key, Row>, RowFault>)
    ensures r == Fold(|rows|, map[], RowRounds(m, rows))
  {
    r := Ok(map[]);
    var i := 0;
    while i < |rows|
      invariant 0 <= i <= |rows|
      invariant r == Fold(i, map[], RowRounds(m, rows)) && r.Ok?
    {
      ghost var before := r.value;
      r := Index(m, rows[i], r.value);
      assert RowRounds(m, rows)(i, before) == r;
      if r.Err? {
        FoldStops(|rows|, i + 1, map[], RowRounds(m, rows));
        return;
      }
      i := i + 1;
    }
  }

  /** Indexing succeeds exactly when the plan has unique batches and the seeds 0, 1 and 2, and
      the rows biject onto the planned pairs; the index then holds each row under its pair
      and nothing else. */
  method IndexRows(m: Matrix, rows: seq<Row>) returns (r: Result<map<Key, Row>, RowFault>)
    ensures r.Ok? <==> PlanFits(m) && Bijective(m, rows)
    ensures r.Err? ==> StatusFault(m, rows) == Some(r.error)
    ensures r.Ok? ==> (forall key :: key in r.value <==> Planned(m, key)) && (forall row :: row in rows ==>
      KeyOf(row) in r.value && r.value[KeyOf(row)] == row)
  {
    if m.batches == [] {
      return Err(NoProbeBatches);
    }
    if m.seeds == [] {
      return Err(NoSeeds);
    }
    if !UniqueBatchIds(m.batches) {
      return Err(DuplicateBatches);
    }
    if multiset(m.seeds) != multiset{0, 1, 2} {
      return Err(WrongSeeds);
    }
    r := RunRows(m, rows);
    RowRoundsDecide(m, rows);
    if r.Err? {
      return;
    }
    CompleteMeaning(m, rows, r.value);
    if !Complete(m, r.value) {
      return Err(MissingRows);
    }
  }

  lemma CompleteMeaning(m: Matrix, rows: seq<Row>, indexed: map<Key, Row>)
    requires IndexedBy(Fits(m), Keys(), rows, |rows|, indexed)
    ensures Complete(m, indexed) <==> forall key :: Planned(m, key) ==> RowFor(Keys(), rows, |rows|, key)
    ensures Complete(m, indexed) ==> forall key :: key in indexed <==> Planned(m, key)
  {
    forall key ensures key in indexed <==> RowFor(Keys(), rows, |rows|, key) {
    }
    forall key | key in indexed ensures Planned(m, key) {
      var j :| 0 <= j < |rows| && Keys()(rows[j]) == key;
      assert Fits(m)(rows[j]) == WellAttested(m, rows[j]);
    }
    CompleteCovers(m, indexed);
  }

  lemma CompleteCovers(m: Matrix, indexed: map<Key, Row>)
    ensures Complete(m, indexed) <==> forall key :: Planned(m, key) ==> key in indexed
  {
    if Complete(m, indexed) {
      forall key | Planned(m, key) ensures key in indexed {
        var b := BatchById(m.batches, key.0).value;
        assert b in m.batches && key == (b.id, key.1);
      }
    } else {
      var b :| b in m.batches && !((b.id, 0) in indexed && (b.id, 1) in indexed && (b.id, 2) in indexed);
      assert Planned(m, (b.id, 0)) && Planned(m, (b.id, 1)) && Planned(m, (b.id, 2));
    }
  }
}
