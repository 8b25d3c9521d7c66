/** The deterministic strategic arbiter: conflict graph, scoring, exhaustive subset search,
    commitment override and the per-intent decisions. Scores are exact reals. */
module Strategic {
  import opened Ordering

  datatype Role = Economy | Technology | Production | Defense | Offense | FocusFire | Retreat

  datatype ResourceClaim = ResourceClaim(minerals: nat, vespene: nat, supply: nat, loops: nat)

  const NO_CLAIM := ResourceClaim(0, 0, 0, 1)

  datatype Intent = Intent(
    id: string, continuityKey: string, batch: BatchKey, created: nat, role: Role,
    actors: seq<string>, producers: seq<string>, claim: ResourceClaim,
    dependencies: seq<string>, groups: seq<string>, blockers: seq<string>,
    urgency: real, alignment: real, confidence: real, progress: real, risk: real,
    priority: nat, emergency: bool, ttl: nat)

  datatype BatchKey = BatchKey(runId: string, episodeId: string, stepId: nat)

  datatype Observation = Observation(
    batch: BatchKey, gameLoop: nat,
    minerals: nat, vespene: nat, supplyUsed: nat, supplyCap: nat)

  datatype ConflictKind = RoleConflict | ActorConflict | ProducerConflict | ObjectiveConflict

  /** The digest that names a conflict is a function of the kind and the sorted pair,
      so those two stand for it. */
  datatype Conflict = Conflict(kind: ConflictKind, low: string, high: string)

  datatype Score = Score(
    progress: real, urgency: real, alignment: real, confidence: real, playbook: real,
    risk: real, switching: real, resources: real, total: real)

  datatype Agenda = Agenda(
    batch: BatchKey, gameLoop: nat, activeIds: seq<string>, activeKeys: seq<string>,
    reserved: ResourceClaim, committedUntil: nat, totalScore: real)

  datatype Status = Selected | Deferred | Rejected | Preempted

  datatype Reason =
    | SelectedFeasibleSet | IntentExpired | HardPreconditionFailed
    | EmergencyPreemption | NotInBestFeasibleSet

  datatype Decision = Decision(
    id: string, status: Status, reason: Reason, score: Score, conflicts: seq<Conflict>,
    rules: seq<string>, reserved: ResourceClaim, committedUntil: Option<nat>)

  datatype Arbitration = Arbitration(
    decisions: seq<Decision>, selectedIds: seq<string>, conflicts: seq<Conflict>, agenda: Agenda)

  datatype BatchError = DuplicateIntentIds | ObservationMismatch

  datatype Config = Config(switchMargin: real, maxIntents: nat)

  predicate ValidConfig(config: Config) {
    config.switchMargin >= 0.0 && config.maxIntents >= 1
  }

  datatype Advice = Advice(deltas: map<string, real>, rules: map<string, seq<string>>)

  // ----- helpers on batches -------------------------------------------------------------

  function Ids(intents: seq<Intent>): (ids: seq<string>)
    ensures |ids| == |intents|
    ensures forall i :: 0 <= i < |intents| ==> ids[i] == intents[i].id
  {
    seq(|intents|, i requires 0 <= i < |intents| => intents[i].id)
  }

  function Keys(intents: seq<Intent>): (keys: seq<string>)
    ensures |keys| == |intents|
    ensures forall i :: 0 <= i < |intents| ==> keys[i] == intents[i].continuityKey
  {
    seq(|intents|, i requires 0 <= i < |intents| => intents[i].continuityKey)
  }

  ghost predicate UniqueIds(intents: seq<Intent>) {
    forall i, j :: 0 <= i < j < |intents| ==> intents[i].id != intents[j].id
  }

  // ----- conflicts ----------------------------------------------------------------------

  predicate Overlap(a: seq<string>, b: seq<string>) {
    exists x :: x in a && x in b
  }

  function ClashKind(left: Intent, right: Intent): Option<ConflictKind> {
    if Overlap(left.actors, right.actors) then Some(ActorConflict)
    else if Overlap(left.producers, right.producers) then Some(ProducerConflict)
    else if Overlap(left.groups, right.groups) then Some(ObjectiveConflict)
    else if left.role == right.role && (left.actors == [] || right.actors == []) then Some(RoleConflict)
    else None
  }

  predicate Clash(left: Intent, right: Intent) {
    ClashKind(left, right).Some?
  }

  function MakeConflict(kind: ConflictKind, left: Intent, right: Intent): Conflict {
    if StringLess(right.id, left.id) then Conflict(kind, right.id, left.id)
    else Conflict(kind, left.id, right.id)
  }

  function PairConflict(left: Intent, right: Intent): seq<Conflict> {
    match ClashKind(left, right)
    case None => []
    case Some(kind) => [MakeConflict(kind, left, right)]
  }

  function ConflictsWith(left: Intent, rest: seq<Intent>): seq<Conflict> {
    if rest == [] then []
    else ConflictsWith(left, rest[..|rest| - 1]) + PairConflict(left, rest[|rest| - 1])
  }

  /** Every clashing pair, in the order in which pairs of the batch are enumerated. */
  function ConflictsOf(intents: seq<Intent>): seq<Conflict> {
    ConflictsFrom(intents, 0)
  }

  function ConflictsFrom(intents: seq<Intent>, i: nat): seq<Conflict>
    requires i <= |intents|
    decreases |intents| - i
  {
    if i == |intents| then []
    else ConflictsWith(intents[i], intents[i + 1..]) + ConflictsFrom(intents, i + 1)
  }

  method ScanConflicts(left: Intent, rest: seq<Intent>) returns (found: seq<Conflict>)
    ensures found == ConflictsWith(left, rest)
  {
    found := [];
    for j := 0 to |rest|
      invariant found == ConflictsWith(left, rest[..j])
    {
      assert rest[..j + 1][..j] == rest[..j];
      match ClashKind(left, rest[j])
      case None =>
      case Some(kind) => found := found + [MakeConflict(kind, left, rest[j])];
    }
    assert rest[..|rest|] == rest;
  }

  method BuildConflicts(intents: seq<Intent>) returns (conflicts: seq<Conflict>)
    ensures conflicts == ConflictsOf(intents)
  {
    conflicts := [];
    for i := 0 to |intents|
      invariant conflicts + ConflictsFrom(intents, i) == ConflictsOf(intents)
    {
      var found := ScanConflicts(intents[i], intents[i + 1..]);
      conflicts := conflicts + found;
    }
  }

  // ----- scores -------------------------------------------------------------------------

  function RealMax(a: real, b: real): real { if a >= b then a else b }

  function RealMin(a: real, b: real): real { if a <= b then a else b }

  function AtLeastOne(n: int): (r: int)
    ensures r >= 1
  {
    if n > 1 then n else 1
  }

  function ResourcePressure(claim: ResourceClaim, obs: Observation): real {
    RealMin(
      RealMax(
        RealMax(
          claim.minerals as real / AtLeastOne(obs.minerals) as real,
          claim.vespene as real / AtLeastOne(obs.vespene) as real),
        claim.supply as real / AtLeastOne(obs.supplyCap - obs.supplyUsed) as real),
      1.0)
  }

  function SwitchPenalty(intent: Intent, previous: Option<Agenda>): real {
    if previous.Some? && previous.value.activeKeys != []
       && intent.continuityKey !in previous.value.activeKeys && !intent.emergency
    then 1.0 else 0.0
  }

  function ScoreOf(intent: Intent, obs: Observation, previous: Option<Agenda>, delta: real): Score {
    var progress := 4.0 * intent.progress;
    var urgency := 3.0 * intent.urgency;
    var alignment := 2.0 * intent.alignment;
    var confidence := intent.confidence;
    var risk := 3.0 * intent.risk;
    var switching := 2.0 * SwitchPenalty(intent, previous);
    var resources := ResourcePressure(intent.claim, obs);
    Score(progress, urgency, alignment, confidence, delta, risk, switching, resources,
      progress + urgency + alignment + confidence + delta - risk - switching - resources)
  }

  function DeltaOf(intent: Intent, advice: Advice): real {
    if intent.id in advice.deltas then advice.deltas[intent.id] else 0.0
  }

  /** The scores of one tick, as a function of the intent alone. */
  datatype Scoring = Scoring(obs: Observation, previous: Option<Agenda>, advice: Advice) {
    function Of(intent: Intent): Score {
      ScoreOf(intent, obs, previous, DeltaOf(intent, advice))
    }
  }

  function TotalScore(subset: seq<Intent>, scoring: Scoring): real {
    if subset == [] then 0.0
    else scoring.Of(subset[0]).total + TotalScore(subset[1..], scoring)
  }

  function Emergencies(subset: seq<Intent>): nat {
    if subset == [] then 0
    else (if subset[0].emergency then 1 else 0) + Emergencies(subset[1..])
  }

  // ----- feasibility --------------------------------------------------------------------

  function NatMax(a: nat, b: nat): nat { if a >= b then a else b }

  function SumClaims(intents: seq<Intent>): ResourceClaim {
    if intents == [] then NO_CLAIM
    else
      var rest := SumClaims(intents[1..]);
      var claim := intents[0].claim;
      ResourceClaim(claim.minerals + rest.minerals, claim.vespene + rest.vespene,
                    claim.supply + rest.supply, NatMax(claim.loops, rest.loops))
  }

  function FreeSupply(obs: Observation): nat {
    if obs.supplyCap >= obs.supplyUsed then obs.supplyCap - obs.supplyUsed else 0
  }

  predicate Affordable(claim: ResourceClaim, obs: Observation) {
    claim.minerals <= obs.minerals && claim.vespene <= obs.vespene && claim.supply <= FreeSupply(obs)
  }

  predicate Feasible(subset: seq<Intent>, obs: Observation, conflicts: seq<Conflict>) {
    var ids := Ids(subset);
    && (forall c :: c in conflicts ==> !(c.low in ids && c.high in ids))
    && (forall i :: i in subset ==> forall d :: d in i.dependencies ==> d in ids)
    && Affordable(SumClaims(subset), obs)
  }

  // ----- exhaustive search --------------------------------------------------------------

  datatype RankKey = RankKey(emergencies: nat, score: real, size: nat, ids: seq<string>)

  function KeyOf(subset: seq<Intent>, scoring: Scoring): RankKey {
    RankKey(Emergencies(subset), TotalScore(subset, scoring), |subset|, SortStrings(Ids(subset)))
  }

  predicate KeyLess(a: RankKey, b: RankKey) {
    if a.emergencies != b.emergencies then a.emergencies < b.emergencies
    else if a.score != b.score then a.score < b.score
    else if a.size != b.size then a.size < b.size
    else TupleLess(a.ids, b.ids)
  }

  /** `itertools.combinations(intents, count)`, in its own order. */
  function Combinations(intents: seq<Intent>, count: nat): seq<seq<Intent>>
    decreases |intents|
  {
    if count == 0 then [[]]
    else if intents == [] then []
    else Prefixed(intents[0], Combinations(intents[1..], count - 1)) + Combinations(intents[1..], count)
  }

  function Prefixed(head: Intent, tails: seq<seq<Intent>>): (r: seq<seq<Intent>>)
    ensures |r| == |tails|
    ensures forall i :: 0 <= i < |r| ==> r[i] == [head] + tails[i]
  {
    seq(|tails|, i requires 0 <= i < |tails| => [head] + tails[i])
  }

  /** `t` is obtained from `s` by deleting elements. */
  predicate Subsequence(t: seq<Intent>, s: seq<Intent>) {
    || t == []
    || (s != [] && ((t[0] == s[0] && Subsequence(t[1..], s[1..])) || Subsequence(t, s[1..])))
  }

  lemma PrefixedContains(head: Intent, tails: seq<seq<Intent>>, t: seq<Intent>)
    ensures t in Prefixed(head, tails) <==> t != [] && t[0] == head && t[1..] in tails
  {
    if t != [] && t[0] == head && t[1..] in tails {
      var i :| 0 <= i < |tails| && tails[i] == t[1..];
      assert Prefixed(head, tails)[i] == t;
    }
    if t in Prefixed(head, tails) {
      var i :| 0 <= i < |tails| && Prefixed(head, tails)[i] == t;
      assert t[1..] == tails[i];
    }
  }

  lemma CombinationsSplit(s: seq<Intent>, count: nat, t: seq<Intent>)
    requires count != 0 && s != []
    ensures t in Combinations(s, count) <==>
      || (t != [] && t[0] == s[0] && t[1..] in Combinations(s[1..], count - 1))
      || t in Combinations(s[1..], count)
  {
    PrefixedContains(s[0], Combinations(s[1..], count - 1), t);
  }

  lemma {:induction false} CombinationsAreSubsequences(s: seq<Intent>, count: nat, t: seq<Intent>)
    ensures t in Combinations(s, count) <==> |t| == count && Subsequence(t, s)
    decreases |s|
  {
    if count == 0 {
      assert t in [[]] <==> t == [];
    } else if s == [] {
      assert Combinations(s, count) == [];
    } else {
      var rest := s[1..];
      CombinationsSplit(s, count, t);
      CombinationsAreSubsequences(rest, count, t);
      if t == [] {
        assert t !in Combinations(rest, count);
      } else {
        CombinationsAreSubsequences(rest, count - 1, t[1..]);
        assert Subsequence(t, s) <==> (t[0] == s[0] && Subsequence(t[1..], rest)) || Subsequence(t, rest);
      }
    }
  }

  /** What a search over the feasible subsets of `eligible` has to return. */
  ghost predicate IsBest(best: seq<Intent>, eligible: seq<Intent>, obs: Observation,
                         scoring: Scoring, conflicts: seq<Conflict>) {
    && Subsequence(best, eligible)
    && Feasible(best, obs, conflicts)
    && forall t :: Subsequence(t, eligible) && Feasible(t, obs, conflicts) ==>
                     !KeyLess(KeyOf(best, scoring), KeyOf(t, scoring))
  }

  lemma KeyLessTransitive(a: RankKey, b: RankKey, c: RankKey)
    requires !KeyLess(b, a) && !KeyLess(c, b)
    ensures !KeyLess(c, a)
  {
    TupleTrichotomy(a.ids, b.ids);
    TupleTrichotomy(b.ids, c.ids);
    TupleTrichotomy(a.ids, c.ids);
    if TupleLess(a.ids, b.ids) && TupleLess(b.ids, c.ids) {
      TupleTransitive(a.ids, b.ids, c.ids);
    }
  }

  lemma SubsequenceIsShorter(t: seq<Intent>, s: seq<Intent>)
    requires Subsequence(t, s)
    ensures |t| <= |s|
    ensures forall x :: x in t ==> x in s
  {
  }

  /** `max(candidates, key=...)`: the first of the largest. */
  method FirstLargest(candidates: seq<seq<Intent>>, scoring: Scoring) returns (top: seq<Intent>)
    requires candidates != []
    ensures top in candidates
    ensures forall c :: c in candidates ==> !KeyLess(KeyOf(top, scoring), KeyOf(c, scoring))
  {
    top := candidates[0];
    TupleTrichotomy(KeyOf(top, scoring).ids, KeyOf(top, scoring).ids);
    for k := 1 to |candidates|
      invariant top in candidates
      invariant forall i :: 0 <= i < k ==> !KeyLess(KeyOf(top, scoring), KeyOf(candidates[i], scoring))
    {
      var key := KeyOf(candidates[k], scoring);
      if KeyLess(KeyOf(top, scoring), key) {
        TupleTrichotomy(KeyOf(top, scoring).ids, key.ids);
        TupleTrichotomy(key.ids, key.ids);
        forall i | 0 <= i < k
          ensures !KeyLess(key, KeyOf(candidates[i], scoring))
        {
          KeyLessTransitive(KeyOf(candidates[i], scoring), KeyOf(top, scoring), key);
        }
        top := candidates[k];
      }
    }
  }

  ghost predicate IsCandidate(t: seq<Intent>, intents: seq<Intent>, obs: Observation,
                              conflicts: seq<Conflict>) {
    Subsequence(t, intents) && Feasible(t, obs, conflicts)
  }

  /** Enumerate every subset by size, keep the feasible ones, take the first largest key. */
  method BestFeasibleSubset(intents: seq<Intent>, obs: Observation, scoring: Scoring,
                            conflicts: seq<Conflict>)
    returns (best: seq<Intent>)
    ensures IsBest(best, intents, obs, scoring, conflicts)
  {
    var candidates: seq<seq<Intent>> := [];
    for count := 0 to |intents| + 1
      invariant forall t :: t in candidates ==> IsCandidate(t, intents, obs, conflicts)
      invariant forall t :: IsCandidate(t, intents, obs, conflicts) && |t| < count ==> t in candidates
    {
      var found := FeasibleOfSize(intents, count, obs, conflicts);
      candidates := candidates + found;
    }
    forall t | IsCandidate(t, intents, obs, conflicts) ensures t in candidates {
      SubsequenceIsShorter(t, intents);
    }
    assert IsCandidate([], intents, obs, conflicts);
    best := FirstLargest(candidates, scoring);
    forall t | Subsequence(t, intents) && Feasible(t, obs, conflicts)
      ensures !KeyLess(KeyOf(best, scoring), KeyOf(t, scoring))
    {
      assert IsCandidate(t, intents, obs, conflicts);
    }
  }

  method FeasibleOfSize(intents: seq<Intent>, count: nat, obs: Observation, conflicts: seq<Conflict>)
    returns (found: seq<seq<Intent>>)
    ensures forall t :: t in found <==> IsCandidate(t, intents, obs, conflicts) && |t| == count
  {
    found := [];
    var subsets := Combinations(intents, count);
    for k := 0 to |subsets|
      invariant forall t :: t in found <==> t in subsets[..k] && Feasible(t, obs, conflicts)
    {
      assert subsets[..k + 1] == subsets[..k] + [subsets[k]];
      if Feasible(subsets[k], obs, conflicts) {
        found := found + [subsets[k]];
      }
    }
    assert subsets[..|subsets|] == subsets;
    forall t ensures t in subsets <==> |t| == count && Subsequence(t, intents) {
      CombinationsAreSubsequences(intents, count, t);
    }
  }

  // ----- one arbitration ----------------------------------------------------------------

  predicate Before(a: Intent, b: Intent) {
    a.priority > b.priority || (a.priority == b.priority && StringLess(a.id, b.id))
  }

  function Rejection(intent: Intent, obs: Observation): Option<Reason> {
    if obs.gameLoop - intent.created >= intent.ttl then Some(IntentExpired)
    else if intent.blockers != [] then Some(HardPreconditionFailed)
    else None
  }

  function Ranking(intents: seq<Intent>): seq<Intent> {
    Sort(intents, (a, b) => Before(a, b))
  }

  function AdmittedFrom(s: seq<Intent>, obs: Observation): seq<Intent> {
    if s == [] then []
    else AdmittedFrom(s[..|s| - 1], obs)
         + (if Rejection(s[|s| - 1], obs) == None then [s[|s| - 1]] else [])
  }

  predicate WasActive(intent: Intent, previous: Option<Agenda>) {
    previous.Some? && intent.continuityKey in previous.value.activeKeys
  }

  function RetainedFrom(s: seq<Intent>, previous: Option<Agenda>): seq<Intent> {
    if s == [] then []
    else RetainedFrom(s[..|s| - 1], previous)
         + (if WasActive(s[|s| - 1], previous) then [s[|s| - 1]] else [])
  }

  function ConflictsAbout(id: string, conflicts: seq<Conflict>): seq<Conflict> {
    if conflicts == [] then []
    else
      var last := conflicts[|conflicts| - 1];
      ConflictsAbout(id, conflicts[..|conflicts| - 1])
      + (if last.low == id || last.high == id then [last] else [])
  }

  /** All inputs of one call of the arbiter. */
  datatype Tick = Tick(intents: seq<Intent>, obs: Observation, previous: Option<Agenda>,
                       advice: Advice, config: Config) {

    function Check(): Option<BatchError> {
      if exists i, j :: 0 <= i < j < |intents| && intents[i].id == intents[j].id
      then Some(DuplicateIntentIds)
      else if exists i :: 0 <= i < |intents| && intents[i].batch != obs.batch
      then Some(ObservationMismatch)
      else None
    }

    function Scores(): Scoring { Scoring(obs, previous, advice) }

    function Conflicts(): seq<Conflict> { ConflictsOf(intents) }

    function Ranked(): seq<Intent> { Ranking(intents) }

    function Admitted(): seq<Intent> { AdmittedFrom(Ranked(), obs) }

    function Eligible(): seq<Intent> {
      var admitted := Admitted();
      if |admitted| <= config.maxIntents then admitted else admitted[..config.maxIntents]
    }

    predicate InWindow() {
      previous.Some? && obs.gameLoop < previous.value.committedUntil
    }

    function Retained(): seq<Intent> { RetainedFrom(Eligible(), previous) }

    predicate NewEmergency(best: seq<Intent>) {
      exists i :: i in best && i.emergency && i !in Retained()
    }

    predicate KeepsCommitment(best: seq<Intent>) {
      && InWindow()
      && Retained() != []
      && Feasible(Retained(), obs, Conflicts())
      && TotalScore(best, Scores()) < TotalScore(Retained(), Scores()) + config.switchMargin
      && !NewEmergency(best)
    }

    function Chosen(best: seq<Intent>): seq<Intent> {
      if KeepsCommitment(best) then Retained() else best
    }

    function CommittedUntil(selected: seq<Intent>): nat {
      if selected == [] then obs.gameLoop
      else if |selected| == 1 then obs.gameLoop + selected[0].claim.loops
      else NatMax(obs.gameLoop + selected[0].claim.loops, CommittedUntil(selected[1..]))
    }

    function NextAgenda(selected: seq<Intent>): Agenda {
      Agenda(obs.batch, obs.gameLoop, SortStrings(Ids(selected)), SortStrings(Keys(selected)),
             SumClaims(selected), CommittedUntil(selected), TotalScore(selected, Scores()))
    }

    function Decide(intent: Intent, selected: seq<Intent>): Decision {
      var preempted := WasActive(intent, previous) && exists i :: i in selected && i.emergency;
      var isSelected := intent.id in Ids(selected);
      var rejection := Rejection(intent, obs);
      Decision(
        intent.id,
        if isSelected then Selected else if rejection.Some? then Rejected
        else if preempted then Preempted else Deferred,
        if isSelected then SelectedFeasibleSet else if rejection.Some? then rejection.value
        else if preempted then EmergencyPreemption else NotInBestFeasibleSet,
        Scores().Of(intent),
        ConflictsAbout(intent.id, Conflicts()),
        if intent.id in advice.rules then advice.rules[intent.id] else [],
        if isSelected then intent.claim else NO_CLAIM,
        if isSelected then Some(obs.gameLoop + intent.claim.loops) else None)
    }

    function Decisions(selected: seq<Intent>): seq<Decision> {
      DecisionsFor(intents, selected)
    }

    function DecisionsFor(s: seq<Intent>, selected: seq<Intent>): (decisions: seq<Decision>)
      ensures |decisions| == |s|
    {
      if s == [] then []
      else DecisionsFor(s[..|s| - 1], selected) + [Decide(s[|s| - 1], selected)]
    }

    function Settle(best: seq<Intent>): Arbitration {
      var selected := Chosen(best);
      Arbitration(Decisions(selected), SortStrings(Ids(selected)), Conflicts(), NextAgenda(selected))
    }

    /** `result` is what the arbiter answers for this tick. */
    ghost predicate Yields(result: Arbitration) {
      exists best :: IsBest(best, Eligible(), obs, Scores(), Conflicts()) && result == Settle(best)
    }
  }

  /** Group conflicts by the intents they mention; a pair never mentions one intent twice. */
  method IndexConflicts(conflicts: seq<Conflict>) returns (index: map<string, seq<Conflict>>)
    requires forall c :: c in conflicts ==> c.low != c.high
    ensures Indexes(index, conflicts)
  {
    index := map[];
    for k := 0 to |conflicts|
      invariant Indexes(index, conflicts[..k])
    {
      var c := conflicts[k];
      IndexesOneMore(index, conflicts, k);
      index := index[c.low := (if c.low in index then index[c.low] else []) + [c]];
      index := index[c.high := (if c.high in index then index[c.high] else []) + [c]];
    }
    assert conflicts[..|conflicts|] == conflicts;
  }

  ghost predicate Indexes(index: map<string, seq<Conflict>>, conflicts: seq<Conflict>) {
    forall id :: (if id in index then index[id] else []) == ConflictsAbout(id, conflicts)
  }

  lemma IndexesOneMore(index: map<string, seq<Conflict>>, conflicts: seq<Conflict>, k: nat)
    requires k < |conflicts| && conflicts[k].low != conflicts[k].high && Indexes(index, conflicts[..k])
    ensures var c := conflicts[k];
      var low := index[c.low := (if c.low in index then index[c.low] else []) + [c]];
      Indexes(low[c.high := (if c.high in low then low[c.high] else []) + [c]], conflicts[..k + 1])
  {
    assert conflicts[..k + 1][..k] == conflicts[..k];
    forall id ensures ConflictsAbout(id, conflicts[..k + 1])
      == ConflictsAbout(id, conflicts[..k]) + if id == conflicts[k].low
        || id == conflicts[k].high then [conflicts[k]] else []
    {
    }
  }

  lemma {:induction false} ConflictsNameTwoIntents(intents: seq<Intent>, i: nat)
    requires UniqueIds(intents) && i <= |intents|
    ensures forall c :: c in ConflictsFrom(intents, i) ==> c.low != c.high
    decreases |intents| - i
  {
    if i < |intents| {
      ConflictsWithNamesTwo(intents[i], intents[i + 1..]);
      ConflictsNameTwoIntents(intents, i + 1);
    }
  }

  lemma {:induction false} ConflictsWithNamesTwo(left: Intent, rest: seq<Intent>)
    requires forall i :: 0 <= i < |rest| ==> rest[i].id != left.id
    ensures forall c :: c in ConflictsWith(left, rest) ==> c.low != c.high
  {
    if rest != [] {
      ConflictsWithNamesTwo(left, rest[..|rest| - 1]);
    }
  }

  /** Rejections by identifier, and the admitted intents in rank order. */
  method Admit(ranked: seq<Intent>, obs: Observation)
    returns (rejected: map<string, Reason>, admitted: seq<Intent>)
    requires UniqueIds(ranked)
    ensures admitted == AdmittedFrom(ranked, obs)
    ensures forall i :: i in ranked ==> Recorded(i.id, rejected) == Rejection(i, obs)
  {
    rejected, admitted := map[], [];
    for k := 0 to |ranked|
      invariant admitted == AdmittedFrom(ranked[..k], obs)
      invariant forall j :: k <= j < |ranked| ==> ranked[j].id !in rejected
      invariant forall j :: 0 <= j < k ==> Recorded(ranked[j].id, rejected) == Rejection(ranked[j], obs)
    {
      assert ranked[..k + 1][..k] == ranked[..k];
      match Rejection(ranked[k], obs)
      case Some(reason) => rejected := rejected[ranked[k].id := reason];
      case None => admitted := admitted + [ranked[k]];
    }
    assert ranked[..|ranked|] == ranked;
  }

  function Recorded(id: string, rejected: map<string, Reason>): Option<Reason> {
    if id in rejected then Some(rejected[id]) else None
  }

  method DecideOne(tick: Tick, intent: Intent, selected: seq<Intent>, rejection: Option<Reason>,
                   about: seq<Conflict>)
    returns (decision: Decision)
    requires rejection == Rejection(intent, tick.obs)
    requires about == ConflictsAbout(intent.id, tick.Conflicts())
    ensures decision == tick.Decide(intent, selected)
  {
    var status, reason, reserved, until := Deferred, NotInBestFeasibleSet, NO_CLAIM, None;
    if intent.id in Ids(selected) {
      status, reason, reserved := Selected, SelectedFeasibleSet, intent.claim;
      until := Some(tick.obs.gameLoop + intent.claim.loops);
    } else if rejection.Some? {
      status, reason := Rejected, rejection.value;
    } else if WasActive(intent, tick.previous) && exists i :: i in selected && i.emergency {
      status, reason := Preempted, EmergencyPreemption;
    }
    var rules := if intent.id in tick.advice.rules then tick.advice.rules[intent.id] else [];
    return Decision(intent.id, status, reason, tick.Scores().Of(intent), about, rules, reserved, until);
  }

  method DecideFrom(tick: Tick, intent: Intent, selected: seq<Intent>, rejected: map<string, Reason>,
                    index: map<string, seq<Conflict>>)
    returns (decision: Decision)
    requires Recorded(intent.id, rejected) == Rejection(intent, tick.obs) && Indexes(index, tick.Conflicts())
    ensures decision == tick.Decide(intent, selected)
  {
    decision := DecideOne(tick, intent, selected, Recorded(intent.id, rejected),
                          if intent.id in index then index[intent.id] else []);
  }

  lemma DecisionsOneMore(tick: Tick, selected: seq<Intent>, k: nat)
    requires k < |tick.intents|
    ensures tick.DecisionsFor(tick.intents[..k + 1], selected)
         == tick.DecisionsFor(tick.intents[..k], selected) + [tick.Decide(tick.intents[k], selected)]
  {
    assert tick.intents[..k + 1][..k] == tick.intents[..k];
  }

  method DecideAll(tick: Tick, selected: seq<Intent>, rejected: map<string, Reason>,
                   index: map<string, seq<Conflict>>)
    returns (decisions: seq<Decision>)
    requires forall i :: i in tick.intents ==> Recorded(i.id, rejected) == Rejection(i, tick.obs)
    requires Indexes(index, tick.Conflicts())
    ensures decisions == tick.Decisions(selected)
  {
    decisions := [];
    for k := 0 to |tick.intents|
      invariant decisions == tick.DecisionsFor(tick.intents[..k], selected)
    {
      DecisionsOneMore(tick, selected, k);
      var decision := DecideFrom(tick, tick.intents[k], selected, rejected, index);
      decisions := decisions + [decision];
    }
    assert tick.intents[..|tick.intents|] == tick.intents;
  }

  /** Keep last tick's commitments when they are feasible and not clearly beaten. */
  method Commit(tick: Tick, eligible: seq<Intent>, best: seq<Intent>, conflicts: seq<Conflict>)
    returns (selected: seq<Intent>)
    requires eligible == tick.Eligible() && conflicts == tick.Conflicts()
    ensures selected == tick.Chosen(best)
  {
    selected := best;
    if tick.InWindow() {
      var retained := RetainedFrom(eligible, tick.previous);
      if retained != [] && Feasible(retained, tick.obs, conflicts) {
        if TotalScore(best, tick.Scores()) < TotalScore(retained, tick.Scores()) + tick.config.switchMargin
           && !(exists i :: i in best && i.emergency && i !in retained) {
          selected := retained;
        }
      }
    }
  }

  /** One call of `arbitrate`. */
  method Arbitrate(tick: Tick) returns (result: Result<Arbitration, BatchError>)
    ensures match result
            case Err(error) => tick.Check() == Some(error)
            case Ok(arbitration) => tick.Check() == None && tick.Yields(arbitration)
  {
    if tick.Check().Some? {
      return Err(tick.Check().value);
    }
    RankedIsPermutation(tick.intents);
    ConflictsNameTwoIntents(tick.intents, 0);
    var conflicts := BuildConflicts(tick.intents);
    var index := IndexConflicts(conflicts);
    var rejected, admitted := Admit(tick.Ranked(), tick.obs);
    var eligible := if |admitted| <= tick.config.maxIntents then admitted else admitted[..tick.config.maxIntents];
    var best := BestFeasibleSubset(eligible, tick.obs, tick.Scores(), conflicts);
    var selected := Commit(tick, eligible, best, conflicts);
    var decisions := DecideAll(tick, selected, rejected, index);
    var arbitration := Arbitration(decisions, SortStrings(Ids(selected)), conflicts, tick.NextAgenda(selected));
    assert arbitration == tick.Settle(best);
    return Ok(arbitration);
  }

  lemma BeforeIsKeyOrder()
    ensures KeyOrder<Intent>((a, b) => Before(a, b))
  {
    forall a: Intent, b: Intent ensures Before(a, b) ==> !Before(b, a) {
      StringTrichotomy(a.id, b.id);
    }
    forall a: Intent, b: Intent, c: Intent | Before(a, c) ensures Before(a, b) || Before(b, c) {
      StringTrichotomy(a.id, b.id);
      if StringLess(b.id, a.id) && StringLess(a.id, c.id) {
        StringTransitive(b.id, a.id, c.id);
      }
    }
  }

  lemma RankedIsPermutation(intents: seq<Intent>)
    requires UniqueIds(intents)
    ensures var ranked := Ranking(intents);
            && multiset(ranked) == multiset(intents)
            && UniqueIds(ranked)
            && forall i :: i in ranked <==> i in intents
  {
    var ranked := Ranking(intents);
    BeforeIsKeyOrder();
    SortSorts(intents, (a, b) => Before(a, b));
    SameMembers(ranked, intents);
    UniqueIdsArePermutable(intents, ranked);
  }

  lemma UniqueIdsArePermutable(s: seq<Intent>, t: seq<Intent>)
    requires UniqueIds(s) && multiset(s) == multiset(t)
    ensures UniqueIds(t)
  {
    SameMembers(s, t);
    forall i, j | 0 <= i < j < |t| ensures t[i].id != t[j].id {
      if t[i] == t[j] {
        RepeatedElement(t, i, j);
        var k :| 0 <= k < |s| && s[k] == t[i];
        OnceOnly(s, k);
      } else {
        assert t[i] in s && t[j] in s;
      }
    }
  }

  lemma RepeatedElement(t: seq<Intent>, i: nat, j: nat)
    requires i < j < |t| && t[i] == t[j]
    ensures multiset(t)[t[i]] >= 2
  {
    assert t == t[..i] + [t[i]] + t[i + 1..j] + [t[j]] + t[j + 1..];
  }

  lemma OnceOnly(s: seq<Intent>, k: nat)
    requires UniqueIds(s) && k < |s|
    ensures multiset(s)[s[k]] == 1
  {
    assert s == s[..k] + [s[k]] + s[k + 1..];
    assert s[k] !in s[..k] && s[k] !in s[k + 1..];
    assert multiset(s[..k])[s[k]] == 0 && multiset(s[k + 1..])[s[k]] == 0;
  }
}
