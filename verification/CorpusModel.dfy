/** The executor corpus: journal events, the join around one selection, and the minimized
    sample that is all a corpus keeps of it. */
module CorpusModel {
  import opened Ordering

  /** A float that is only copied: the text that JSON writes for it. */
  type Float = string

  // ----- what the journal records -------------------------------------------------------

  datatype Economy = Economy(minerals: nat, vespene: nat, supplyUsed: nat, supplyCap: nat, workers: nat,
                             armySupply: nat)

  /** `details` stands for tags, positions and health. */
  datatype Unit = Unit(kind: string, details: string)

  datatype ActionOffer = ActionOffer(name: string, arguments: string, actors: seq<string>)

  datatype Observation = Observation(
    run: string, episode: string, step: nat, gameLoop: nat, protocol: string, economy: Economy,
    ownUnits: seq<Unit>, ownStructures: seq<Unit>, enemies: seq<Unit>, production: seq<string>, upgrades: seq<string>,
    actions: seq<ActionOffer>, alerts: seq<string>, text: string, image: string)

  datatype TargetKind = NoTarget | EnemyTarget | RegionTarget | PositionTarget

  datatype Role = MacroRole | TacticalRole | ReflexRole

  datatype Intent = Intent(
    id: string, run: string, episode: string, step: nat, created: nat, role: Role, source: string, version: string,
    names: seq<string>, priority: nat, ttl: nat, targetKind: TargetKind, target: string, situation: Option<string>)

  datatype Features = Features(
    actionRank: nat, actorRank: nat, argumentRank: nat, ordinal: nat, advances: bool, score: Float)

  datatype Candidate = Candidate(
    id: string, stamp: string, intent: string, action: string, actor: string, arguments: string, features: Features)

  /** One entry of a candidate list: its id as text, and the entry once validated. */
  datatype RawCandidate = RawCandidate(id: Option<string>, parsed: Option<Candidate>)

  datatype Selection = Selection(
    id: string, intent: string, selected: bool, candidate: Option<string>, executor: string, version: string,
    latency: Float, reason: Option<string>)

  datatype Lineage = Lineage(
    selection: string, intent: string, candidate: string, command: string, role: Role, source: string, version: string,
    executor: string, executorVersion: string, plan: Option<string>, gameLoop: nat)

  datatype Status = Succeeded | Failed | Cancelled | Unconfirmed

  datatype Report = Report(
    run: string, episode: string, step: nat, command: string, status: Status, success: bool, stage: Option<string>,
    code: Option<string>, action: Option<string>, actor: Option<string>, source: Option<string>)

  /** The command object inside a lifecycle payload. */
  datatype CommandObject = CommandObject(
    id: Option<string>, name: Option<string>, actor: Option<string>, source: Option<string>,
    priority: Option<int>, ttl: Option<int>, created: Option<int>)

  /** Payloads, each with what a validation of it yields; `None` is a payload it refuses. */
  datatype Body =
    | ObservationBody(observation: Option<Observation>)
    | IntentBody(key: Option<string>, intent: Option<Intent>)
    | CandidatesBody(key: Option<string>, candidates: Option<seq<RawCandidate>>)
    | SelectionBody(key: Option<string>, selection: Option<Selection>)
    | LineageBody(key: Option<string>, lineage: Option<Lineage>)
    | ExecutionBody(key: Option<string>, report: Option<Report>)
    | LifecycleBody(direct: Option<string>, text: Option<string>, status: Option<Status>, reason: Option<string>,
                    command: CommandObject)
    | OtherBody(name: string)

  datatype Event = Event(run: string, episode: string, step: nat, body: Body)

  // ----- what a corpus keeps ------------------------------------------------------------

  /** Decision features only. */
  datatype Compact = Compact(
    gameLoop: nat, economy: Economy, own: multiset<string>, structures: multiset<string>, enemies: multiset<string>,
    production: multiset<string>, upgrades: set<string>, actions: set<string>, alerts: nat)

  datatype CandidateSample = CandidateSample(id: string, action: string, features: Features)

  datatype Label = Label(
    id: string, selected: bool, candidate: Option<string>, reason: Option<string>, executor: string, version: string,
    latency: Float)

  datatype Outcome = Outcome(status: Status, stage: Option<string>, code: Option<string>, action: Option<string>)

  datatype Split = Train | Validation | Test

  datatype Sample = Sample(
    id: string, split: Split, run: string, episode: string, step: nat, gameLoop: nat, observation: string,
    semantic: string, features: Compact, intent: string, names: seq<string>, role: Role, source: string,
    version: string,
    hasPlan: bool, hasSituation: bool, candidates: seq<CandidateSample>, choice: Label, command: Option<string>,
    outcome: Option<Outcome>)

  // ----- digests ------------------------------------------------------------------------

  datatype ObservationPayload = ObservationPayload(run: string, episode: string, step: nat, gameLoop: nat,
                                                   semantic: string)

  datatype IntentPayload = IntentPayload(
    observation: string, role: Role, source: string, version: string, names: seq<string>, priority: nat, ttl: nat,
    targetKind: TargetKind)

  datatype CandidatePayload = CandidatePayload(intent: string, ordinal: nat, action: string, features: Features)

  datatype SelectionPayload = SelectionPayload(
    intent: string, selected: bool, candidate: Option<string>, executor: string, version: string)

  datatype CommandPayload = CommandPayload(selection: string, candidate: Option<string>, action: Option<string>)

  datatype SamplePayload = SamplePayload(
    run: string, episode: string, step: nat, observation: string, intent: string, names: seq<string>, selection: string,
    candidates: seq<string>, selected: Option<string>, selectedAction: Option<string>)

  /** The hashes, one for each kind of payload, the redaction of free-text codes, and the
      split of an episode, which hashes seed, run and episode. `runtime` is the fingerprint
      the pipeline itself stamped on candidates. */
  datatype World = World(
    semantic: Compact -> string, observation: ObservationPayload -> string, intent: IntentPayload -> string,
    candidate: CandidatePayload -> string, selection: SelectionPayload -> string, command: CommandPayload -> string,
    sample: SamplePayload -> string, content: Sample -> string, runtime: Observation -> string,
    structured: string -> bool, split: (string, string, string) -> Split)

  const REDACTED := "unstructured_code_redacted"

  function SafeCode(w: World, code: Option<string>): Option<string> {
    if code.None? || w.structured(code.value) then code else Some(REDACTED)
  }

  // ----- indexing -----------------------------------------------------------------------

  /** The five dictionaries of an index, told apart by their keys. */
  datatype Key =
    | ObservationKey(run: string, episode: string, step: nat)
    | IntentKey(run: string, episode: string, id: string)
    | CandidatesKey(run: string, episode: string, id: string)
    | ExecutionKey(run: string, episode: string, id: string)
    | LifecycleKey(run: string, episode: string, id: string)

  type SelectionKey = (string, string, string)

  datatype Indexes = Indexes(unique: map<Key, Event>, lineages: map<SelectionKey, seq<Event>>)

  function CommandIdOf(body: Body): Option<string>
    requires body.LifecycleBody?
  {
    if body.direct.Some? then body.direct else body.command.id
  }

  /** Where an event is indexed; of the lifecycles only the terminal ones are. */
  function KeyOf(e: Event): Option<Key> {
    match e.body
    case ObservationBody(_) => Some(ObservationKey(e.run, e.episode, e.step))
    case IntentBody(key, _) => if key.Some? then Some(IntentKey(e.run, e.episode, key.value)) else None
    case CandidatesBody(key, _) => if key.Some? then Some(CandidatesKey(e.run, e.episode, key.value)) else None
    case ExecutionBody(key, _) => if key.Some? then Some(ExecutionKey(e.run, e.episode, key.value)) else None
    case LifecycleBody(_, _, status, _, _) =>
      var id := CommandIdOf(e.body);
      if id.Some? && status.Some? then Some(LifecycleKey(e.run, e.episode, id.value)) else None
    case _ => None
  }

  function LineageKeyOf(e: Event): Option<SelectionKey> {
    if e.body.LineageBody? && e.body.key.Some? then Some((e.run, e.episode, e.body.key.value)) else None
  }

  function Find<K, V>(m: map<K, V>, k: K): Option<V> {
    if k in m then Some(m[k]) else None
  }

  function LineagesAt(ix: Indexes, k: SelectionKey): seq<Event> {
    if k in ix.lineages then ix.lineages[k] else []
  }

  // ----- the join around one selection --------------------------------------------------

  datatype Refusal =
    | InvalidPayload | MissingIntent | MissingCandidateSet | MissingObservation | UnsupportedProtocol
    | PipelineMismatch | InvalidCandidateSet | DuplicateCandidate | CandidateIntentMismatch | StampMismatch
    | OutsideCandidateSet | MultipleLineages | LineageMismatch | ExecutionMismatch | LifecycleMismatch

  const DUPLICATE_SELECTION := "duplicate_selection_id"
  const CROSS_SPLIT := "cross_split_semantic_duplicate"

  function CodeOf(r: Refusal): (code: string)
    ensures code != DUPLICATE_SELECTION && code != CROSS_SPLIT
  {
    match r
    case InvalidPayload => "invalid_validationerror"
    case MissingIntent => "missing_intent"
    case MissingCandidateSet => "missing_candidate_set"
    case MissingObservation => "missing_observation"
    case UnsupportedProtocol => "unsupported_protocol"
    case PipelineMismatch => "pipeline_identity_mismatch"
    case InvalidCandidateSet => "invalid_candidate_set"
    case DuplicateCandidate => "duplicate_candidate_id"
    case CandidateIntentMismatch => "candidate_intent_mismatch"
    case StampMismatch => "observation_fingerprint_mismatch"
    case OutsideCandidateSet => "selection_outside_candidate_set"
    case MultipleLineages => "multiple_command_lineages"
    case LineageMismatch => "command_lineage_mismatch"
    case ExecutionMismatch => "execution_identity_mismatch"
    case LifecycleMismatch => "terminal_lifecycle_identity_mismatch"
  }

  datatype Joined = Joined(
    selection: Selection, observation: Observation, intent: Intent, candidates: seq<Candidate>)

  /** The events one selection refers to. */
  function Join(e: Event, ix: Indexes, w: World): Result<Joined, Refusal> {
    if SelectionIn(e).None? then Err(InvalidPayload)
    else
      var s := SelectionIn(e).value;
      var intentEvent := Find(ix.unique, IntentKey(e.run, e.episode, s.intent));
      var candidatesEvent := Find(ix.unique, CandidatesKey(e.run, e.episode, s.intent));
      var observationEvent := Find(ix.unique, ObservationKey(e.run, e.episode, e.step));
      if intentEvent.None? then Err(MissingIntent)
      else if candidatesEvent.None? then Err(MissingCandidateSet)
      else if observationEvent.None? then Err(MissingObservation)
      else JoinEvents(e, s, intentEvent.value, candidatesEvent.value, observationEvent.value, w)
  }

  function SelectionIn(e: Event): Option<Selection> {
    if e.body.SelectionBody? then e.body.selection else None
  }

  function ObservationIn(e: Event): Option<Observation> {
    if e.body.ObservationBody? then e.body.observation else None
  }

  function IntentIn(e: Event): Option<Intent> {
    if e.body.IntentBody? then e.body.intent else None
  }

  function CandidatesIn(e: Event): Option<seq<RawCandidate>> {
    if e.body.CandidatesBody? then e.body.candidates else None
  }

  function JoinEvents(e: Event, s: Selection, intentEvent: Event, candidatesEvent: Event, observationEvent: Event,
                      w: World)
    : Result<Joined, Refusal>
  {
    JoinPayloads(e, s, ObservationIn(observationEvent), IntentIn(intentEvent), CandidatesIn(candidatesEvent),
                 intentEvent.step == e.step && candidatesEvent.step == e.step, w)
  }

  function JoinPayloads(e: Event, s: Selection, o: Option<Observation>, intent: Option<Intent>,
                        raw: Option<seq<RawCandidate>>,
                        sameSteps: bool, w: World): Result<Joined, Refusal>
  {
    if o.None? then Err(InvalidPayload)
    else if o.value.protocol != "1.1" then Err(UnsupportedProtocol)
    else if intent.None? then Err(InvalidPayload)
    else if !(sameSteps && SamePipeline(e, s, o.value, intent.value)) then Err(PipelineMismatch)
    else if raw.None? then Err(InvalidCandidateSet)
    else
      match Parsed(raw.value)
      case None => Err(InvalidPayload)
      case Some(candidates) =>
        match CandidateFault(s, w.runtime(o.value), candidates)
        case Some(fault) => Err(fault)
        case None => Ok(Joined(s, o.value, intent.value, candidates))
  }

  function CandidateFault(s: Selection, stamp: string, candidates: seq<Candidate>): Option<Refusal> {
    if !UniqueCandidates(candidates) then Some(DuplicateCandidate)
    else if exists c :: c in candidates && c.intent != s.intent then Some(CandidateIntentMismatch)
    else if exists c :: c in candidates && c.stamp != stamp then Some(StampMismatch)
    else if s.selected && (s.candidate.None? || PositionOf(candidates, s.candidate.value).None?)
      then Some(OutsideCandidateSet)
    else None
  }

  predicate SamePipeline(e: Event, s: Selection, o: Observation, intent: Intent) {
    && o.run == e.run && o.episode == e.episode && o.step == e.step
    && intent.id == s.intent
    && intent.run == e.run && intent.episode == e.episode && intent.step == e.step
    && intent.created == o.gameLoop
  }

  function Parsed(raw: seq<RawCandidate>): (r: Option<seq<Candidate>>)
    ensures r.Some? <==> forall c :: c in raw ==> c.parsed.Some?
    ensures r.Some? ==> |r.value| == |raw| && forall i :: 0 <= i < |raw| ==> raw[i].parsed == Some(r.value[i])
  {
    if raw == [] then Some([])
    else
      var init := Parsed(raw[..|raw| - 1]);
      var last := raw[|raw| - 1].parsed;
      assert raw[|raw| - 1] in raw;
      if init.None? || last.None? then None else Some(init.value + [last.value])
  }

  predicate UniqueCandidates(candidates: seq<Candidate>) {
    forall i, j :: 0 <= i < j < |candidates| ==> candidates[i].id != candidates[j].id
  }

  /** The position of a candidate id; the last one, as in a dictionary built in order. */
  function PositionOf(candidates: seq<Candidate>, id: string): (r: Option<nat>)
    ensures r.Some? ==> r.value < |candidates| && candidates[r.value].id == id
    ensures r.None? ==> forall c :: c in candidates ==> c.id != id
  {
    if candidates == [] then None
    else if candidates[|candidates| - 1].id == id then Some(|candidates| - 1)
    else PositionOf(candidates[..|candidates| - 1], id)
  }

  /** The selected candidate; an abstention names none. */
  function Chosen(j: Joined): Result<Option<nat>, Refusal> {
    if j.selection.candidate.None? then Ok(None)
    else
      match PositionOf(j.candidates, j.selection.candidate.value)
      case None => Err(InvalidPayload)
      case Some(i) => Ok(Some(i))
  }

  datatype Link = Link(linked: bool, outcome: Option<Outcome>)

  /** The command that came of a selection, and how it ended. */
  function Linked(e: Event, s: Selection, chosen: Option<Candidate>, ix: Indexes, w: World): Result<Link, Refusal> {
    var events := LineagesAt(ix, (e.run, e.episode, s.id));
    if |events| > 1 then Err(MultipleLineages)
    else if events == [] then Ok(Link(false, None))
    else LinkedBy(e, s, chosen, ix, w, LineageIn(events[0]))
  }

  function LineageIn(e: Event): Option<Lineage> {
    if e.body.LineageBody? then e.body.lineage else None
  }

  predicate OfSelection(l: Lineage, s: Selection) {
    l.intent == s.intent && Some(l.candidate) == s.candidate
  }

  function LinkedBy(e: Event, s: Selection, chosen: Option<Candidate>, ix: Indexes, w: World,
                    lineage: Option<Lineage>): Result<Link, Refusal> {
    if lineage.None? then Err(InvalidPayload)
    else if !OfSelection(lineage.value, s) then Err(LineageMismatch)
    else OutcomeOf(e, lineage.value, chosen, ix, w)
  }

  /** An execution report takes precedence over a terminal lifecycle. */
  function OutcomeOf(e: Event, l: Lineage, chosen: Option<Candidate>, ix: Indexes, w: World): Result<Link, Refusal> {
    match Find(ix.unique, ExecutionKey(e.run, e.episode, l.command))
    case Some(execution) => Executed(e, l, chosen, execution, w)
    case None =>
      match Find(ix.unique, LifecycleKey(e.run, e.episode, l.command))
      case None => Ok(Link(true, None))
      case Some(lifecycle) => Ended(e, l, chosen, lifecycle)
  }

  function Executed(e: Event, l: Lineage, chosen: Option<Candidate>, execution: Event, w: World)
    : Result<Link, Refusal>
  {
    if !execution.body.ExecutionBody? || execution.body.report.None? then Err(InvalidPayload)
    else
      var r := execution.body.report.value;
      if r.run != e.run || r.episode != e.episode || r.command != l.command || r.step != execution.step
         || execution.run != e.run || execution.episode != e.episode
         || (chosen.Some? && (r.action != Some(chosen.value.action) || r.actor != Some(chosen.value.actor))) then
        Err(ExecutionMismatch)
      else Ok(Link(true, Some(Outcome(r.status, r.stage, SafeCode(w, r.code), r.action))))
  }

  function Ended(e: Event, l: Lineage, chosen: Option<Candidate>, lifecycle: Event): Result<Link, Refusal> {
    if !lifecycle.body.LifecycleBody? || lifecycle.body.status.None? then Err(InvalidPayload)
    else
      var c := lifecycle.body.command;
      if lifecycle.run != e.run || lifecycle.episode != e.episode || lifecycle.step < e.step || c.id != Some(l.command)
         || (chosen.Some? && (c.name != Some(chosen.value.action) || c.actor != Some(chosen.value.actor))) then
        Err(LifecycleMismatch)
      else
        var status := lifecycle.body.status.value;
        Ok(Link(true, Some(Outcome(status, None,
          if status == Succeeded then None else Some("lifecycle_terminal_without_execution"), c.name))))
  }

  // ----- the projection -----------------------------------------------------------------

  function Kinds(units: seq<Unit>): multiset<string> {
    if units == [] then multiset{} else Kinds(units[..|units| - 1]) + multiset{units[|units| - 1].kind}
  }

  function Names(actions: seq<ActionOffer>): set<string> {
    if actions == [] then {} else Names(actions[..|actions| - 1]) + {actions[|actions| - 1].name}
  }

  function Compacted(o: Observation): Compact {
    Compact(o.gameLoop, o.economy, Kinds(o.ownUnits), Kinds(o.ownStructures), Kinds(o.enemies), multiset(o.production),
            (set u | u in o.upgrades), Names(o.actions), |o.alerts|)
  }

  function SafeCandidates(w: World, intent: string, candidates: seq<Candidate>): (r: seq<CandidateSample>)
    ensures |r| == |candidates|
    ensures forall i :: 0 <= i < |r| ==>
      r[i] == CandidateSample(w.candidate(CandidatePayload(intent, i, candidates[i].action, candidates[i].features)),
                              candidates[i].action, candidates[i].features)
  {
    if candidates == [] then []
    else
      var n := |candidates| - 1;
      var c := candidates[n];
      SafeCandidates(w, intent, candidates[..n])
      + [CandidateSample(w.candidate(CandidatePayload(intent, n, c.action, c.features)), c.action, c.features)]
  }

  function CandidateIds(candidates: seq<CandidateSample>): (r: seq<string>)
    ensures |r| == |candidates| && forall i :: 0 <= i < |r| ==> r[i] == candidates[i].id
  {
    if candidates == [] then [] else CandidateIds(candidates[..|candidates| - 1]) + [candidates[|candidates| - 1].id]
  }

  /** The action of the first candidate with the selected id. */
  function SelectedAction(s: Sample): Option<string> {
    if s.choice.candidate.None? then None else ActionOf(s.candidates, s.choice.candidate.value)
  }

  function ActionOf(candidates: seq<CandidateSample>, id: string): (r: Option<string>)
    ensures r.Some? <==> exists c :: c in candidates && c.id == id
  {
    if candidates == [] then None
    else if candidates[0].id == id then assert candidates[0] in candidates; Some(candidates[0].action)
    else
      assert forall c :: c in candidates <==> c == candidates[0] || c in candidates[1..];
      ActionOf(candidates[1..], id)
  }

  function ExpectedId(w: World, s: Sample): string {
    w.sample(SamplePayload(s.run, s.episode, s.step, s.observation, s.intent, s.names, s.choice.id,
                           CandidateIds(s.candidates),
                           s.choice.candidate, SelectedAction(s)))
  }

  /** What the label and sample models validate. */
  predicate ValidSample(s: Sample) {
    && (s.choice.selected ==> s.choice.candidate.Some?)
    && (!s.choice.selected ==> s.choice.candidate.None? && s.choice.reason.Some? && s.choice.reason.value != "")
    && (forall i, j :: 0 <= i < j < |s.candidates| ==> s.candidates[i].id != s.candidates[j].id)
    && (s.choice.candidate.Some? ==> SelectedAction(s).Some?)
    && (forall i, j :: 0 <= i < j < |s.names| ==> s.names[i] != s.names[j])
    && (forall c :: c in s.candidates ==> c.action in s.names)
    && (forall i, j :: 0 <= i < j < |s.candidates| ==>
      s.candidates[i].features.ordinal != s.candidates[j].features.ordinal)
  }

  /** Everything below is derived from the compact features and the ranks alone. */
  function Project(e: Event, j: Joined, chosen: Option<nat>, link: Link, w: World, seed: string): Sample
    requires chosen.Some? ==> chosen.value < |j.candidates|
  {
    var features := Compacted(j.observation);
    var semantic := w.semantic(features);
    var observation := w.observation(ObservationPayload(e.run, e.episode, e.step, j.observation.gameLoop, semantic));
    var i := j.intent;
    var intent := w.intent(IntentPayload(observation, i.role, i.source, i.version, i.names, i.priority, i.ttl,
                                         i.targetKind));
    var candidates := SafeCandidates(w, intent, j.candidates);
    var candidate := if chosen.None? then None else Some(candidates[chosen.value].id);
    var s := j.selection;
    var selection := w.selection(SelectionPayload(intent, s.selected, candidate, s.executor, s.version));
    var choice := Label(selection, s.selected, candidate, SafeCode(w, s.reason), s.executor, s.version, s.latency);
    var command :=
      if !link.linked then None
      else Some(w.command(CommandPayload(selection, candidate,
                                         if link.outcome.None? then None else link.outcome.value.action)));
    var sample := Sample("", w.split(seed, e.run, e.episode), e.run, e.episode, e.step, j.observation.gameLoop,
                         observation,
                         semantic, features, intent, i.names, i.role, i.source, i.version, i.role == MacroRole,
                         i.situation.Some?, candidates, choice, command, link.outcome);
    sample.(id := ExpectedId(w, sample))
  }

  function SampleFrom(e: Event, ix: Indexes, w: World, seed: string): Result<Sample, Refusal> {
    match Join(e, ix, w)
    case Err(r) => Err(r)
    case Ok(j) => SampleOf(e, j, ix, w, seed)
  }

  function SampleOf(e: Event, j: Joined, ix: Indexes, w: World, seed: string): Result<Sample, Refusal> {
    match Chosen(j)
    case Err(r) => Err(r)
    case Ok(chosen) =>
      match Linked(e, j.selection, CandidateAt(j, chosen), ix, w)
      case Err(r) => Err(r)
      case Ok(link) => Validated(Project(e, j, chosen, link, w, seed))
  }

  function CandidateAt(j: Joined, chosen: Option<nat>): Option<Candidate>
    requires chosen.Some? ==> chosen.value < |j.candidates|
  {
    if chosen.None? then None else Some(j.candidates[chosen.value])
  }

  function Validated(sample: Sample): Result<Sample, Refusal> {
    if ValidSample(sample) then Ok(sample) else Err(InvalidPayload)
  }

  // ----- what every sample satisfies ----------------------------------------------------

  /** A sample whose ids are the digests of its own content and whose split is its episode's. */
  ghost predicate WellMade(w: World, seed: string, s: Sample) {
    && ValidSample(s) && s.id == ExpectedId(w, s)
    && s.semantic == w.semantic(s.features) && s.split == w.split(seed, s.run, s.episode)
  }

  lemma SamplesAreWellMade(e: Event, ix: Indexes, w: World, seed: string)
    requires SampleFrom(e, ix, w, seed).Ok?
    ensures WellMade(w, seed, SampleFrom(e, ix, w, seed).value)
  {
    var j := Join(e, ix, w).value;
    var chosen := Chosen(j).value;
  }
}
