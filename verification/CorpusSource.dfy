/** The fingerprint of a source journal: an allow-listed projection of each event. */
module CorpusSource {
  import opened CorpusModel
  import opened Ordering

  datatype Ordinal = NoCandidate | At(ordinal: nat) | OutsideDomain

  datatype Projection =
    | ObservationShown(protocol: string, features: Compact)
    | IntentShown(role: Role, source: string, version: string, names: seq<string>, priority: nat, ttl: nat,
                  targetKind: TargetKind, hasPlan: bool, hasSituation: bool)
    | CandidatesShown(entries: seq<(nat, string, Features)>)
    | SelectionShown(selected: bool, chosen: Ordinal, executor: string, version: string, reason: Option<string>,
                     latency: Float)
    | LineageShown(chosen: Ordinal, role: Role, source: string, version: string, executor: string,
                   executorVersion: string,
                   hasPlan: bool, gameLoop: nat)
    | ExecutionShown(status: Status, success: bool, stage: Option<string>, code: Option<string>, action: Option<string>,
                     commandSource: Option<string>)
    | LifecycleShown(statusText: Option<string>, reason: Option<string>, name: Option<string>,
                     commandSource: Option<string>,
                     rawPriority: Option<int>, rawTtl: Option<int>, created: Option<int>)
    | Invalid
    | MetadataOnly

  datatype Entry = Entry(ordinal: nat, kind: string, run: string, episode: string, step: nat, shown: Projection)

  function KindOf(b: Body): string {
    match b
    case ObservationBody(_) => "observation"
    case IntentBody(_, _) => "intent_emitted"
    case CandidatesBody(_, _) => "candidate_set_built"
    case SelectionBody(_, _) => "executor_selection"
    case LineageBody(_, _) => "command_lineage"
    case ExecutionBody(_, _) => "execution"
    case LifecycleBody(_, _, _, _, _) => "command_lifecycle"
    case OtherBody(name) => name
  }

  type Ordinals = map<string, nat>

  /** The position of each candidate id in a list; a repeated id keeps its last. */
  function OrdinalsOf(raw: seq<RawCandidate>): Ordinals {
    if raw == [] then map[]
    else
      var init := OrdinalsOf(raw[..|raw| - 1]);
      var last := raw[|raw| - 1];
      if last.id.Some? then init[last.id.value := |raw| - 1] else init
  }

  function CandidatesKeyOf(e: Event): Option<SelectionKey> {
    if e.body.CandidatesBody? && e.body.key.Some? then Some((e.run, e.episode, e.body.key.value)) else None
  }

  function Noted(e: Event, known: map<SelectionKey, Ordinals>): map<SelectionKey, Ordinals> {
    if CandidatesKeyOf(e).Some? && CandidatesIn(e).Some?
      then known[CandidatesKeyOf(e).value := OrdinalsOf(CandidatesIn(e).value)]
    else known
  }

  function CandidateOrdinals(events: seq<Event>): map<SelectionKey, Ordinals> {
    if events == [] then map[] else Noted(events[|events| - 1], CandidateOrdinals(events[..|events| - 1]))
  }

  method CollectOrdinals(events: seq<Event>) returns (known: map<SelectionKey, Ordinals>)
    ensures known == CandidateOrdinals(events)
  {
    known := map[];
    var i := 0;
    while i < |events|
      invariant 0 <= i <= |events|
      invariant known == CandidateOrdinals(events[..i])
    {
      assert events[..i + 1][..i] == events[..i];
      known := Noted(events[i], known);
      i := i + 1;
    }
    assert events[..i] == events;
  }

  function OrdinalIn(known: map<SelectionKey, Ordinals>, key: SelectionKey, candidate: string): Ordinal {
    if key in known && candidate in known[key] then At(known[key][candidate]) else OutsideDomain
  }

  function Shown(raw: seq<RawCandidate>): Option<seq<(nat, string, Features)>> {
    if raw == [] then Some([])
    else
      var init := Shown(raw[..|raw| - 1]);
      var last := raw[|raw| - 1].parsed;
      if init.None? || last.None? then None
        else Some(init.value + [(|raw| - 1, last.value.action, last.value.features)])
  }

  function ShowObservation(o: Option<Observation>): Projection {
    if o.None? then Invalid else ObservationShown(o.value.protocol, Compacted(o.value))
  }

  function ShowIntent(intent: Option<Intent>): Projection {
    if intent.None? then Invalid
    else
      var i := intent.value;
      IntentShown(i.role, i.source, i.version, i.names, i.priority, i.ttl, i.targetKind, i.role == MacroRole,
                  i.situation.Some?)
  }

  function ShowCandidates(raw: Option<seq<RawCandidate>>): Projection {
    if raw.None? || Shown(raw.value).None? then Invalid else CandidatesShown(Shown(raw.value).value)
  }

  function ShowSelection(w: World, run: string, episode: string, selection: Option<Selection>,
                         known: map<SelectionKey, Ordinals>)
    : Projection
  {
    if selection.None? then Invalid
    else
      var s := selection.value;
      SelectionShown(s.selected,
                     if s.candidate.None? then NoCandidate
                       else OrdinalIn(known, (run, episode, s.intent), s.candidate.value),
                     s.executor, s.version, SafeCode(w, s.reason), s.latency)
  }

  function ShowLineage(run: string, episode: string, lineage: Option<Lineage>,
                       known: map<SelectionKey, Ordinals>): Projection {
    if lineage.None? then Invalid
    else
      var l := lineage.value;
      LineageShown(OrdinalIn(known, (run, episode, l.intent), l.candidate), l.role, l.source, l.version, l.executor,
                   l.executorVersion, l.plan.Some?, l.gameLoop)
  }

  function ShowReport(w: World, report: Option<Report>): Projection {
    if report.None? then Invalid
    else
      var r := report.value;
      ExecutionShown(r.status, r.success, r.stage, SafeCode(w, r.code), r.action, r.source)
  }

  /** What is shown of an event; a payload that does not validate shows only that. */
  function Show(w: World, e: Event, known: map<SelectionKey, Ordinals>): Projection {
    match e.body
    case ObservationBody(o) => ShowObservation(o)
    case IntentBody(_, intent) => ShowIntent(intent)
    case CandidatesBody(_, candidates) => ShowCandidates(candidates)
    case SelectionBody(_, selection) => ShowSelection(w, e.run, e.episode, selection, known)
    case LineageBody(_, lineage) => ShowLineage(e.run, e.episode, lineage, known)
    case ExecutionBody(_, report) => ShowReport(w, report)
    case LifecycleBody(_, text, _, reason, c) =>
      LifecycleShown(SafeCode(w, text), SafeCode(w, reason), c.name, SafeCode(w, c.source), c.priority, c.ttl,
                     c.created)
    case OtherBody(_) => MetadataOnly
  }

  function Entries(w: World, events: seq<Event>, known: map<SelectionKey, Ordinals>): seq<Entry> {
    if events == [] then []
    else
      var n := |events| - 1;
      var e := events[n];
      Entries(w, events[..n], known) + [Entry(n, KindOf(e.body), e.run, e.episode, e.step, Show(w, e, known))]
  }

  /** What the source fingerprint digests. */
  function SourceEntries(w: World, events: seq<Event>): seq<Entry> {
    Entries(w, events, CandidateOrdinals(events))
  }
}
