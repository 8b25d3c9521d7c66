/** What a corpus sample says, field by field, in terms of the journal events recorded under
    the keys of its selection. */
module CorpusMeaning {
  import opened CorpusBuild
  import opened CorpusFiles
  import opened CorpusModel
  import opened CorpusSource
  import opened CorpusTheorems
  import opened CorpusVerify
  import opened Counting
  import opened Ordering

  // ----- what the journal records about one selection -----------------------------------

  datatype Record = Record(selection: Selection, intent: Intent, listed: seq<RawCandidate>, observation: Observation)

  ghost predicate RecordedIntent(e: Event, ix: Indexes, id: string, intent: Intent) {
    var k := IntentKey(e.run, e.episode, id);
    k in ix.unique && ix.unique[k].step == e.step && ix.unique[k].body.IntentBody?
    && ix.unique[k].body.intent == Some(intent)
  }

  ghost predicate RecordedCandidates(e: Event, ix: Indexes, id: string, listed: seq<RawCandidate>) {
    var k := CandidatesKey(e.run, e.episode, id);
    k in ix.unique && ix.unique[k].step == e.step && ix.unique[k].body.CandidatesBody?
    && ix.unique[k].body.candidates == Some(listed)
  }

  ghost predicate RecordedObservation(e: Event, ix: Indexes, o: Observation) {
    var k := ObservationKey(e.run, e.episode, e.step);
    k in ix.unique && ix.unique[k].body.ObservationBody? && ix.unique[k].body.observation == Some(o)
  }

  /** `r` is what the journal holds for the selection event `e`. */
  ghost predicate Recorded(e: Event, ix: Indexes, r: Record) {
    && e.body.SelectionBody? && e.body.selection == Some(r.selection)
    && RecordedIntent(e, ix, r.selection.intent, r.intent)
    && RecordedCandidates(e, ix, r.selection.intent, r.listed)
    && RecordedObservation(e, ix, r.observation)
  }

  /** The recorded payloads name one run, episode, step, intent and observation. */
  ghost predicate BelongTogether(e: Event, r: Record, w: World) {
    && r.observation.protocol == "1.1"
    && r.observation.run == e.run && r.observation.episode == e.episode && r.observation.step == e.step
    && r.intent.run == e.run && r.intent.episode == e.episode && r.intent.step == e.step
    && r.intent.id == r.selection.intent && r.intent.created == r.observation.gameLoop
    && (forall k :: 0 <= k < |r.listed| ==> r.listed[k].parsed.Some?)
    && (forall k :: 0 <= k < |r.listed| ==> Belongs(r.listed[k].parsed, r.intent.id, w.runtime(r.observation)))
    && (forall i, k :: 0 <= i < k < |r.listed| ==> IdAt(r.listed, i) != IdAt(r.listed, k))
  }

  ghost predicate Belongs(c: Option<Candidate>, intent: string, stamp: string) {
    c.Some? && c.value.intent == intent && c.value.stamp == stamp
  }

  /** The id of the k-th listed candidate. */
  ghost function IdAt(listed: seq<RawCandidate>, k: nat): Option<string>
    requires k < |listed|
  {
    if listed[k].parsed.None? then None else Some(listed[k].parsed.value.id)
  }

  lemma Parts(e: Event, ix: Indexes, w: World, seed: string) returns (j: Joined, chosen: Option<nat>, link: Link)
    requires SampleFrom(e, ix, w, seed).Ok?
    ensures Join(e, ix, w) == Ok(j) && Chosen(j) == Ok(chosen)
    ensures Linked(e, j.selection, CandidateAt(j, chosen), ix, w) == Ok(link)
    ensures SampleFrom(e, ix, w, seed).value == Project(e, j, chosen, link, w, seed)
    ensures ValidSample(SampleFrom(e, ix, w, seed).value)
  {
    j := Join(e, ix, w).value;
    chosen := Chosen(j).value;
    link := Linked(e, j.selection, CandidateAt(j, chosen), ix, w).value;
  }

  lemma JoinMeaning(e: Event, ix: Indexes, w: World, j: Joined) returns (r: Record)
    requires Join(e, ix, w) == Ok(j)
    ensures Recorded(e, ix, r) && BelongTogether(e, r, w)
    ensures j.selection == r.selection && j.intent == r.intent && j.observation == r.observation
    ensures Parsed(r.listed) == Some(j.candidates)
  {
    var s := e.body.selection.value;
    var listed := CandidatesIn(ix.unique[CandidatesKey(e.run, e.episode, s.intent)]).value;
    r := Record(s, j.intent, listed, j.observation);
    forall k | 0 <= k < |listed| ensures Belongs(listed[k].parsed, j.intent.id, w.runtime(j.observation)) {
      assert j.candidates[k] in j.candidates;
    }
  }

  /** A sample is only made of events that are recorded under the selection's own keys and
      belong together. */
  lemma SamplesAreRecorded(e: Event, ix: Indexes, w: World, seed: string) returns (r: Record)
    requires SampleFrom(e, ix, w, seed).Ok?
    ensures Recorded(e, ix, r) && BelongTogether(e, r, w)
  {
    var j, chosen, link := Parts(e, ix, w, seed);
    r := JoinMeaning(e, ix, w, j);
  }

  lemma SameRecord(e: Event, ix: Indexes, w: World, j: Joined, r: Record)
    requires Join(e, ix, w) == Ok(j) && Recorded(e, ix, r)
    ensures j.selection == r.selection && j.intent == r.intent && j.observation == r.observation
    ensures Parsed(r.listed) == Some(j.candidates)
  {
    var _ := JoinMeaning(e, ix, w, j);
  }

  // ----- candidates and label -----------------------------------------------------------

  /** The candidates of a sample are the listed ones, position by position. */
  ghost predicate Listed(s: Sample, r: Record) {
    && |s.candidates| == |r.listed|
    && forall k :: 0 <= k < |r.listed| ==>
        && r.listed[k].parsed.Some?
        && s.candidates[k].action == r.listed[k].parsed.value.action
        && s.candidates[k].features == r.listed[k].parsed.value.features
  }

  /** The label is the candidate at the position that the selection names. */
  ghost predicate Labelled(s: Sample, r: Record)
    requires Listed(s, r)
  {
    && (r.selection.candidate == None <==> s.choice.candidate == None)
    && (forall k :: 0 <= k < |r.listed| && IdAt(r.listed, k) == r.selection.candidate ==>
          s.choice.candidate == Some(s.candidates[k].id))
    && (r.selection.candidate.Some? ==>
          exists k :: 0 <= k < |r.listed| && IdAt(r.listed, k) == r.selection.candidate)
  }

  /** What else the label says of the selection. */
  ghost predicate Reported(s: Sample, r: Record, w: World) {
    && s.choice.selected == r.selection.selected
    && s.choice.executor == r.selection.executor && s.choice.version == r.selection.version
    && s.choice.latency == r.selection.latency
    && s.choice.reason == (match r.selection.reason
                           case None => None
                           case Some(text) =>
                             if w.structured(text) then Some(text) else Some("unstructured_code_redacted"))
  }

  lemma SamplesAreLabelled(e: Event, ix: Indexes, w: World, seed: string, r: Record)
    requires SampleFrom(e, ix, w, seed).Ok? && Recorded(e, ix, r)
    ensures var s := SampleFrom(e, ix, w, seed).value;
      Listed(s, r) && Labelled(s, r) && Reported(s, r, w)
  {
    var j, chosen, link := Parts(e, ix, w, seed);
    SameRecord(e, ix, w, j, r);
    var same := JoinMeaning(e, ix, w, j);
    assert same.listed == r.listed;
    ChoiceIsNamed(r, j, chosen);
    ProjectionIsLabelled(e, j, chosen, link, w, seed, r);
  }

  lemma ProjectionIsLabelled(e: Event, j: Joined, chosen: Option<nat>, link: Link, w: World, seed: string, r: Record)
    requires Parsed(r.listed) == Some(j.candidates) && j.selection == r.selection
    requires chosen.Some? ==> chosen.value < |j.candidates| && IdAt(r.listed, chosen.value) == r.selection.candidate
    requires chosen.None? <==> r.selection.candidate.None?
    requires forall k :: 0 <= k < |r.listed| && IdAt(r.listed, k) == r.selection.candidate ==> chosen == Some(k)
    ensures var s := Project(e, j, chosen, link, w, seed); Listed(s, r) && Labelled(s, r)
  {
  }

  lemma ChoiceIsNamed(r: Record, j: Joined, chosen: Option<nat>)
    requires Parsed(r.listed) == Some(j.candidates) && j.selection == r.selection && Chosen(j) == Ok(chosen)
    requires forall i, k :: 0 <= i < k < |r.listed| ==> IdAt(r.listed, i) != IdAt(r.listed, k)
    ensures chosen.None? <==> r.selection.candidate.None?
    ensures chosen.Some? ==> IdAt(r.listed, chosen.value) == r.selection.candidate
    ensures forall k :: 0 <= k < |r.listed| && IdAt(r.listed, k) == r.selection.candidate ==> chosen == Some(k)
  {
    if chosen.Some? {
      assert IdAt(r.listed, chosen.value) == r.selection.candidate;
    }
  }

  // ----- the rest of the sample ---------------------------------------------------------

  /** Run, episode, step and intent are those recorded. */
  ghost predicate Described(s: Sample, e: Event, r: Record, w: World, seed: string) {
    && s.run == e.run && s.episode == e.episode && s.step == e.step
    && s.gameLoop == r.observation.gameLoop && s.split == w.split(seed, e.run, e.episode)
    && s.names == r.intent.names && s.role == r.intent.role
    && s.source == r.intent.source && s.version == r.intent.version
    && (s.hasPlan <==> r.intent.role == MacroRole) && (s.hasSituation <==> r.intent.situation != None)
  }

  lemma SamplesAreDescribed(e: Event, ix: Indexes, w: World, seed: string, r: Record)
    requires SampleFrom(e, ix, w, seed).Ok? && Recorded(e, ix, r)
    ensures Described(SampleFrom(e, ix, w, seed).value, e, r, w, seed)
  {
    var j, chosen, link := Parts(e, ix, w, seed);
    SameRecord(e, ix, w, j, r);
  }

  /** How many of the units are of a kind. */
  ghost function Among(units: seq<Unit>, kind: string): nat {
    |set i | 0 <= i < |units| && units[i].kind == kind|
  }

  lemma AmongOneMore(units: seq<Unit>, last: Unit, kind: string)
    ensures Among(units + [last], kind) == Among(units, kind) + if last.kind == kind then 1 else 0
  {
    var n := |units|;
    var before := set i | 0 <= i < n && units[i].kind == kind;
    var after := set i | 0 <= i < n + 1 && (units + [last])[i].kind == kind;
    assert after == if last.kind == kind then before + {n} else before;
  }

  lemma {:induction false} KindsAreCounted(units: seq<Unit>, kind: string)
    ensures Kinds(units)[kind] == Among(units, kind)
  {
    if units == [] {
    } else {
      var n := |units| - 1;
      KindsAreCounted(units[..n], kind);
      AmongOneMore(units[..n], units[n], kind);
      assert units == units[..n] + [units[n]];
    }
  }

  lemma {:induction false} NamesAreListed(actions: seq<ActionOffer>, name: string)
    ensures name in Names(actions) <==> exists k :: 0 <= k < |actions| && actions[k].name == name
  {
    if actions != [] {
      var n := |actions| - 1;
      NamesAreListed(actions[..n], name);
      if k :| 0 <= k < |actions| && actions[k].name == name {
        assert k < n ==> actions[..n][k].name == name;
      }
      if k :| 0 <= k < n && actions[..n][k].name == name {
        assert actions[k].name == name;
      }
    }
  }

  /** The features count the units of each side by kind, the queue by name, and list upgrades
      and actions once each. */
  ghost predicate Summarized(c: Compact, o: Observation) {
    && c.gameLoop == o.gameLoop && c.economy == o.economy && c.alerts == |o.alerts|
    && (forall kind :: c.own[kind] == Among(o.ownUnits, kind))
    && (forall kind :: c.structures[kind] == Among(o.ownStructures, kind))
    && (forall kind :: c.enemies[kind] == Among(o.enemies, kind))
    && c.production == multiset(o.production)
    && (forall u :: u in c.upgrades <==> u in o.upgrades)
    && (forall name :: name in c.actions <==> exists k :: 0 <= k < |o.actions| && o.actions[k].name == name)
  }

  lemma CompactedMeaning(o: Observation)
    ensures Summarized(Compacted(o), o)
  {
    forall kind
      ensures Kinds(o.ownUnits)[kind] == Among(o.ownUnits, kind)
      ensures Kinds(o.ownStructures)[kind] == Among(o.ownStructures, kind)
      ensures Kinds(o.enemies)[kind] == Among(o.enemies, kind)
    {
      KindsAreCounted(o.ownUnits, kind);
      KindsAreCounted(o.ownStructures, kind);
      KindsAreCounted(o.enemies, kind);
    }
    forall name
      ensures name in Names(o.actions) <==> exists k :: 0 <= k < |o.actions| && o.actions[k].name == name
    {
      NamesAreListed(o.actions, name);
    }
  }

  lemma SamplesAreSummaries(e: Event, ix: Indexes, w: World, seed: string, r: Record)
    requires SampleFrom(e, ix, w, seed).Ok? && Recorded(e, ix, r)
    ensures Summarized(SampleFrom(e, ix, w, seed).value.features, r.observation)
  {
    var j, chosen, link := Parts(e, ix, w, seed);
    SameRecord(e, ix, w, j, r);
    CompactedMeaning(r.observation);
  }

  // ----- digests ------------------------------------------------------------------------

  /** Each id is the digest of what the sample itself shows: no recorded id enters one. */
  ghost predicate Digested(s: Sample, r: Record, w: World) {
    && s.semantic == w.semantic(s.features)
    && s.observation == w.observation(ObservationPayload(s.run, s.episode, s.step, s.gameLoop, s.semantic))
    && s.intent == w.intent(IntentPayload(s.observation, s.role, s.source, s.version, s.names, r.intent.priority,
                                          r.intent.ttl, r.intent.targetKind))
    && (forall k :: 0 <= k < |s.candidates| ==>
          s.candidates[k].id
          == w.candidate(CandidatePayload(s.intent, k, s.candidates[k].action, s.candidates[k].features)))
    && s.choice.id == w.selection(SelectionPayload(s.intent, s.choice.selected, s.choice.candidate,
                                                   s.choice.executor, s.choice.version))
    && (s.command.Some? ==>
          s.command.value
          == w.command(CommandPayload(s.choice.id, s.choice.candidate,
                                      if s.outcome == None then None else s.outcome.value.action)))
    && exists action :: Acts(s, action)
                     && s.id == w.sample(SamplePayload(s.run, s.episode, s.step, s.observation, s.intent, s.names,
                                                       s.choice.id, IdsOf(s.candidates), s.choice.candidate, action))
  }

  ghost function IdsOf(candidates: seq<CandidateSample>): seq<string> {
    seq(|candidates|, k requires 0 <= k < |candidates| => candidates[k].id)
  }

  /** `action` is that of the candidate the label names. */
  ghost predicate Acts(s: Sample, action: Option<string>) {
    match s.choice.candidate
    case None => action == None
    case Some(id) => exists k :: 0 <= k < |s.candidates| && s.candidates[k].id == id
                              && action == Some(s.candidates[k].action)
  }

  lemma {:induction false} ActionIsNamed(candidates: seq<CandidateSample>, id: string)
    requires ActionOf(candidates, id).Some?
    ensures exists k :: 0 <= k < |candidates| && candidates[k].id == id
                     && ActionOf(candidates, id) == Some(candidates[k].action)
  {
    if candidates[0].id == id {
    } else {
      ActionIsNamed(candidates[1..], id);
      var k :| 0 <= k < |candidates[1..]| && candidates[1..][k].id == id
            && ActionOf(candidates[1..], id) == Some(candidates[1..][k].action);
      assert candidates[k + 1] == candidates[1..][k];
    }
  }

  lemma SamplesAreDigested(e: Event, ix: Indexes, w: World, seed: string, r: Record)
    requires SampleFrom(e, ix, w, seed).Ok? && Recorded(e, ix, r)
    ensures Digested(SampleFrom(e, ix, w, seed).value, r, w)
  {
    var j, chosen, link := Parts(e, ix, w, seed);
    SameRecord(e, ix, w, j, r);
    ProjectionIsDigested(e, j, chosen, link, w, seed, r);
  }

  lemma ProjectionIsDigested(e: Event, j: Joined, chosen: Option<nat>, link: Link, w: World, seed: string, r: Record)
    requires j.intent == r.intent && (chosen.Some? ==> chosen.value < |j.candidates|)
    requires ValidSample(Project(e, j, chosen, link, w, seed))
    ensures Digested(Project(e, j, chosen, link, w, seed), r, w)
  {
    var s := Project(e, j, chosen, link, w, seed);
    if s.choice.candidate.Some? {
      ActionIsNamed(s.candidates, s.choice.candidate.value);
    }
    assert CandidateIds(s.candidates) == IdsOf(s.candidates);
    assert Acts(s, SelectedAction(s));
  }

  // ----- how the command ended ----------------------------------------------------------

  /** `action` and `actor` are those of the candidate the selection names, if it names one. */
  ghost predicate CarriesOut(r: Record, action: Option<string>, actor: Option<string>) {
    forall k :: 0 <= k < |r.listed| && IdAt(r.listed, k) == r.selection.candidate != None ==>
      action == Some(r.listed[k].parsed.value.action) && actor == Some(r.listed[k].parsed.value.actor)
  }

  ghost predicate ReportOf(x: Event, report: Report, e: Event, l: Lineage, r: Record) {
    && x.body.ExecutionBody? && x.body.report == Some(report)
    && x.run == e.run && x.episode == e.episode && report.run == e.run && report.episode == e.episode
    && report.step == x.step && report.command == l.command && CarriesOut(r, report.action, report.actor)
  }

  ghost predicate EndOf(x: Event, e: Event, l: Lineage, r: Record) {
    && x.body.LifecycleBody? && x.body.status.Some?
    && x.run == e.run && x.episode == e.episode && x.step >= e.step && x.body.command.id == Some(l.command)
    && CarriesOut(r, x.body.command.name, x.body.command.actor)
  }

  /** The report of the execution tells the outcome; without one the terminal lifecycle does,
      and without either there is none. */
  ghost predicate EndsWith(outcome: Option<Outcome>, e: Event, ix: Indexes, l: Lineage, r: Record, w: World) {
    var execution := ExecutionKey(e.run, e.episode, l.command);
    var lifecycle := LifecycleKey(e.run, e.episode, l.command);
    if execution in ix.unique then
      exists report: Report :: ReportOf(ix.unique[execution], report, e, l, r)
        && outcome == Some(Outcome(
          report.status, report.stage,
          if report.code == None || w.structured(report.code.value) then report.code
          else Some("unstructured_code_redacted"),
          report.action))
    else if lifecycle in ix.unique then
      && EndOf(ix.unique[lifecycle], e, l, r)
      && outcome == Some(Outcome(
        ix.unique[lifecycle].body.status.value, None,
        if ix.unique[lifecycle].body.status == Some(Succeeded) then None
        else Some("lifecycle_terminal_without_execution"),
        ix.unique[lifecycle].body.command.name))
    else outcome == None
  }

  ghost predicate LineageOf(x: Event, l: Lineage, r: Record) {
    && x.body.LineageBody? && x.body.lineage == Some(l)
    && l.intent == r.selection.intent && Some(l.candidate) == r.selection.candidate
  }

  /** There is at most one lineage; the command and its outcome are those it leads to. */
  ghost predicate Ends(command: Option<string>, outcome: Option<Outcome>, e: Event, ix: Indexes, r: Record, w: World) {
    var k := (e.run, e.episode, r.selection.id);
    var lineages := if k in ix.lineages then ix.lineages[k] else [];
    if lineages == [] then command == None && outcome == None
    else
      && |lineages| == 1 && command.Some?
      && exists l: Lineage :: LineageOf(lineages[0], l, r) && EndsWith(outcome, e, ix, l, r, w)
  }

  /** `chosen` is the listed candidate that the selection names, if it names one. */
  ghost predicate Picked(r: Record, chosen: Option<Candidate>) {
    && (r.selection.candidate == None <==> chosen == None)
    && forall k :: 0 <= k < |r.listed| && IdAt(r.listed, k) == r.selection.candidate != None ==>
        chosen == r.listed[k].parsed
  }

  lemma ReportDecides(e: Event, l: Lineage, chosen: Option<Candidate>, x: Event, w: World, r: Record)
    requires Executed(e, l, chosen, x, w).Ok?
    requires Picked(r, chosen)
    ensures x.body.ExecutionBody? && x.body.report.Some? && ReportOf(x, x.body.report.value, e, l, r)
  {
  }

  lemma EndDecides(e: Event, l: Lineage, chosen: Option<Candidate>, x: Event, r: Record)
    requires Ended(e, l, chosen, x).Ok?
    requires Picked(r, chosen)
    ensures EndOf(x, e, l, r)
  {
  }

  lemma OutcomeMeaning(e: Event, l: Lineage, chosen: Option<Candidate>, ix: Indexes, w: World, r: Record)
    requires OutcomeOf(e, l, chosen, ix, w).Ok?
    requires Picked(r, chosen)
    ensures OutcomeOf(e, l, chosen, ix, w).value.linked
    ensures EndsWith(OutcomeOf(e, l, chosen, ix, w).value.outcome, e, ix, l, r, w)
  {
    var execution := ExecutionKey(e.run, e.episode, l.command);
    var lifecycle := LifecycleKey(e.run, e.episode, l.command);
    if execution in ix.unique {
      ReportDecides(e, l, chosen, ix.unique[execution], w, r);
    } else if lifecycle in ix.unique {
      EndDecides(e, l, chosen, ix.unique[lifecycle], r);
    }
  }

  lemma LinkMeaning(e: Event, chosen: Option<Candidate>, ix: Indexes, w: World, r: Record)
    requires Linked(e, r.selection, chosen, ix, w).Ok?
    requires Picked(r, chosen)
    ensures var link := Linked(e, r.selection, chosen, ix, w).value;
      Ends(if link.linked then Some("") else None, link.outcome, e, ix, r, w)
  {
    var lineages := LineagesAt(ix, (e.run, e.episode, r.selection.id));
    if lineages != [] {
      var l := LineageIn(lineages[0]).value;
      assert LineageOf(lineages[0], l, r);
      OutcomeMeaning(e, l, chosen, ix, w, r);
    }
  }

  lemma SamplesTellTheEnd(e: Event, ix: Indexes, w: World, seed: string, r: Record)
    requires SampleFrom(e, ix, w, seed).Ok? && Recorded(e, ix, r)
    ensures var s := SampleFrom(e, ix, w, seed).value; Ends(s.command, s.outcome, e, ix, r, w)
  {
    var j, chosen, link := Parts(e, ix, w, seed);
    SameRecord(e, ix, w, j, r);
    var same := JoinMeaning(e, ix, w, j);
    assert same.listed == r.listed;
    ChoiceIsNamed(r, j, chosen);
    LinkMeaning(e, CandidateAt(j, chosen), ix, w, r);
  }

  // ----- everything at once -------------------------------------------------------------

  /** `s` tells what the journal records about the selection event `e`. */
  ghost predicate Tells(s: Sample, e: Event, ix: Indexes, r: Record, w: World, seed: string) {
    && Recorded(e, ix, r) && BelongTogether(e, r, w)
    && Described(s, e, r, w, seed) && Summarized(s.features, r.observation)
    && Listed(s, r) && Labelled(s, r) && Reported(s, r, w)
    && Ends(s.command, s.outcome, e, ix, r, w) && Digested(s, r, w)
  }

  lemma SamplesTell(e: Event, ix: Indexes, w: World, seed: string) returns (r: Record)
    requires SampleFrom(e, ix, w, seed).Ok?
    ensures Tells(SampleFrom(e, ix, w, seed).value, e, ix, r, w, seed)
  {
    r := SamplesAreRecorded(e, ix, w, seed);
    SamplesAreDescribed(e, ix, w, seed, r);
    SamplesAreSummaries(e, ix, w, seed, r);
    SamplesAreLabelled(e, ix, w, seed, r);
    SamplesTellTheEnd(e, ix, w, seed, r);
    SamplesAreDigested(e, ix, w, seed, r);
  }

  // ----- which selections become samples ------------------------------------------------

  /** A selected candidate is listed; an abstention names none and keeps a reason. */
  ghost predicate Named(r: Record, w: World) {
    && (r.selection.selected ==> r.selection.candidate.Some?)
    && (r.selection.candidate.Some? ==>
          r.selection.selected && exists k :: 0 <= k < |r.listed| && IdAt(r.listed, k) == r.selection.candidate)
    && (!r.selection.selected ==>
          r.selection.reason.Some? && (r.selection.reason.value == "" ==> !w.structured("")))
  }

  /** The journal has at most one lineage of the selection, and it and the end of its command
      agree with the selection. */
  ghost predicate Linkable(e: Event, ix: Indexes, r: Record) {
    var k := (e.run, e.episode, r.selection.id);
    k in ix.lineages && ix.lineages[k] != [] ==>
      && |ix.lineages[k]| == 1
      && exists l: Lineage :: LineageOf(ix.lineages[k][0], l, r) && Closes(e, ix, l, r)
  }

  ghost predicate Closes(e: Event, ix: Indexes, l: Lineage, r: Record) {
    var execution := ExecutionKey(e.run, e.episode, l.command);
    var lifecycle := LifecycleKey(e.run, e.episode, l.command);
    if execution in ix.unique then exists report: Report :: ReportOf(ix.unique[execution], report, e, l, r)
    else lifecycle in ix.unique ==> EndOf(ix.unique[lifecycle], e, l, r)
  }

  lemma EndsIsLinkable(command: Option<string>, outcome: Option<Outcome>, e: Event, ix: Indexes, r: Record, w: World)
    requires Ends(command, outcome, e, ix, r, w)
    ensures Linkable(e, ix, r)
  {
    var k := (e.run, e.episode, r.selection.id);
    if k in ix.lineages && ix.lineages[k] != [] {
      var l: Lineage :| LineageOf(ix.lineages[k][0], l, r) && EndsWith(outcome, e, ix, l, r, w);
      assert Closes(e, ix, l, r);
    }
  }

  lemma JoinSucceeds(e: Event, ix: Indexes, w: World, r: Record) returns (j: Joined)
    requires Recorded(e, ix, r) && BelongTogether(e, r, w) && Named(r, w)
    ensures Join(e, ix, w) == Ok(j) && j.selection == r.selection && j.intent == r.intent
    ensures j.observation == r.observation && Parsed(r.listed) == Some(j.candidates)
  {
    assert forall c :: c in r.listed ==> c.parsed.Some?;
    var candidates := Parsed(r.listed).value;
    j := Joined(r.selection, r.observation, r.intent, candidates);
    assert CandidateFault(r.selection, w.runtime(r.observation), candidates) == None by {
      ListIsFaultless(r, w, candidates);
    }
  }

  lemma ListIsFaultless(r: Record, w: World, candidates: seq<Candidate>)
    requires Parsed(r.listed) == Some(candidates) && Named(r, w)
    requires forall k :: 0 <= k < |r.listed| ==>
      Belongs(r.listed[k].parsed, r.selection.intent, w.runtime(r.observation))
    requires forall i, k :: 0 <= i < k < |r.listed| ==> IdAt(r.listed, i) != IdAt(r.listed, k)
    ensures CandidateFault(r.selection, w.runtime(r.observation), candidates) == None
  {
    forall c | c in candidates ensures c.intent == r.selection.intent && c.stamp == w.runtime(r.observation) {
      var k :| 0 <= k < |candidates| && candidates[k] == c;
      assert Belongs(r.listed[k].parsed, r.selection.intent, w.runtime(r.observation));
    }
    forall i, k | 0 <= i < k < |candidates| ensures candidates[i].id != candidates[k].id {
      assert IdAt(r.listed, i) != IdAt(r.listed, k);
    }
    if r.selection.candidate.Some? {
      var k :| 0 <= k < |r.listed| && IdAt(r.listed, k) == r.selection.candidate;
      assert candidates[k] in candidates;
    }
  }

  lemma LinkSucceeds(e: Event, ix: Indexes, w: World, r: Record, chosen: Option<Candidate>)
    requires Linkable(e, ix, r) && Picked(r, chosen)
    requires chosen.Some? ==> exists k :: 0 <= k < |r.listed| && IdAt(r.listed, k) == r.selection.candidate
    ensures Linked(e, r.selection, chosen, ix, w).Ok?
  {
    var lineages := LineagesAt(ix, (e.run, e.episode, r.selection.id));
    if lineages != [] {
      var l: Lineage :| LineageOf(lineages[0], l, r) && Closes(e, ix, l, r);
      var execution := ExecutionKey(e.run, e.episode, l.command);
      var lifecycle := LifecycleKey(e.run, e.episode, l.command);
      if execution in ix.unique {
        var report: Report :| ReportOf(ix.unique[execution], report, e, l, r);
        assert Executed(e, l, chosen, ix.unique[execution], w).Ok?;
      } else if lifecycle in ix.unique {
        assert Ended(e, l, chosen, ix.unique[lifecycle]).Ok?;
      }
    }
  }

  /** The digest that names an intent described by the features `c`. */
  ghost function IntentDigest(e: Event, r: Record, c: Compact, w: World): string {
    w.intent(IntentPayload(
      w.observation(ObservationPayload(e.run, e.episode, e.step, r.observation.gameLoop, w.semantic(c))),
      r.intent.role, r.intent.source, r.intent.version, r.intent.names, r.intent.priority, r.intent.ttl,
      r.intent.targetKind))
  }

  ghost predicate DigestsDiffer(listed: seq<RawCandidate>, intent: string, w: World) {
    forall i, k :: 0 <= i < k < |listed| && listed[i].parsed.Some? && listed[k].parsed.Some? ==>
      DigestAt(listed, i, intent, w) != DigestAt(listed, k, intent, w)
  }

  ghost function DigestAt(listed: seq<RawCandidate>, k: nat, intent: string, w: World): string
    requires k < |listed|
  {
    if listed[k].parsed.None? then ""
    else w.candidate(CandidatePayload(intent, k, listed[k].parsed.value.action, listed[k].parsed.value.features))
  }

  /** The listed candidates are of actions the intent names, each name once, with ordinals and
      digests of their own. */
  ghost predicate Keepable(e: Event, r: Record, w: World) {
    && (forall i, k :: 0 <= i < k < |r.intent.names| ==> r.intent.names[i] != r.intent.names[k])
    && (forall k :: 0 <= k < |r.listed| && r.listed[k].parsed.Some? ==>
          r.listed[k].parsed.value.action in r.intent.names)
    && (forall i, k :: 0 <= i < k < |r.listed| && r.listed[i].parsed.Some? && r.listed[k].parsed.Some? ==>
          r.listed[i].parsed.value.features.ordinal != r.listed[k].parsed.value.features.ordinal)
    && (forall c :: Summarized(c, r.observation) ==> DigestsDiffer(r.listed, IntentDigest(e, r, c, w), w))
  }

  lemma SummaryIsUnique(c: Compact, d: Compact, o: Observation)
    requires Summarized(c, o) && Summarized(d, o)
    ensures c == d
  {
    assert c.own == d.own && c.structures == d.structures && c.enemies == d.enemies;
    assert c.upgrades == d.upgrades && c.actions == d.actions;
  }

  lemma ValidIsKeepable(s: Sample, e: Event, ix: Indexes, r: Record, w: World, seed: string)
    requires ValidSample(s) && Tells(s, e, ix, r, w, seed)
    ensures Keepable(e, r, w) && Named(r, w)
  {
    forall c | Summarized(c, r.observation) ensures DigestsDiffer(r.listed, IntentDigest(e, r, c, w), w) {
      SummaryIsUnique(c, s.features, r.observation);
      assert s.intent == IntentDigest(e, r, c, w);
      DigestsAreIds(s, r, w);
    }
    forall k | 0 <= k < |r.listed| ensures r.listed[k].parsed.value.action in r.intent.names {
      assert s.candidates[k] in s.candidates;
    }
    forall i, k | 0 <= i < k < |r.listed|
      ensures r.listed[i].parsed.value.features.ordinal != r.listed[k].parsed.value.features.ordinal
    {
      assert s.candidates[i].features.ordinal != s.candidates[k].features.ordinal;
    }
  }

  lemma DigestsAreIds(s: Sample, r: Record, w: World)
    requires Listed(s, r)
    requires forall k :: 0 <= k < |s.candidates| ==>
      s.candidates[k].id == w.candidate(CandidatePayload(s.intent, k, s.candidates[k].action, s.candidates[k].features))
    ensures DigestsDiffer(r.listed, s.intent, w) <==>
            forall i, k :: 0 <= i < k < |s.candidates| ==> s.candidates[i].id != s.candidates[k].id
  {
    if DigestsDiffer(r.listed, s.intent, w) {
      forall i, k | 0 <= i < k < |s.candidates| ensures s.candidates[i].id != s.candidates[k].id {
        assert r.listed[i].parsed.Some? && r.listed[k].parsed.Some?;
      }
    } else {
      var i, k :| 0 <= i < k < |r.listed| && DigestAt(r.listed, i, s.intent, w) == DigestAt(r.listed, k, s.intent, w);
      assert s.candidates[i].id == s.candidates[k].id;
    }
  }

  lemma KeepableIsValid(s: Sample, e: Event, r: Record, w: World)
    requires Keepable(e, r, w) && Named(r, w) && Listed(s, r) && Labelled(s, r) && Reported(s, r, w)
    requires s.names == r.intent.names && Summarized(s.features, r.observation)
    requires s.intent == IntentDigest(e, r, s.features, w)
    requires forall k :: 0 <= k < |s.candidates| ==>
      s.candidates[k].id == w.candidate(CandidatePayload(s.intent, k, s.candidates[k].action, s.candidates[k].features))
    ensures ValidSample(s)
  {
    DigestsAreIds(s, r, w);
    forall c | c in s.candidates ensures c.action in s.names {
      var k :| 0 <= k < |s.candidates| && s.candidates[k] == c;
      assert r.listed[k].parsed.Some?;
    }
    forall i, k | 0 <= i < k < |s.candidates|
      ensures s.candidates[i].features.ordinal != s.candidates[k].features.ordinal
    {
      assert r.listed[i].parsed.Some? && r.listed[k].parsed.Some?;
    }
    ChoiceIsKept(s, r, w);
  }

  lemma ChoiceIsKept(s: Sample, r: Record, w: World)
    requires Named(r, w) && Listed(s, r) && Labelled(s, r)
    ensures s.choice.candidate.Some? ==> SelectedAction(s).Some?
  {
    if s.choice.candidate.Some? {
      var k :| 0 <= k < |r.listed| && IdAt(r.listed, k) == r.selection.candidate;
      assert s.candidates[k] in s.candidates;
      assert ActionOf(s.candidates, s.candidates[k].id).Some?;
    }
  }

  lemma ProjectionIsKept(e: Event, j: Joined, chosen: Option<nat>, link: Link, w: World, seed: string, r: Record)
    requires j.selection == r.selection && j.intent == r.intent && j.observation == r.observation
    requires chosen.Some? ==> chosen.value < |j.candidates|
    ensures var s := Project(e, j, chosen, link, w, seed);
      && s.names == r.intent.names && s.features == Compacted(r.observation)
      && s.intent == IntentDigest(e, r, s.features, w) && Reported(s, r, w)
      && forall k :: 0 <= k < |s.candidates| ==>
          s.candidates[k].id
          == w.candidate(CandidatePayload(s.intent, k, s.candidates[k].action, s.candidates[k].features))
  {
  }

  /** A selection becomes a sample exactly when the journal records its intent, candidates and
      observation and they belong together, it names what is listed, nothing contradicts how
      its command ended, and the candidates can be told apart. */
  lemma SampledMeaning(e: Event, ix: Indexes, w: World, seed: string)
    ensures SampleFrom(e, ix, w, seed).Ok? <==>
            exists r: Record :: Recorded(e, ix, r) && BelongTogether(e, r, w) && Named(r, w) && Linkable(e, ix, r)
                             && Keepable(e, r, w)
  {
    if SampleFrom(e, ix, w, seed).Ok? {
      var s := SampleFrom(e, ix, w, seed).value;
      var r := SamplesTell(e, ix, w, seed);
      var _, _, _ := Parts(e, ix, w, seed);
      EndsIsLinkable(s.command, s.outcome, e, ix, r, w);
      ValidIsKeepable(s, e, ix, r, w, seed);
    }
    if r: Record :| Recorded(e, ix, r) && BelongTogether(e, r, w) && Named(r, w) && Linkable(e, ix, r)
                    && Keepable(e, r, w)
    {
      SampleSucceeds(e, ix, w, seed, r);
    }
  }

  lemma PickSucceeds(e: Event, ix: Indexes, w: World, r: Record, j: Joined) returns (chosen: Option<nat>)
    requires BelongTogether(e, r, w) && Named(r, w) && Linkable(e, ix, r)
    requires j.selection == r.selection && Parsed(r.listed) == Some(j.candidates)
    ensures Chosen(j) == Ok(chosen) && (chosen.Some? ==> chosen.value < |j.candidates|)
    ensures chosen.None? <==> r.selection.candidate.None?
    ensures chosen.Some? ==> IdAt(r.listed, chosen.value) == r.selection.candidate
    ensures forall k :: 0 <= k < |r.listed| && IdAt(r.listed, k) == r.selection.candidate ==> chosen == Some(k)
    ensures Linked(e, j.selection, CandidateAt(j, chosen), ix, w).Ok?
  {
    if r.selection.candidate.Some? {
      var k :| 0 <= k < |r.listed| && IdAt(r.listed, k) == r.selection.candidate;
      assert j.candidates[k] in j.candidates;
    }
    chosen := Chosen(j).value;
    ChoiceIsNamed(r, j, chosen);
    LinkSucceeds(e, ix, w, r, CandidateAt(j, chosen));
  }

  lemma SampleSucceeds(e: Event, ix: Indexes, w: World, seed: string, r: Record)
    requires Recorded(e, ix, r) && BelongTogether(e, r, w) && Named(r, w) && Linkable(e, ix, r) && Keepable(e, r, w)
    ensures SampleFrom(e, ix, w, seed).Ok?
  {
    var j := JoinSucceeds(e, ix, w, r);
    var chosen := PickSucceeds(e, ix, w, r, j);
    var link := Linked(e, j.selection, CandidateAt(j, chosen), ix, w).value;
    ProjectionIsLabelled(e, j, chosen, link, w, seed, r);
    ProjectionIsKept(e, j, chosen, link, w, seed, r);
    CompactedMeaning(r.observation);
    KeepableIsValid(Project(e, j, chosen, link, w, seed), e, r, w);
  }

  // ----- which samples are in a corpus --------------------------------------------------

  /** No earlier selection carries the id of the i-th. */
  ghost predicate FirstOfItsId(selections: seq<Event>, i: nat)
    requires i < |selections|
  {
    SelectionIdOf(selections[i]).Some? ==>
      forall k :: 0 <= k < i ==> SelectionIdOf(selections[k]) != SelectionIdOf(selections[i])
  }

  /** The i-th selection gives a sample, and is the first with its id. */
  ghost predicate Offers(selections: seq<Event>, sampler: Sampler, i: nat)
    requires i < |selections|
  {
    FirstOfItsId(selections, i) && sampler(selections[i]).Ok?
  }

  /** And no earlier one offers a sample with the same label id. */
  ghost predicate Contributes(selections: seq<Event>, sampler: Sampler, i: nat)
    requires i < |selections|
  {
    && Offers(selections, sampler, i)
    && forall k :: 0 <= k < i && Offers(selections, sampler, k) ==>
        sampler(selections[k]).value.choice.id != sampler(selections[i]).value.choice.id
  }

  ghost predicate Seen(selections: seq<Event>, id: string) {
    exists i :: 0 <= i < |selections| && SelectionIdOf(selections[i]) == Some(id)
  }

  ghost predicate Offered(selections: seq<Event>, sampler: Sampler, id: string) {
    exists i :: 0 <= i < |selections| && Offers(selections, sampler, i)
             && sampler(selections[i]).value.choice.id == id
  }

  ghost predicate Contributed(selections: seq<Event>, sampler: Sampler, s: Sample) {
    exists i :: 0 <= i < |selections| && Contributes(selections, sampler, i) && sampler(selections[i]) == Ok(s)
  }

  /** What the loop has seen and kept after the selections. */
  ghost predicate Tracks(b: Built, selections: seq<Event>, sampler: Sampler) {
    && (forall id :: id in b.seen <==> Seen(selections, id))
    && (forall id :: id in b.kept <==> Offered(selections, sampler, id))
    && (forall s :: s in b.samples <==> Contributed(selections, sampler, s))
  }

  lemma SeenOneMore(selections: seq<Event>, e: Event, id: string)
    ensures Seen(selections + [e], id) <==> Seen(selections, id) || SelectionIdOf(e) == Some(id)
  {
    var all := selections + [e];
    if i :| 0 <= i < |selections| && SelectionIdOf(selections[i]) == Some(id) {
      assert SelectionIdOf(all[i]) == Some(id);
    }
    if i :| 0 <= i < |all| && SelectionIdOf(all[i]) == Some(id) {
      assert i < |selections| ==> SelectionIdOf(selections[i]) == Some(id);
    }
    assert SelectionIdOf(all[|selections|]) == SelectionIdOf(e);
  }

  lemma OffersBefore(selections: seq<Event>, e: Event, sampler: Sampler, i: nat)
    requires i < |selections|
    ensures Offers(selections + [e], sampler, i) == Offers(selections, sampler, i)
  {
    var all := selections + [e];
    assert forall k :: 0 <= k < |selections| ==> SelectionIdOf(all[k]) == SelectionIdOf(selections[k]);
    assert all[i] == selections[i];
    if FirstOfItsId(all, i) {
      assert forall k :: 0 <= k < i ==> SelectionIdOf(all[k]) == SelectionIdOf(selections[k]);
    }
  }

  lemma ContributesBefore(selections: seq<Event>, e: Event, sampler: Sampler, i: nat)
    requires i < |selections|
    ensures Contributes(selections + [e], sampler, i) == Contributes(selections, sampler, i)
  {
    forall k | 0 <= k <= i ensures Offers(selections + [e], sampler, k) == Offers(selections, sampler, k) {
      OffersBefore(selections, e, sampler, k);
    }
  }

  /** Whether one more selection is the first with its id. */
  lemma FirstMeaning(selections: seq<Event>, e: Event)
    ensures FirstOfItsId(selections + [e], |selections|) <==>
            SelectionIdOf(e).None? || !Seen(selections, SelectionIdOf(e).value)
  {
    var all := selections + [e];
    assert forall k :: 0 <= k < |selections| ==> SelectionIdOf(all[k]) == SelectionIdOf(selections[k]);
    assert all[|selections|] == e;
  }

  lemma OfferedOneMore(selections: seq<Event>, e: Event, sampler: Sampler, id: string)
    ensures Offered(selections + [e], sampler, id) <==>
      || Offered(selections, sampler, id)
      || (Offers(selections + [e], sampler, |selections|) && sampler(e).value.choice.id == id)
  {
    var all := selections + [e];
    forall k | 0 <= k < |selections| ensures Offers(all, sampler, k) == Offers(selections, sampler, k) {
      OffersBefore(selections, e, sampler, k);
    }
    if k :| 0 <= k < |selections| && Offers(selections, sampler, k) && sampler(selections[k]).value.choice.id == id {
      assert Offers(all, sampler, k) && all[k] == selections[k];
    }
    if k :| 0 <= k < |all| && Offers(all, sampler, k) && sampler(all[k]).value.choice.id == id {
      assert k < |selections| ==> Offers(selections, sampler, k) && all[k] == selections[k];
    }
  }

  lemma ContributesMeaning(selections: seq<Event>, e: Event, sampler: Sampler)
    ensures Contributes(selections + [e], sampler, |selections|) <==>
      Offers(selections + [e], sampler, |selections|) && !Offered(selections, sampler, sampler(e).value.choice.id)
  {
    var all := selections + [e];
    forall k | 0 <= k < |selections| ensures Offers(all, sampler, k) == Offers(selections, sampler, k) {
      OffersBefore(selections, e, sampler, k);
    }
    assert forall k :: 0 <= k < |selections| ==> all[k] == selections[k];
    assert all[|selections|] == e;
  }

  lemma ContributedOneMore(selections: seq<Event>, e: Event, sampler: Sampler, s: Sample)
    ensures Contributed(selections + [e], sampler, s) <==>
      || Contributed(selections, sampler, s)
      || (Contributes(selections + [e], sampler, |selections|) && sampler(e) == Ok(s))
  {
    var all := selections + [e];
    forall k | 0 <= k < |selections| ensures Contributes(all, sampler, k) == Contributes(selections, sampler, k) {
      ContributesBefore(selections, e, sampler, k);
    }
    if k :| 0 <= k < |selections| && Contributes(selections, sampler, k) && sampler(selections[k]) == Ok(s) {
      assert Contributes(all, sampler, k) && all[k] == selections[k];
    }
    if k :| 0 <= k < |all| && Contributes(all, sampler, k) && sampler(all[k]) == Ok(s) {
      assert k < |selections| ==> Contributes(selections, sampler, k) && all[k] == selections[k];
    }
  }

  lemma TracksOneMore(b: Built, selections: seq<Event>, e: Event, sampler: Sampler)
    requires Tracks(b, selections, sampler)
    ensures Tracks(Take(e, sampler(e), b), selections + [e], sampler)
  {
    FirstMeaning(selections, e);
    ContributesMeaning(selections, e, sampler);
    forall id
      ensures Seen(selections + [e], id) <==> Seen(selections, id) || SelectionIdOf(e) == Some(id)
      ensures Offered(selections + [e], sampler, id) <==>
        || Offered(selections, sampler, id)
        || (Offers(selections + [e], sampler, |selections|) && sampler(e).value.choice.id == id)
    {
      SeenOneMore(selections, e, id);
      OfferedOneMore(selections, e, sampler, id);
    }
    forall s
      ensures Contributed(selections + [e], sampler, s) <==>
        || Contributed(selections, sampler, s)
        || (Contributes(selections + [e], sampler, |selections|) && sampler(e) == Ok(s))
    {
      ContributedOneMore(selections, e, sampler, s);
    }
  }

  /** The samples built are those of the selections that are the first with their id and the
      first whose sample carries its label id. */
  lemma {:induction false} BuiltMeaning(selections: seq<Event>, sampler: Sampler)
    ensures Tracks(BuildUpTo(selections, sampler), selections, sampler)
  {
    if selections != [] {
      var n := |selections| - 1;
      BuiltMeaning(selections[..n], sampler);
      TracksOneMore(BuildUpTo(selections[..n], sampler), selections[..n], selections[n], sampler);
      assert selections == selections[..n] + [selections[n]];
    }
  }

  /** No sample with the features of `s` is of a smaller episode than `o`, by run and then by
      episode. */
  ghost predicate Owns(o: Sample, samples: seq<Sample>, s: Sample) {
    && o in samples && o.semantic == s.semantic
    && forall t :: t in samples && t.semantic == s.semantic ==>
        !(StringLess(t.run, o.run) || (t.run == o.run && StringLess(t.episode, o.episode)))
  }

  lemma {:induction false} OwnerIsSmallest(group: seq<Sample>)
    requires group != []
    ensures forall t :: t in group ==> !EpisodeLess(t, Owner(group))
  {
    var n := |group| - 1;
    var last := group[n];
    assert group == group[..n] + [last];
    StringTrichotomy(last.run, last.run);
    StringTrichotomy(last.episode, last.episode);
    if n > 0 {
      OwnerIsSmallest(group[..n]);
      var rest := Owner(group[..n]);
      if EpisodeLess(last, rest) {
        forall t | t in group[..n] ensures !EpisodeLess(t, last) {
          EpisodesTransitive(t, last, rest);
        }
      }
    }
  }

  lemma EpisodesTransitive(a: Sample, b: Sample, c: Sample)
    ensures EpisodeLess(a, b) && EpisodeLess(b, c) ==> EpisodeLess(a, c)
  {
    if StringLess(a.run, b.run) && StringLess(b.run, c.run) {
      StringTransitive(a.run, b.run, c.run);
    }
    if StringLess(a.episode, b.episode) && StringLess(b.episode, c.episode) {
      StringTransitive(a.episode, b.episode, c.episode);
    }
  }

  lemma OwnersAgree(samples: seq<Sample>, s: Sample, o: Sample, p: Sample, w: World, seed: string)
    requires Owns(o, samples, s) && Owns(p, samples, s) && WellMade(w, seed, o) && WellMade(w, seed, p)
    ensures o.split == p.split
  {
    StringTrichotomy(o.run, p.run);
    StringTrichotomy(o.episode, p.episode);
  }

  /** A sample stays exactly when it is in the split of the smallest episode that shares its
      features. */
  lemma StaysMeaning(samples: seq<Sample>, s: Sample, w: World, seed: string)
    requires All(samples, Made(w, seed)) && s in samples
    ensures s in Staying(samples) <==> exists o :: Owns(o, samples, s) && o.split == s.split
  {
    var group := Filter(samples, HasSemantic(s.semantic));
    FilterMembers(samples, HasSemantic(s.semantic));
    FilterMembers(samples, StaysAmong(samples));
    assert group != [];
    var owner := Owner(group);
    OwnerIsSmallest(group);
    forall t | t in samples && t.semantic == s.semantic ensures !EpisodeLess(t, owner) {
      assert HasSemantic(s.semantic)(t);
    }
    assert Owns(owner, samples, s) by {
      assert HasSemantic(s.semantic)(owner);
    }
    if o :| Owns(o, samples, s) && o.split == s.split {
      assert Made(w, seed)(o) && Made(w, seed)(owner);
      OwnersAgree(samples, s, o, owner, w, seed);
    }
  }

  lemma WrittenMembers(w: World, codec: Codec, seed: string, sources: seq<Source>, ordered: seq<Sample>,
                       selections: nat, reasons: multiset<string>)
    requires Faithful(codec) && Fit(w, seed, ordered)
    ensures multiset(AllDecoded(Written(w, codec, seed, sources, ordered, selections, reasons), codec))
         == multiset(ordered)
  {
    WrittenSplitIsSound(w, codec, seed, sources, ordered, selections, reasons, Train);
    WrittenSplitIsSound(w, codec, seed, sources, ordered, selections, reasons, Validation);
    WrittenSplitIsSound(w, codec, seed, sources, ordered, selections, reasons, Test);
    SplitsPartition(ordered);
  }

  lemma CorpusMembers(journals: seq<seq<Event>>, w: World, codec: Codec, digest: seq<Entry> -> string, seed: string)
    returns (ix: Indexes, b: Built)
    requires Faithful(codec) && CorpusOf(journals, w, codec, digest, seed).Ok?
    ensures IndexOf(Concat(journals)) == Ok(ix)
    ensures b == BuildUpTo(Filter(Concat(journals), IsSelection()), SamplerOf(ix, w, seed))
    ensures forall s :: s in AllDecoded(CorpusOf(journals, w, codec, digest, seed).value, codec) <==>
                        s in Staying(b.samples)
  {
    ix := IndexOf(Concat(journals)).value;
    var selections := Filter(Concat(journals), IsSelection());
    b := BuildUpTo(selections, SamplerOf(ix, w, seed));
    OrderedIsFit(selections, ix, w, seed);
    var sources := SourcesOf(w, digest, journals);
    var c := Written(w, codec, seed, sources, Ordered(b), |selections|, Reasons(b));
    WrittenMembers(w, codec, seed, sources, Ordered(b), |selections|, Reasons(b));
    SameMembers(AllDecoded(c, codec), Staying(b.samples));
  }

  ghost predicate ToldBy(s: Sample, events: seq<Event>, ix: Indexes, w: World, seed: string) {
    exists e: Event, r: Record :: e in events && e.body.SelectionBody? && Tells(s, e, ix, r, w, seed)
  }

  lemma Contributor(events: seq<Event>, sampler: Sampler, s: Sample) returns (e: Event)
    requires Contributed(Filter(events, IsSelection()), sampler, s)
    ensures e in events && e.body.SelectionBody? && sampler(e) == Ok(s)
  {
    var selections := Filter(events, IsSelection());
    var i :| 0 <= i < |selections| && Contributes(selections, sampler, i) && sampler(selections[i]) == Ok(s);
    e := selections[i];
    FilterMembers(events, IsSelection());
    assert e in events && IsSelection()(e);
  }

  lemma SamplerTells(e: Event, ix: Indexes, w: World, seed: string, s: Sample) returns (r: Record)
    requires SamplerOf(ix, w, seed)(e) == Ok(s)
    ensures Tells(s, e, ix, r, w, seed)
  {
    r := SamplesTell(e, ix, w, seed);
  }

  lemma ContributorTells(events: seq<Event>, ix: Indexes, w: World, seed: string, s: Sample)
    requires Contributed(Filter(events, IsSelection()), SamplerOf(ix, w, seed), s)
    ensures ToldBy(s, events, ix, w, seed)
  {
    var e := Contributor(events, SamplerOf(ix, w, seed), s);
    var r := SamplerTells(e, ix, w, seed, s);
  }

  lemma AllAreMade(selections: seq<Event>, ix: Indexes, w: World, seed: string)
    ensures All(BuildUpTo(selections, SamplerOf(ix, w, seed)).samples, Made(w, seed))
  {
    forall e | SamplerOf(ix, w, seed)(e).Ok? ensures Made(w, seed)(SamplerOf(ix, w, seed)(e).value) {
      SamplesAreWellMade(e, ix, w, seed);
    }
    BuildConserves(selections, SamplerOf(ix, w, seed), Made(w, seed));
  }

  lemma BuiltMembers(events: seq<Event>, ix: Indexes, w: World, seed: string, s: Sample) returns (samples: seq<Sample>)
    ensures samples == BuildUpTo(Filter(events, IsSelection()), SamplerOf(ix, w, seed)).samples
    ensures forall t :: t in samples <==> Contributed(Filter(events, IsSelection()), SamplerOf(ix, w, seed), t)
    ensures s in Staying(samples) <==> s in samples && exists o :: Owns(o, samples, s) && o.split == s.split
    ensures s in samples ==> ToldBy(s, events, ix, w, seed)
  {
    var selections, sampler := Filter(events, IsSelection()), SamplerOf(ix, w, seed);
    samples := BuildUpTo(selections, sampler).samples;
    BuiltMeaning(selections, sampler);
    AllAreMade(selections, ix, w, seed);
    FilterMembers(samples, StaysAmong(samples));
    if s in samples {
      StaysMeaning(samples, s, w, seed);
      ContributorTells(events, ix, w, seed, s);
    }
  }

  /** What is written to a corpus: a sample is in it exactly when some selection event of the
      journals contributes it and the smallest episode that shares its features is in its
      split; and it then tells what the journals record about that selection. */
  lemma CorpusTellsTheJournals(journals: seq<seq<Event>>, w: World, codec: Codec, digest: seq<Entry> -> string,
                               seed: string, s: Sample)
    returns (ix: Indexes, samples: seq<Sample>)
    requires Faithful(codec) && CorpusOf(journals, w, codec, digest, seed).Ok?
    ensures IndexOf(Concat(journals)) == Ok(ix)
    ensures forall t :: t in samples <==>
                        Contributed(Filter(Concat(journals), IsSelection()), SamplerOf(ix, w, seed), t)
    ensures s in AllDecoded(CorpusOf(journals, w, codec, digest, seed).value, codec) <==>
            s in samples && exists o :: Owns(o, samples, s) && o.split == s.split
    ensures s in AllDecoded(CorpusOf(journals, w, codec, digest, seed).value, codec) ==>
      ToldBy(s, Concat(journals), ix, w, seed)
  {
    var b;
    ix, b := CorpusMembers(journals, w, codec, digest, seed);
    samples := BuiltMembers(Concat(journals), ix, w, seed, s);
  }

  // ----- why a selection is refused -----------------------------------------------------

  /** What the exclusion counters call a refusal. */
  function Code(e: Event, ix: Indexes, w: World, seed: string): Option<string> {
    match SampleFrom(e, ix, w, seed)
    case Ok(_) => None
    case Err(refusal) => Some(CodeOf(refusal))
  }

  lemma JoinRefusalIsNamed(e: Event, ix: Indexes, w: World, seed: string, refusal: Refusal)
    requires Join(e, ix, w) == Err(refusal)
    ensures Code(e, ix, w, seed) == Some(CodeOf(refusal))
  {
  }

  /** A selection whose events are not all there. */
  lemma MissingIsNamed(e: Event, ix: Indexes, w: World, seed: string, s: Selection)
    requires e.body.SelectionBody? && e.body.selection == Some(s)
    ensures var intent, candidates := IntentKey(e.run, e.episode, s.intent) in ix.unique,
        CandidatesKey(e.run, e.episode, s.intent) in ix.unique;
      var observation := ObservationKey(e.run, e.episode, e.step) in ix.unique;
      && (!intent ==> Code(e, ix, w, seed) == Some("missing_intent"))
      && (intent && !candidates ==> Code(e, ix, w, seed) == Some("missing_candidate_set"))
      && (intent && candidates && !observation ==> Code(e, ix, w, seed) == Some("missing_observation"))
  {
    if IntentKey(e.run, e.episode, s.intent) !in ix.unique {
      JoinRefusalIsNamed(e, ix, w, seed, MissingIntent);
    } else if CandidatesKey(e.run, e.episode, s.intent) !in ix.unique {
      JoinRefusalIsNamed(e, ix, w, seed, MissingCandidateSet);
    } else if ObservationKey(e.run, e.episode, e.step) !in ix.unique {
      JoinRefusalIsNamed(e, ix, w, seed, MissingObservation);
    }
  }

  /** Run, episode, step, intent and game loop are the same throughout. */
  ghost predicate OnePipeline(e: Event, r: Record) {
    && r.observation.run == e.run && r.observation.episode == e.episode && r.observation.step == e.step
    && r.intent.run == e.run && r.intent.episode == e.episode && r.intent.step == e.step
    && r.intent.id == r.selection.intent && r.intent.created == r.observation.gameLoop
  }

  /** The code for the first thing amiss with events that do not belong together. */
  ghost function FirstMismatch(e: Event, r: Record): string {
    if r.observation.protocol != "1.1" then "unsupported_protocol"
    else if !OnePipeline(e, r) then "pipeline_identity_mismatch"
    else if Unreadable(r.listed) then "invalid_validationerror"
    else if Repeats(r.listed) then "duplicate_candidate_id"
    else if NamesAnother(r) then "candidate_intent_mismatch"
    else "observation_fingerprint_mismatch"
  }

  lemma MismatchIsNamed(e: Event, ix: Indexes, w: World, seed: string, r: Record)
    requires Recorded(e, ix, r) && !BelongTogether(e, r, w)
    ensures Code(e, ix, w, seed) == Some(FirstMismatch(e, r))
  {
    assert Join(e, ix, w)
        == JoinPayloads(e, r.selection, Some(r.observation), Some(r.intent), Some(r.listed), true, w);
    PayloadMismatch(e, r, w);
    JoinRefusalIsNamed(e, ix, w, seed, Join(e, ix, w).error);
  }

  lemma PayloadMismatch(e: Event, r: Record, w: World)
    requires !BelongTogether(e, r, w)
    ensures var j := JoinPayloads(e, r.selection, Some(r.observation), Some(r.intent), Some(r.listed), true, w);
      j.Err? && CodeOf(j.error) == FirstMismatch(e, r)
  {
    assert SamePipeline(e, r.selection, r.observation, r.intent) == OnePipeline(e, r);
    var candidates := Parsed(r.listed);
    if r.observation.protocol != "1.1" || !OnePipeline(e, r) {
    } else if candidates.None? {
      var c :| c in r.listed && c.parsed.None?;
      assert Unreadable(r.listed);
    } else {
      SomethingIsAmiss(e, r, w, candidates.value);
      ListMismatch(r, w, candidates.value);
    }
  }

  lemma ListMismatch(r: Record, w: World, candidates: seq<Candidate>)
    requires Parsed(r.listed) == Some(candidates)
    requires Repeats(r.listed) || NamesAnother(r) || StampedOtherwise(r, w)
    ensures var fault := CandidateFault(r.selection, w.runtime(r.observation), candidates);
      && fault.Some?
      && CodeOf(fault.value) == (if Repeats(r.listed) then "duplicate_candidate_id"
                                 else if NamesAnother(r) then "candidate_intent_mismatch"
                                 else "observation_fingerprint_mismatch")
  {
    ListFault(r, w, candidates);
  }

  ghost predicate Repeats(listed: seq<RawCandidate>) {
    exists i, k :: 0 <= i < k < |listed| && IdAt(listed, i) == IdAt(listed, k)
  }

  ghost predicate NamesAnother(r: Record) {
    exists k :: 0 <= k < |r.listed| && r.listed[k].parsed.Some?
             && r.listed[k].parsed.value.intent != r.selection.intent
  }

  ghost predicate StampedOtherwise(r: Record, w: World) {
    exists k :: 0 <= k < |r.listed| && r.listed[k].parsed.Some?
             && r.listed[k].parsed.value.stamp != w.runtime(r.observation)
  }

  lemma SomethingIsAmiss(e: Event, r: Record, w: World, candidates: seq<Candidate>)
    requires !BelongTogether(e, r, w) && r.observation.protocol == "1.1" && OnePipeline(e, r)
    requires Parsed(r.listed) == Some(candidates)
    ensures Repeats(r.listed) || NamesAnother(r) || StampedOtherwise(r, w)
    ensures !Unreadable(r.listed)
  {
    if !Repeats(r.listed) {
      var k :| 0 <= k < |r.listed| && !Belongs(r.listed[k].parsed, r.intent.id, w.runtime(r.observation));
      assert r.listed[k].parsed.Some?;
    }
  }

  ghost predicate Unreadable(listed: seq<RawCandidate>) {
    exists k :: 0 <= k < |listed| && listed[k].parsed == None
  }

  lemma ListFault(r: Record, w: World, candidates: seq<Candidate>)
    requires Parsed(r.listed) == Some(candidates)
    ensures UniqueCandidates(candidates) <==> !Repeats(r.listed)
    ensures (exists c :: c in candidates && c.intent != r.selection.intent) <==> NamesAnother(r)
    ensures (exists c :: c in candidates && c.stamp != w.runtime(r.observation)) <==> StampedOtherwise(r, w)
  {
    assert forall k :: 0 <= k < |r.listed| ==> r.listed[k].parsed == Some(candidates[k]) && candidates[k] in candidates;
    ListRepeats(r.listed, candidates);
  }

  lemma ListRepeats(listed: seq<RawCandidate>, candidates: seq<Candidate>)
    requires |candidates| == |listed| && forall k :: 0 <= k < |listed| ==> listed[k].parsed == Some(candidates[k])
    ensures UniqueCandidates(candidates) <==> !Repeats(listed)
  {
    forall i, k | 0 <= i < k < |candidates|
      ensures candidates[i].id == candidates[k].id <==> IdAt(listed, i) == IdAt(listed, k)
    {
    }
  }

  /** A selected candidate that is not listed. */
  lemma OutsideIsNamed(e: Event, ix: Indexes, w: World, seed: string, r: Record)
    requires Recorded(e, ix, r) && BelongTogether(e, r, w) && r.selection.selected
    requires r.selection.candidate.Some? ==>
      forall k :: 0 <= k < |r.listed| ==> IdAt(r.listed, k) != r.selection.candidate
    ensures Code(e, ix, w, seed) == Some("selection_outside_candidate_set")
  {
    assert forall c :: c in r.listed ==> c.parsed.Some?;
    var candidates := Parsed(r.listed).value;
    assert CandidateFault(r.selection, w.runtime(r.observation), candidates) == Some(OutsideCandidateSet) by {
      ListIsOutside(r, w, candidates);
    }
    JoinRefusalIsNamed(e, ix, w, seed, OutsideCandidateSet);
  }

  lemma ListIsOutside(r: Record, w: World, candidates: seq<Candidate>)
    requires Parsed(r.listed) == Some(candidates) && r.selection.selected
    requires forall k :: 0 <= k < |r.listed| ==>
      Belongs(r.listed[k].parsed, r.selection.intent, w.runtime(r.observation))
    requires forall i, k :: 0 <= i < k < |r.listed| ==> IdAt(r.listed, i) != IdAt(r.listed, k)
    requires r.selection.candidate.Some? ==>
      forall k :: 0 <= k < |r.listed| ==> IdAt(r.listed, k) != r.selection.candidate
    ensures CandidateFault(r.selection, w.runtime(r.observation), candidates) == Some(OutsideCandidateSet)
  {
    ListFault(r, w, candidates);
    assert !NamesAnother(r) && !StampedOtherwise(r, w);
    if r.selection.candidate.Some? {
      forall k | 0 <= k < |candidates| ensures candidates[k].id != r.selection.candidate.value {
        assert IdAt(r.listed, k) != r.selection.candidate;
      }
    }
  }

  /** The code for the first thing amiss with the lineage and the end of the command. */
  ghost function FirstBrokenLink(e: Event, ix: Indexes, lineages: seq<Event>, r: Record): string
    requires lineages != []
  {
    if |lineages| > 1 then "multiple_command_lineages"
    else if LineageIn(lineages[0]) == None then "invalid_validationerror"
    else
      var l := LineageIn(lineages[0]).value;
      if l.intent != r.selection.intent || Some(l.candidate) != r.selection.candidate then "command_lineage_mismatch"
      else BrokenEnd(e, ix, l)
  }

  ghost function BrokenEnd(e: Event, ix: Indexes, l: Lineage): string {
    var execution := ExecutionKey(e.run, e.episode, l.command);
    if execution !in ix.unique then "terminal_lifecycle_identity_mismatch"
    else if ix.unique[execution].body.ExecutionBody? && ix.unique[execution].body.report.Some?
    then "execution_identity_mismatch"
    else "invalid_validationerror"
  }

  /** Every event is indexed under its own key. */
  ghost predicate KeyedIndex(ix: Indexes) {
    forall k :: k in ix.unique ==> KeyOf(ix.unique[k]) == Some(k)
  }

  lemma BrokenEndIsNamed(e: Event, ix: Indexes, l: Lineage, w: World, r: Record, chosen: Option<Candidate>)
    requires KeyedIndex(ix) && !Closes(e, ix, l, r) && Picked(r, chosen)
    ensures var end := OutcomeOf(e, l, chosen, ix, w);
      end.Err? && CodeOf(end.error) == BrokenEnd(e, ix, l)
  {
    var execution := ExecutionKey(e.run, e.episode, l.command);
    var lifecycle := LifecycleKey(e.run, e.episode, l.command);
    if execution in ix.unique {
      if Executed(e, l, chosen, ix.unique[execution], w).Ok? {
        ReportDecides(e, l, chosen, ix.unique[execution], w, r);
      }
    } else {
      assert KeyOf(ix.unique[lifecycle]) == Some(lifecycle);
      if Ended(e, l, chosen, ix.unique[lifecycle]).Ok? {
        EndDecides(e, l, chosen, ix.unique[lifecycle], r);
      }
    }
  }

  lemma BrokenLinkIsNamed(e: Event, ix: Indexes, w: World, r: Record, chosen: Option<Candidate>)
    requires KeyedIndex(ix) && !Linkable(e, ix, r) && Picked(r, chosen)
    ensures LineagesAt(ix, (e.run, e.episode, r.selection.id)) != []
    ensures var link := Linked(e, r.selection, chosen, ix, w);
      && link.Err?
      && CodeOf(link.error) == FirstBrokenLink(e, ix, LineagesAt(ix, (e.run, e.episode, r.selection.id)), r)
  {
    var lineages := LineagesAt(ix, (e.run, e.episode, r.selection.id));
    if |lineages| == 1 && LineageIn(lineages[0]).Some? {
      var l := LineageIn(lineages[0]).value;
      if OfSelection(l, r.selection) {
        assert LineageOf(lineages[0], l, r);
        BrokenEndIsNamed(e, ix, l, w, r, chosen);
      }
    }
  }

  lemma LinkRefusalIsNamed(e: Event, ix: Indexes, w: World, seed: string, r: Record)
    requires Recorded(e, ix, r) && BelongTogether(e, r, w) && Named(r, w) && KeyedIndex(ix) && !Linkable(e, ix, r)
    ensures var lineages := LineagesAt(ix, (e.run, e.episode, r.selection.id));
      lineages != [] && Code(e, ix, w, seed) == Some(FirstBrokenLink(e, ix, lineages, r))
  {
    var j := JoinSucceeds(e, ix, w, r);
    if r.selection.candidate.Some? {
      var k :| 0 <= k < |r.listed| && IdAt(r.listed, k) == r.selection.candidate;
      assert j.candidates[k] in j.candidates;
    }
    var chosen := Chosen(j).value;
    ChoiceIsNamed(r, j, chosen);
    BrokenLinkIsNamed(e, ix, w, r, CandidateAt(j, chosen));
  }

  // ----- what is indexed under which key ------------------------------------------------

  /** `x` is the kind of event that `k` asks for, and carries its identity. */
  ghost predicate Matches(x: Event, k: Key) {
    && x.run == k.run && x.episode == k.episode
    && match k
       case ObservationKey(_, _, step) => x.body.ObservationBody? && x.step == step
       case IntentKey(_, _, id) => x.body.IntentBody? && x.body.key == Some(id)
       case CandidatesKey(_, _, id) => x.body.CandidatesBody? && x.body.key == Some(id)
       case ExecutionKey(_, _, id) => x.body.ExecutionBody? && x.body.key == Some(id)
       case LifecycleKey(_, _, id) =>
         && x.body.LifecycleBody? && x.body.status != None
         && (x.body.direct == Some(id) || (x.body.direct == None && x.body.command.id == Some(id)))
  }

  lemma MatchesMeaning(x: Event, k: Key)
    ensures Matches(x, k) <==> KeyOf(x) == Some(k)
  {
  }

  /** The index finds an event under a key exactly when the journals hold it and it matches;
      and no two events of the journals match one key. */
  lemma IndexHoldsExactly(events: seq<Event>, ix: Indexes, k: Key)
    requires IndexOf(events) == Ok(ix)
    ensures k in ix.unique <==> exists x :: x in events && Matches(x, k)
    ensures k in ix.unique ==> ix.unique[k] in events && Matches(ix.unique[k], k)
    ensures forall i, j :: 0 <= i < j < |events| && Matches(events[i], k) ==> !Matches(events[j], k)
    ensures KeyedIndex(ix)
  {
    IndexMeaning(events);
    forall x ensures Matches(x, k) <==> KeyOf(x) == Some(k) {
      MatchesMeaning(x, k);
    }
    forall q | q in ix.unique ensures KeyOf(ix.unique[q]) == Some(q) && ix.unique[q] in events {
      assert KeyedBefore(events, |events|, KeyOf, q);
      var j :| 0 <= j < |events| && KeyOf(events[j]) == Some(q);
      assert Find(ix.unique, KeyOf(events[j]).value) == Some(events[j]);
    }
    if x :| x in events && Matches(x, k) {
      var j :| 0 <= j < |events| && events[j] == x;
      assert Find(ix.unique, KeyOf(events[j]).value) == Some(events[j]);
    }
  }

  /** Indexing is refused exactly when two events of the journals match one key. */
  lemma IndexRefusedMeaning(events: seq<Event>)
    ensures IndexOf(events).Err? <==>
            exists i, j, k :: 0 <= i < j < |events| && Matches(events[i], k) && Matches(events[j], k)
  {
    IndexMeaning(events);
    if IndexOf(events).Err? {
      var i, j :| 0 <= i < j < |events| && KeyOf(events[i]).Some? && KeyOf(events[i]) == KeyOf(events[j]);
      MatchesMeaning(events[i], KeyOf(events[i]).value);
      MatchesMeaning(events[j], KeyOf(events[i]).value);
    }
    if i, j, k :| 0 <= i < j < |events| && Matches(events[i], k) && Matches(events[j], k) {
      MatchesMeaning(events[i], k);
      MatchesMeaning(events[j], k);
    }
  }

  ghost predicate LineageFor(x: Event, k: SelectionKey) {
    x.run == k.0 && x.episode == k.1 && x.body.LineageBody? && x.body.key == Some(k.2)
  }

  lemma {:induction false} LineagesAreListed(events: seq<Event>, k: SelectionKey)
    ensures forall x :: x in LineagesFor(events, LineageKeyOf, k) <==> x in events && LineageFor(x, k)
  {
    if events != [] {
      LineagesAreListed(events[..|events| - 1], k);
    }
  }

  /** The lineages found for a selection are those the journals hold for it. */
  lemma LineagesHeldExactly(events: seq<Event>, ix: Indexes, k: SelectionKey)
    requires IndexOf(events) == Ok(ix)
    ensures forall x :: x in LineagesAt(ix, k) <==> x in events && LineageFor(x, k)
  {
    IndexMeaning(events);
    LineagesAreListed(events, k);
    assert events[..|events|] == events;
  }
}
