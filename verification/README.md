# RTSCortex: verified decision and record-keeping core

RTSCortex lets a language model play a real-time strategy game through a layer of
deterministic components: they arbitrate competing intents, budget prompts, drive retreats
and attacks, remember threats, fan events out to a console, and turn journals into an
audited training corpus. This project models those components in Dafny and proves what
they promise, for every input and over every run.

`dafny verify dfyconfig.toml` checks everything; there is no other dependency.

## How the model is laid out

| Component | Modules |
|---|---|
| Strategic intent arbiter | `Strategic` (the algorithm), `StrategicTheorems` (one tick), `StrategicMeaning` (scores, verdicts and selections from the intents' own fields), `StrategicAccounts` (the agenda adds up), `StrategicRuns` (whole runs), `StrategicReplay` (the same batch again) |
| Executor corpus builder and verifier | `CorpusModel`, `CorpusBuild`, `CorpusFiles`, `CorpusVerify`, `CorpusSource`, `CorpusTheorems` (producer and checker), `CorpusMeaning` (what a sample tells of the journals), `CorpusManifest` (what files, counters and fingerprints tell), `CorpusCodec` (its premises can be met), `CorpusPrivacy` (noninterference) |
| Prompt budget | `PromptBudget` |
| History compaction | `History` (bounding values), `HistoryCompaction` (the algorithm), `HistoryTheorems`, `HistoryMeaning` (what is kept and shown) |
| Tactical agent | `TacticalRules` (what is decided for one actor), `Tactical` (the agent), `TacticalMeaning` (who is ordered what), `TacticalReports` (what dispatches and reports leave), `TacticalRuns` (retreat episodes), `SearchRuns` (search runs) |
| Defence agent | `Defense`, `DefenseMeaning` (who responds with what, and for how long) |
| Live console | `ConsoleHub` (queues and hub), `LiveStream` (the stream as a protocol) |
| Threat hysteresis | `Threat`, `ThreatMeaning` (score, level and hold) |
| Macro plan projection | `Prerequisites`, `CumulativeTargets`, `MacroMeaning` (least sets, stops and levels) |
| Compile, select, materialize | `Candidates`, `CandidatesMeaning` (arguments, actors, selection) |
| Probe batches and their validator | `ProbeBatches`, `BatchStatus`, `BatchMeaning` (places, plans and why they are refused) |
| Shared | `Ordering` (Python's `str` order and stable sort), `Counting` (filters and counters), `Folding` (loops with early refusal) |

Objects whose methods update fields are classes with those fields (`TacticalAgent`,
`DefenseAgent`, `SituationAnalyzer`, `LiveConsoleHub`, `Subscriber`, `Draft`); loops are
methods proved against a function or a relation, and the lemmas are about those. Concurrency
of the console is a state machine over its atomic steps, so "for every list of actions" is
"for every interleaving".

A method and its lemmas share the functions that specify them. The modules named `...Meaning`,
`TacticalReports` and `CorpusManifest` say what those functions answer without using them: in
the entities' own fields, with the weights, limits and texts written out.

Conventions. Floats that are computed with are exact reals; floats that a corpus only copies
are the text that JSON writes for them. Game loops and event ids are naturals. Digests
(`sha256` of canonical JSON) are function parameters; only the producer/checker theorem
asks one of them, the sample-id digest, to be injective, and the file codec to decode what
it encoded. `CorpusCodec.PremisesHold` shows that both can be met together. JSON text in prompts is a length function plus the decimal digits of every
number written into it. Race profiles, mappers and position geometry are parameters.

## Where the code does less than its description

Each of these is a lemma that exhibits the case, beside an if-and-only-if that says when the
promise holds.

- A HIGH threat seen while a CRITICAL hold is in force does not extend the hold, and can be
  forgotten before its own window is over (`Threat.MaskingHappens`). It loses its window
  exactly when the hold it was seen under is in force, more severe, and over before the
  window is (`Threat.MaskedThreatIsForgotten`).
- A threat score never falls as things get worse, except that losing the last of the own army
  under attack removes the term that weighs the armies: it can fall from 14 to 10
  (`ThreatMeaning.LastStandScoresMore`, `ThreatMeaning.WorseScoresMore`). The level never
  falls (`ThreatMeaning.WorseIsAtLeastAsSevere`).
- The console stream never has a gap of its own making, but the event store drops events
  for a subscriber whose store-side queue is full without telling it
  (`LiveStream.StoreCanDropSilently`). An event is shown exactly unless it was dropped
  there and was not yet stored when the backlog was read
  (`LiveStream.NoSilentGapInTheStream`).
- Compacting a history early is harmless exactly when no event that counts once, and whose
  signature occurs once, names a first step other than its own step
  (`HistoryTheorems.EarlyCompactionIsHarmless`, `HistoryTheorems.StrayFirstIsLost`).
- Merging adjacent macro steps preserves the total work exactly unless a run mixes steps
  with and without targets (`CumulativeTargets.MergingIsExactUnlessMixed`); then the
  untargeted repeats vanish (`CumulativeTargets.MixedRunLosesWork`).
- The saved-candidate policy ignores playbook scores, so it agrees with the executor exactly
  when its pick is top-scored in its goal class (`Candidates.PoliciesAgreeWhenTopScored`,
  `Candidates.PlaybookPartsThePolicies`).
- A retreat dispatched again with the same members, threat and identifiers can announce its
  arrival again exactly when it carries no operation id
  (`TacticalRuns.UncommittedRetreatArrivesTwice`).
- Cooldowns are monotone while game loops are (`TacticalRuns.CooldownNeverMovesBack`); with
  loops in any order, only a dispatch moves one back, exactly when neither its own time nor
  its commitment's stored cooldown reaches the current one
  (`TacticalRuns.CooldownMovesBackMeaning`, `TacticalRuns.DisorderMovesCooldownBack`).
- Offering the same batch again is not always answered in the same way. An empty answer
  publishes no commitment and frees every intent of the switch penalty
  (`StrategicReplay.EmptySelectionIsForgotten`); a selected intent frees every other intent
  with its continuity key, which nothing keeps from being compatible
  (`StrategicReplay.SharedKeyIsNotRepeated`). The exact condition is
  `StrategicReplay.ReplayIsStable`. Where intents with one key exclude each other and are
  equally urgent, it comes down to this: the first answer selects something, or nothing is
  worth selecting without penalties either (`StrategicReplay.ReplayedRunIsConstant`).
- A defence command is recognised by its signature. A proposal that names a target under an
  action other than an attack or a move is matched by no command
  (`Defense.OtherTargetsAreDropped`); `Defense.SignatureMeaning` says which are.

## Model

| member | source | states |
|---|---|---|
| Strategic.BuildConflicts | src/rtscortex/cortex/strategic.py:459-490 | the double loop lists exactly the conflicts of `ConflictsOf`, in enumeration order |
| StrategicTheorems.ConflictMeaning | src/rtscortex/cortex/strategic.py:459-490 | a conflict is listed if and only if two distinct intents of the batch clash, with the kind the first matching rule gives |
| StrategicTheorems.ClashIsSymmetric | src/rtscortex/cortex/strategic.py:459-490 | which of the two intents comes first changes neither the verdict nor the conflict record |
| Strategic.Admit | src/rtscortex/cortex/strategic.py:307-321 | expired and blocked intents are recorded with their reason, and the rest is kept in rank order |
| StrategicTheorems.EligibleMeaning | src/rtscortex/cortex/strategic.py:307-333 | the eligible list has at most `max_intents` unrejected intents, and every unrejected intent left out ranks below every one let in |
| Strategic.CombinationsAreSubsequences | src/rtscortex/cortex/strategic.py:540-545 | `combinations(intents, n)` yields exactly the subsequences of length n, so the search is exhaustive |
| Strategic.FeasibleOfSize | src/rtscortex/cortex/strategic.py:540-552 | one round of the search keeps exactly the feasible subsequences of that size |
| Strategic.FirstLargest | src/rtscortex/cortex/strategic.py:553 | `max` with a key returns a member that no other member beats |
| Strategic.BestFeasibleSubset | src/rtscortex/cortex/strategic.py:534-553 | the result is a feasible subsequence whose (emergencies, score, size, ids) key no feasible subsequence beats |
| StrategicTheorems.FeasibleMeaning | src/rtscortex/cortex/strategic.py:556-572 | a subset passes the feasibility test if and only if no two members clash, dependencies are inside, and minerals, vespene and free supply suffice |
| StrategicTheorems.ConflictFreeMeaning | src/rtscortex/cortex/strategic.py:556-561 | the conflict-list test and pairwise clash-freedom are the same thing |
| StrategicTheorems.BestIsUnique | src/rtscortex/cortex/strategic.py:534-553 | the lexicographic maximum is unique |
| StrategicTheorems.PressureMeaning | src/rtscortex/cortex/strategic.py:493-531 | resource pressure is a fraction, and is 1 exactly when one claim takes all there is |
| StrategicTheorems.ScoreRange | src/rtscortex/cortex/strategic.py:493-531 | without advice every score lies in [-6, 10], and reaches 10 only free of risk, pressure and switching; an emergency's score ignores the commitments |
| Strategic.IndexConflicts | src/rtscortex/cortex/strategic.py:588-596 | every intent finds exactly the conflicts it takes part in, in list order |
| Strategic.DecideAll | src/rtscortex/cortex/strategic.py:371-419 | one decision for each intent, in batch order |
| Strategic.Arbitrate | src/rtscortex/cortex/strategic.py:295-419 | a call refuses exactly the malformed batches, and otherwise yields an arbitration built from a lexicographic maximum |
| StrategicTheorems.ListingOrderIsIrrelevant | src/rtscortex/cortex/strategic.py:295-419 | permuting the batch changes neither the selection nor the agenda nor any verdict |
| StrategicTheorems.ChosenIsFeasible | src/rtscortex/cortex/strategic.py:331-351 | what is finally chosen is feasible and serves as many emergencies as the optimum |
| StrategicTheorems.SelectionIsNearOptimal | src/rtscortex/cortex/strategic.py:331-351 | against every coherent alternative the choice has at least as many emergencies, and with equally many it loses strictly less than the switch margin |
| StrategicMeaning.DecisionScores | src/rtscortex/cortex/strategic.py:493-531 | all nine fields of every published score from the intent's own fields: progress times 4, urgency times 3, alignment times 2, confidence, risk times 3, the advice delta, the switch penalty of 2, the scarcity of its claim, and their total |
| StrategicMeaning.Verdicts | src/rtscortex/cortex/strategic.py:371-419 | verdict, reason, reservation and commitment of every intent in every case: selected, expired, blocked, preempted (a former commitment, when some emergency is selected), or deferred |
| StrategicMeaning.ConflictsPublished | src/rtscortex/cortex/strategic.py:459-490 | a conflict of some kind is published between two intents exactly when they share a claim in the way that kind says |
| StrategicMeaning.ConflictsAttributed | src/rtscortex/cortex/strategic.py:575-596 | each decision lists exactly the published conflicts that name its intent |
| StrategicMeaning.ConsideredMeaning | src/rtscortex/cortex/strategic.py:307-333 | an intent is considered if and only if it is open and fewer than `max_intents` open intents outrank it |
| StrategicMeaning.NoWorthyIntentIsLeftOut | src/rtscortex/cortex/strategic.py:331-351 | an intent that could still be added to the selection is no emergency and scores below zero |
| StrategicMeaning.NothingWorthlessIsSelected | src/rtscortex/cortex/strategic.py:331-351 | a selected intent that no selected intent depends on is an emergency or scores at least zero |
| StrategicMeaning.EmergenciesComeFirst | src/rtscortex/cortex/strategic.py:534-553 | whatever the scores and commitments, when an emergency could be served alone an emergency is selected |
| StrategicMeaning.RivalsAreWeighed | src/rtscortex/cortex/strategic.py:493-553 | of two clashing intents with equal claims the one ahead in 4 progress + 3 urgency + 2 alignment + confidence - 3 risk is selected alone, and the agenda is its claim |
| StrategicMeaning.EqualRivals | src/rtscortex/cortex/strategic.py:534-553 | between clashing intents that weigh the same the larger identifier is selected |
| StrategicMeaning.NewcomerIsWeighed | src/rtscortex/cortex/strategic.py:335-351 | against a commitment it clashes with, a newcomer is selected exactly when it is worth 2 more and, inside the commitment window, the switch margin more than that |
| StrategicMeaning.AlliesAreSelectedTogether | src/rtscortex/cortex/strategic.py:534-553 | two intents that do not clash, each worth something, are selected together if and only if their claims fit together; the agenda then reserves for both |
| StrategicMeaning.AffordableMeaning | src/rtscortex/cortex/strategic.py:556-572 | minerals, vespene and supply each suffice; claiming no supply is always possible |
| StrategicAccounts.AgendaAddsUp | src/rtscortex/cortex/strategic.py:354-370 | the agenda reserves exactly what the decisions reserve, which is there to be spent, and its total is that of the selected decisions |
| StrategicMeaning.AgendaHeader | src/rtscortex/cortex/strategic.py:354-370 | the agenda's identifiers, keys, times and total are those of the selection |
| StrategicRuns.DecisionsConserve | src/rtscortex/cortex/strategic.py:152-170 | one decision per intent, each id once, SELECTED exactly for the published selection, REJECTED exactly for a rejection reason, PREEMPTED only of a former commitment by another emergency |
| StrategicRuns.CommitmentOutlasts | src/rtscortex/cortex/strategic.py:354-360 | the agenda is committed to the end of its longest claim, and no longer |
| StrategicRuns.RunIsSafe | src/rtscortex/cortex/strategic.py:335-370 | at every tick of every run the agenda is coherent, affordable, near-optimal, and reserves time exactly as long as its longest claim |
| StrategicRuns.CommitmentsAreDroppedForCause | src/rtscortex/cortex/strategic.py:335-351 | across consecutive ticks, a coherent retained set inside its window stays selected if and only if it is optimal or the optimum gains less than the margin and brings no new emergency |
| StrategicReplay.EmptyAnswers | src/rtscortex/cortex/strategic.py:331-351 | nothing is selected if and only if every coherent non-empty subset serves no emergency and scores below zero, and no coherent commitment inside its window scores above the negated margin |
| StrategicReplay.ReplayIsStable | src/rtscortex/cortex/strategic.py:335-370 | for every batch: offered again with the agenda of its answer it is answered the same if and only if a commitment was kept; or nothing was selected and nothing is worth selecting without penalties; or no outsider carries a selected key; or one does, and neither a better set nor the set of all carriers takes over |
| StrategicReplay.ExclusiveKeysRepeat | src/rtscortex/cortex/strategic.py:335-370 | if intents with one key clash and are equally urgent, the answer repeats if and only if it selects something or nothing is worth selecting without penalties |
| StrategicReplay.ReplayedRunIsConstant | src/rtscortex/cortex/strategic.py:335-370 | then a run of any length that keeps offering one batch is answered the same throughout if and only if so |
| StrategicReplay.EmptySelectionIsForgotten | src/rtscortex/cortex/strategic.py:335-370 | an intent worth taking but not worth a switch is refused at first, and not refused again |
| StrategicReplay.LoneOfferExists | src/rtscortex/cortex/strategic.py:493-531 | such an intent exists |
| StrategicReplay.SharedKeyIsNotRepeated | src/rtscortex/cortex/strategic.py:335-370 | of two compatible intents with one new key only the better is selected at first, and not alone again |
| StrategicReplay.PairOfferExists | src/rtscortex/cortex/strategic.py:493-531 | such a pair exists |
| PromptBudget.DigitsMeaning | src/rtscortex/agents/context.py:379-385 | a number has d decimal digits exactly when it lies between consecutive powers of ten |
| PromptBudget.DropShrinks | src/rtscortex/agents/context.py:306-357 | a drop never lengthens the prompt, and shortens it when elements have two characters or more, even if its counter gains a digit |
| PromptBudget.DroppingNeverLengthens | src/rtscortex/agents/context.py:306-357 | any number of drops never lengthens the prompt |
| PromptBudget.SpareAfterDrop | src/rtscortex/agents/context.py:306-357 | each round uses up exactly one droppable element, so the loop terminates |
| PromptBudget.DropIsInOrder | src/rtscortex/agents/context.py:306-357 | histories keep suffixes and unit lists non-empty prefixes, counters count what is gone, and a list is touched only after all earlier ones are at their minimum |
| PromptBudget.DropTrims | src/rtscortex/agents/context.py:312-350 | by literal list numbers: lists 0, 1, 2 and 6 lose their first entries, lists 3, 4 and 5 their last and never their first, each counter grows by what its list lost, and a list loses nothing while an earlier one can |
| PromptBudget.MinimisedIsSpent | src/rtscortex/agents/context.py:334-357 | once nothing can be dropped, lists 0, 1, 2 and 6 are empty and lists 3, 4 and 5 have at most one entry |
| PromptBudget.PromptCharsMeaning | src/rtscortex/agents/context.py:379-385 | the length of a prompt is that of its fixed text, its lists and the digits of its counters |
| PromptBudget.Draft.TextMeaning | src/rtscortex/agents/context.py:379-401 | what fits and what is finished, as the length of the text |
| PromptBudget.Draft.DropUntilFits | src/rtscortex/agents/context.py:332-357 | drops in that order until the probe fits or nothing is left to drop |
| PromptBudget.Draft.Settle | src/rtscortex/agents/context.py:359-376 | a prompt that fits records its exact length |
| PromptBudget.InOrderIsUnique | src/rtscortex/agents/context.py:306-357 | for a given number of drops there is only one sheet in that order |
| PromptBudget.FixedPointWithinFour | src/rtscortex/agents/context.py:388-401 | four renders always reach a prompt that states its exact length |
| PromptBudget.RenderStaysBelow | src/rtscortex/agents/context.py:388-401 | no render overshoots a bound the prompt respects with that bound written into it |
| PromptBudget.Draft.constructor | src/rtscortex/agents/context.py:306-320 | a draft starts uncompacted with no final length |
| PromptBudget.Draft.RenderStable | src/rtscortex/agents/context.py:388-401 | the length written into the statistics is the length rendered, and at most the budget when the probe was |
| PromptBudget.Draft.Fit | src/rtscortex/agents/context.py:306-376 | the lists it leaves are trimmed in that order, and spent if it fails; it fails if and only if the fully minimised prompt does not fit; otherwise it drops the least number of elements, and the recorded length is exact and within the budget, so the second budget error never fires |
| History.BoundedJsonIdempotent | src/rtscortex/agents/context.py:556-568 | bounding a value twice is bounding it once, at any depth |
| History.BoundedEventIdempotent | src/rtscortex/agents/context.py:529-553 | bounding an event twice is bounding it once, and its kind survives |
| History.EvidenceLookup | src/rtscortex/agents/context.py:128-188 | the compacted evidence holds exactly the listed keys that carry something, bounded |
| History.EvidenceStays | src/rtscortex/agents/context.py:128-188 | compacting execution evidence twice is compacting it once |
| HistoryCompaction.Collapse | src/rtscortex/agents/context.py:94-117 | the dictionary of slots represents the history: one slot per signature, ordered by last index |
| HistoryCompaction.CompactMemoryEvents | src/rtscortex/agents/context.py:94-125 | the dictionary and final sort compute the entries by last occurrence |
| HistoryTheorems.CompactIsIdempotent | src/rtscortex/agents/context.py:94-125 | compaction is idempotent on every history |
| HistoryTheorems.EarlyCompactionIsHarmless | src/rtscortex/agents/context.py:94-125 | compacting a prefix first changes nothing, whatever follows, if and only if no lone entry of the prefix carries a first step of its own |
| HistoryTheorems.StrayFirstIsLost | src/rtscortex/agents/context.py:94-125 | the continuation that exposes a lost first step |
| HistoryTheorems.FreshEventsCompose | src/rtscortex/agents/context.py:94-125 | compact(compact(a) + b) = compact(a + b) for events without a first step of their own |
| HistoryTheorems.CompactionConservesOccurrences | src/rtscortex/agents/context.py:94-125 | the repeat counts read before and after compaction add up to the same total |
| HistoryTheorems.EntriesArePlaced | src/rtscortex/agents/context.py:94-125 | one entry per occurring signature, with its last occurrence's content and its first occurrence's first step, listed by last occurrence |
| HistoryTheorems.LoneEntries | src/rtscortex/agents/context.py:94-125 | entries that count once are exactly the inputs whose signature occurs once |
| HistoryMeaning.BoundedMeaning | src/rtscortex/agents/context.py:556-574 | bounding yields a small value - at most eight entries per list or object, keys of 80 and texts of 240 characters, three levels - and leaves alone exactly the small ones |
| HistoryMeaning.ListMeaning | src/rtscortex/agents/context.py:556-568 | of a list the first eight entries are kept, each bounded one level down |
| HistoryMeaning.FieldMeaning | src/rtscortex/agents/context.py:556-568 | of an object the first eight fields are kept under their cut keys; of fields whose keys are cut to the same the last one counts |
| HistoryMeaning.OrdinaryEventMeaning | src/rtscortex/agents/context.py:529-553 | an ordinary event keeps exactly the listed keys, texts cut to 300 characters |
| HistoryMeaning.ExecutionEventMeaning | src/rtscortex/agents/context.py:529-553 | an execution keeps its listed keys bounded, its reason as text of at most 240 characters, and its evidence if that is an object |
| HistoryMeaning.EvidenceMeaning | src/rtscortex/agents/context.py:128-190 | evidence is kept under exactly the listed keys, an actor tag only if there is one |
| HistoryMeaning.CompactedShows | src/rtscortex/agents/context.py:94-125 | every event of a compacted history has the content of the last event of its kind, the first step of the first, and the sum of the repeats |
| HistoryMeaning.EveryKindIsShown | src/rtscortex/agents/context.py:94-125 | every kind of event that occurred is shown |
| HistoryMeaning.ShownInOrder | src/rtscortex/agents/context.py:94-125 | in the order of their last occurrences |
| Threat.FreshMeaning | src/rtscortex/cortex/situation.py:455-552 | the scored level is calm exactly without enemies, and critical under the listed alarms |
| Threat.SituationAnalyzer.constructor | src/rtscortex/cortex/situation.py:188-207 | an analyzer starts without an episode or a hold |
| Threat.SituationAnalyzer.Assess | src/rtscortex/cortex/situation.py:209-224 | a new episode inherits nothing; report and hold are one step of the filter |
| Threat.SituationAnalyzer.AssessThreat | src/rtscortex/cortex/situation.py:455-552 | the field updates compute one step of the filter |
| Threat.ReportAgrees | src/rtscortex/cortex/situation.py:455-552 | reported level, stored level and level of the reported score agree; it is never below the fresh level and departs from it only inside a more severe hold |
| Threat.HoldIsSet | src/rtscortex/cortex/situation.py:455-552 | a hold in force was set by an observation of exactly that level, a window before its end |
| Threat.ReportedWasFresh | src/rtscortex/cortex/situation.py:455-552 | in every chronological run the reported level was the fresh level of an observation at most a window old |
| Threat.HoldPersists | src/rtscortex/cortex/situation.py:455-552 | until it expires a hold only gives way to one as severe and as long |
| Threat.HoldLength | src/rtscortex/cortex/situation.py:455-552 | a hold ends at most a window later, and exactly a window later when the serious level reported is fresh |
| Threat.ReportedThreatPersists | src/rtscortex/cortex/situation.py:455-552 | a serious level reported fresh is not undercut for a full window |
| Threat.MaskedThreatIsForgotten | src/rtscortex/cortex/situation.py:455-552 | a serious observation keeps its level for a window in every continuation if and only if the previous hold is not in force, not more severe, or reaches a window further |
| Threat.MaskingHappens | src/rtscortex/cortex/situation.py:455-552 | a run in which a HIGH observation is forgotten before its window ends |
| ThreatMeaning.ReportMeaning | src/rtscortex/cortex/situation.py:455-558 | without a hold that overrules it the report is the level and the weight of the observation; else the held level with a score of at least 4 for HIGH and 7 for CRITICAL |
| ThreatMeaning.HoldMeaning | src/rtscortex/cortex/situation.py:455-552 | what is held afterwards: the old hold while it overrules, nothing after calm or a slight threat that follows one, otherwise this level for a full window |
| ThreatMeaning.WorseScoresMore | src/rtscortex/cortex/situation.py:455-552 | more enemies, nearer, against less: the score does not fall, unless the last of the own army is lost while something fights it |
| ThreatMeaning.LastStandScoresMore | src/rtscortex/cortex/situation.py:455-552 | then it can fall, from 14 to 10 |
| ThreatMeaning.WorseIsAtLeastAsSevere | src/rtscortex/cortex/situation.py:455-552 | the level never falls as things get worse |
| ThreatMeaning.WorseIsReportedAtLeastAsSevere | src/rtscortex/cortex/situation.py:455-558 | nor does the reported level under the same hold |
| Prerequisites.TransitivePrerequisites | src/rtscortex/cortex/macro.py:433-454 | the worklist terminates on cyclic specs and returns exactly the targets reachable by prerequisite and producer edges |
| Prerequisites.Visit | src/rtscortex/cortex/macro.py:433-454 | visiting one action keeps the search invariant |
| Prerequisites.ExpandNeeds | src/rtscortex/cortex/macro.py:445-452 | the inner loop discovers each need and queues its producer |
| Prerequisites.ExploredIsComplete | src/rtscortex/cortex/macro.py:433-454 | an empty worklist leaves nothing reachable undiscovered |
| Prerequisites.NeedsThroughExtends | src/rtscortex/cortex/macro.py:433-454 | chains of needs extend by one producer |
| Prerequisites.UnsupportedIsDependency | src/rtscortex/cortex/macro.py:422-460 | true if and only if a later step reaches the unsupported target |
| Prerequisites.FrontierStepLimitMeaning | src/rtscortex/cortex/macro.py:312-320 | one step per started half minute, at least one and at most five |
| Prerequisites.RuntimeFrontier | src/rtscortex/cortex/macro.py:275-309 | the frontier is the first blocking step of the bounded window, or none when nothing blocks |
| Prerequisites.SkippedStepsAreIndependent | src/rtscortex/cortex/macro.py:289-309 | every step before the frontier is obsolete, managed, or an unsupported step that no later step of the window needs, directly or through others |
| MacroMeaning.PrerequisitesAreLeast | src/rtscortex/cortex/macro.py:433-454 | the prerequisites found are the least set that holds what the action asks for and, with each member, what its producer asks for |
| MacroMeaning.WindowMeaning | src/rtscortex/cortex/macro.py:275-325 | the window is the first steps of the plan by ordinal, as many as the horizon admits: 1 to 5 |
| MacroMeaning.FrontierMeaning | src/rtscortex/cortex/macro.py:275-309 | the frontier is the first step of the window that is neither obsolete, nor managed, nor unsupported without a later step needing it |
| CumulativeTargets.CompactGoalSteps | src/rtscortex/cortex/macro.py:356-400 | the index loop merges exactly the maximal runs of one action |
| CumulativeTargets.DesiredCounts | src/rtscortex/cortex/macro.py:359-372 | each action that occurs, and no other, gets the largest target among its steps, or else the sum of their repeats |
| CumulativeTargets.MergingKeepsDesiredCounts | src/rtscortex/cortex/macro.py:359-399 | merging adjacent steps changes no desired count |
| CumulativeTargets.ProjectRepeats | src/rtscortex/cortex/macro.py:91-136 | each step is projected against all steps before it |
| CumulativeTargets.TargetsTelescope | src/rtscortex/cortex/macro.py:91-136 | for each effect the asked repeats add up to max(observed, largest target) - observed, in any order of targets |
| CumulativeTargets.SatisfiedMeaning | src/rtscortex/cortex/macro.py:91-136 | a targeted step is satisfied if and only if the state or an earlier step already reaches it |
| CumulativeTargets.WorkIsAsked | src/rtscortex/cortex/macro.py:91-136 | the recursive work measure is what the projection asks for in all |
| CumulativeTargets.MergingLosesSwallowedRepeats | src/rtscortex/cortex/macro.py:356-400 | merging loses exactly the repeats of untargeted steps inside runs that also name a target |
| CumulativeTargets.LostMeaning | src/rtscortex/cortex/macro.py:356-400 | something is lost if and only if two neighbours of one action disagree on having a target |
| CumulativeTargets.MergingIsExactUnlessMixed | src/rtscortex/cortex/macro.py:356-400 | the total asked for an effect survives merging if and only if no neighbours mix |
| CumulativeTargets.MixedRunLosesWork | src/rtscortex/cortex/macro.py:356-400 | an instance: five units of work become three |
| MacroMeaning.MergedMeaning | src/rtscortex/cortex/macro.py:374-400 | the merged plan cuts the proposal into its maximal runs of one action; each step asks for the largest target of its run, or the sum of its repeats |
| MacroMeaning.ProjectionMeaning | src/rtscortex/cortex/macro.py:91-136 | a step with a target asks for what is missing to it from the largest level that observation and the steps before it reach, and is satisfied when nothing is; any other asks for its repeats |
| ConsoleHub.OfferExplained | src/rtscortex/console/hub.py:137-149 | offering keeps the history explained also when the queue overflows |
| ConsoleHub.NoSilentGap | src/rtscortex/console/hub.py:112-149 | every offer has a message that stands for it, in order: what was offered before and after its block is explained by the messages before and after; only a resync stands for more than one |
| ConsoleHub.Subscriber.constructor | src/rtscortex/console/hub.py:112-122 | a fresh subscription owes and is owed nothing |
| ConsoleHub.Subscriber.Offer | src/rtscortex/console/hub.py:137-149 | a full queue collapses into one resync request, another grows by the notice; the bound holds |
| ConsoleHub.Subscriber.RunCallback | src/rtscortex/console/hub.py:128-135 | the event loop runs scheduled offers in order |
| ConsoleHub.Subscriber.Receive | src/rtscortex/console/hub.py:42-43 | receiving takes the oldest message and keeps everything accounted for |
| ConsoleHub.LiveConsoleHub.constructor | src/rtscortex/console/hub.py:52-61 | a hub starts without subscribers and frames |
| ConsoleHub.LiveConsoleHub.Subscribe | src/rtscortex/console/hub.py:112-122 | a subscription gets an unused id and an empty queue, and disturbs no other |
| ConsoleHub.LiveConsoleHub.Unsubscribe | src/rtscortex/console/hub.py:124-126 | exactly one subscription goes |
| ConsoleHub.LiveConsoleHub.Broadcast | src/rtscortex/console/hub.py:128-135 | every open loop is scheduled the notice behind what it has, a closed one is unsubscribed |
| ConsoleHub.LiveConsoleHub.PutFrame | src/rtscortex/console/hub.py:90-106 | a frame is kept and announced if and only if it is newer than the kept one of its kind |
| LiveStream.StepKeepsInvariant | src/rtscortex/console/app.py:117-148 | every step of store, worker, hub and stream keeps the protocol invariant |
| LiveStream.RunsKeepInvariant | src/rtscortex/console/app.py:117-148 | so does every interleaving of them |
| LiveStream.NoSilentGapInTheStream | src/rtscortex/console/app.py:117-148 | while streaming, after an ordinary or an exceeded backlog, an event after the cursor was stored when the backlog was read (sent, or covered by its resync), is live, stands in the block of a resync, is still coming, or was refused by the store; with nothing in flight it is shown exactly unless refused there and not yet stored at the read |
| LiveStream.BacklogIsAPrefix | src/rtscortex/console/app.py:121-141 | what was read is everything stored after the cursor up to one moment, with one resync in its place exactly when it exceeds the page |
| LiveStream.StoreCanDropSilently | src/rtscortex/memory/store.py:1071-1078 | a run in which the store's own queue drops an event that the stream is never told about |
| Defense.RallyNeverReplaced | src/rtscortex/cortex/roles.py:713-717 | no signature is both a rally and an attack, so the replacement exception never applies |
| Defense.DefenseAgent.constructor | src/rtscortex/cortex/roles.py:147-154 | an agent starts with no actor states |
| Defense.DefenseAgent.MayEmit | src/rtscortex/cortex/roles.py:692-718 | allowed exactly when not blocked; an expired state is released and nothing else changes |
| Defense.DefenseAgent.RecordDispatch | src/rtscortex/cortex/roles.py:626-642 | the command's actor, action and derived signature name the response, which gets a fresh commitment |
| Defense.SignatureMeaning | src/rtscortex/cortex/roles.py:1004-1011 | an attack command carries the signature of a proposal if and only if its first argument is the very text of the target, a move if and only if it goes to the same place; other commands carry their action alone |
| Defense.OtherTargetsAreDropped | src/rtscortex/cortex/roles.py:1004-1011 | no command carries the signature of a targeted proposal under another action |
| Defense.DispatchBlocksOneResponse | src/rtscortex/cortex/roles.py:626-642 | a dispatched command blocks a free proposal if and only if actor, action and signature agree |
| Defense.DefenseAgent.RecordExecution | src/rtscortex/cortex/roles.py:644-690 | only the state that owns the command reacts to its report, and the bound returned is the one stored |
| Defense.DefenseAgent.Ask | src/rtscortex/cortex/roles.py:692-718 | within one evaluation, every question is answered as at its start |
| Defense.DefenseAgent.ProposeAttacks | src/rtscortex/cortex/roles.py:202-239 | one pass over the attack offers: each unclaimed actor without a proposal gives its first unblocked attack, in order |
| Defense.DefenseAgent.ProposeMoves | src/rtscortex/cortex/roles.py:241-276 | the same for rallies, on actors that neither the claims nor the attacks took |
| Defense.DefenseAgent.ProposeImmediate | src/rtscortex/cortex/roles.py:339-380 | exactly the unblocked responses among those considered, in order |
| Defense.DefenseAgent.ProposePrerequisite | src/rtscortex/cortex/roles.py:382-418 | the first unblocked prerequisite, none if all are blocked or the base has no future |
| Defense.DefenseAgent.ProposeWorker | src/rtscortex/cortex/roles.py:420-477 | the first unblocked worker, none if all are blocked |
| Defense.ImmediateKeysMeaning | src/rtscortex/cortex/roles.py:339-354 | a response is considered if and only if it is an unsaturated action by its first unclaimed actor |
| Defense.FirstFreeIsFirst | src/rtscortex/cortex/roles.py:382-418 | the first unblocked response is unblocked and everything before it is blocked |
| Defense.ReleasedSaturatesTheSame | src/rtscortex/cortex/roles.py:520-541 | consulting never changes what is saturated |
| Defense.DefenseAgent.ProposeEmergency | src/rtscortex/cortex/roles.py:295-477 | immediate responses or else a prerequisite, and then a worker; `DefenseMeaning.DraftMeaning` and `DefenseMeaning.BuildMeaning` say when |
| Defense.DefenseAgent.ProposeSourceIntents | src/rtscortex/cortex/roles.py:177-293 | nothing without a threat; otherwise the combat and emergency answers of the book as it was at the start, with no blocked proposal and one combat proposal per actor |
| Defense.ReleasedBlocksTheSame | src/rtscortex/cortex/roles.py:692-718 | consulting the book never changes what is blocked |
| Defense.DispatchedIsNotRepeated | src/rtscortex/cortex/roles.py:626-734 | over every uninterrupted stretch with loops in order, the response a command was dispatched for stays blocked for 112 loops unless that command fails |
| Defense.FailedIsNotRetriedEarly | src/rtscortex/cortex/roles.py:644-734 | after its own failure a response stays blocked for 32 loops, whatever happens in between |
| Defense.BoundsAreExact | src/rtscortex/cortex/roles.py:626-734 | left alone it is blocked exactly until those bounds |
| DefenseMeaning.CombatMeaning | src/rtscortex/cortex/roles.py:202-276 | a combat proposal is made if and only if it is the first unblocked attack of an unclaimed actor, or the first unblocked rally of one without such an attack |
| DefenseMeaning.DraftMeaning | src/rtscortex/cortex/roles.py:420-477 | some worker is drafted if and only if the threat is critical, every combat proposal is by a worker, and some worker offer is unblocked at the start |
| DefenseMeaning.DraftedIsFirst | src/rtscortex/cortex/roles.py:420-477 | it is the first such offer's, and there is only one |
| DefenseMeaning.BuildMeaning | src/rtscortex/cortex/roles.py:339-418 | the rest of the emergency answer: every considered immediate action that is free; or, if there is none and the base is not collapsing, the first free prerequisite |
| DefenseMeaning.InheritedMeaning | src/rtscortex/cortex/roles.py:185-200 | what an evaluation knows at its start: what was known of this episode while the threat lasts, and otherwise nothing |
| DefenseMeaning.ConsultationMeaning | src/rtscortex/cortex/roles.py:692-718 | asking for a response changes the book only when its hold has run out, and then only that response |
| DefenseMeaning.ReportMeaning | src/rtscortex/cortex/roles.py:644-690 | a success holds a response for 112 loops, a failure frees it after a cooldown of 32, anything else and everybody else's report changes nothing |
| DefenseMeaning.DispatchMeaning | src/rtscortex/cortex/roles.py:626-642 | a dispatch starts a response over for 112 loops without a cooldown |
| Defense.StaleReportsChangeNothing | src/rtscortex/cortex/roles.py:644-690 | a report for a replaced or released command changes nothing |
| Tactical.TacticalAgent.constructor | src/rtscortex/cortex/tactical.py:130-178 | an agent remembers nothing |
| Tactical.TacticalAgent.RecordDispatch | src/rtscortex/cortex/tactical.py:382-477 | the new engagement, focus, retreat or search state in full; other kinds of state stay; a targetless attack is refused |
| Tactical.TacticalAgent.RecordExecution | src/rtscortex/cortex/tactical.py:271-380 | the whole new memory: unmatched reports change nothing, a lost actor is quarantined and forgotten, and any notice agrees with what is stored |
| Tactical.TacticalAgent.RecordMove | src/rtscortex/cortex/tactical.py:506-587 | a move report moves the retreat or else the search, and announces an arrival exactly when it is the first |
| Tactical.TacticalAgent.RecordAttack | src/rtscortex/cortex/tactical.py:325-380 | failures, engagement, focus and known structures after an attack report |
| Tactical.TacticalAgent.ActivateEpisode | src/rtscortex/cortex/tactical.py:814-827 | a new episode starts from nothing, the same one changes nothing |
| Tactical.TacticalAgent.RememberEnemyStructures | src/rtscortex/cortex/tactical.py:711-719 | dead structures are forgotten, seen ones remembered where last seen |
| Tactical.TacticalAgent.EligibleActors | src/rtscortex/cortex/tactical.py:829-844 | exactly the unquarantined actors, in order; only quarantines that are over are forgotten |
| Tactical.TacticalAgent.RetreatIntents | src/rtscortex/cortex/tactical.py:721-812 | every retreat moves on, and home orders go exactly to the actors due |
| Tactical.TacticalAgent.AttackTargetsFor | src/rtscortex/cortex/tactical.py:858-884 | exactly the attackable unbarred targets; pruning changes no bar in force |
| Tactical.TacticalAgent.FocusTarget | src/rtscortex/cortex/tactical.py:846-856 | the previous focus while eligible, else the lowest rank |
| Tactical.TacticalAgent.AttackIntents | src/rtscortex/cortex/tactical.py:206-250 | an attack is ordered exactly when due, and engaged actors are exactly those with a target |
| Tactical.TacticalAgent.SelectWaypoint | src/rtscortex/cortex/tactical.py:696-709 | the open waypoint nearest to a known enemy structure, ties broken by coordinates; the first one while none is known |
| Tactical.TacticalAgent.SearchOne | src/rtscortex/cortex/tactical.py:589-694 | one actor's search moves on and orders its next leg exactly when due |
| Tactical.TacticalAgent.SearchIntents | src/rtscortex/cortex/tactical.py:589-694 | the same for all searchers; other actors' searches are forgotten |
| Tactical.TacticalAgent.Decide | src/rtscortex/cortex/tactical.py:180-269 | the three phases together: orders due, memory moved on |
| Tactical.TacticalAgent.Evaluate | src/rtscortex/cortex/tactical.py:180-269 | in every reachable state, one evaluation orders exactly what is due, at most one intent per actor, and keeps engagement and focus in agreement |
| TacticalRules.LowestRankIsLowest | src/rtscortex/cortex/tactical.py:945-956 | no target ranks below the chosen one |
| TacticalRules.PostureIsUnique | src/rtscortex/cortex/tactical.py:846-884 | the memory alone decides whether an actor idles, holds or is ordered |
| TacticalRules.UnchangedEngagementHolds | src/rtscortex/cortex/tactical.py:215-250 | an engagement in agreement with the focus whose target is still eligible is held |
| TacticalRules.OrdersAssemble | src/rtscortex/cortex/tactical.py:180-269 | the phases are apart: their orders together are exactly the orders due, one per actor |
| TacticalRules.OrdersRespectQuarantine | src/rtscortex/cortex/tactical.py:829-884 | no order for a quarantined actor, no attack on a target barred for its actor |
| TacticalRules.EngagementIsNotReordered | src/rtscortex/cortex/tactical.py:180-269 | an unchanged engagement is not ordered again, nor is its actor sent elsewhere |
| TacticalRules.PrunedBarsTheSame | src/rtscortex/cortex/tactical.py:858-884 | forgetting expired failures changes no bar |
| TacticalRules.MovedOnEvaluates | src/rtscortex/cortex/tactical.py:721-812 | an evaluation adds no retreat, emits no arrival and only lengthens cooldowns |
| TacticalRules.BarsLast | src/rtscortex/cortex/tactical.py:589-694 | an evaluation keeps every waypoint bar that has not run out |
| TacticalRules.SelectionIsUnique | src/rtscortex/cortex/tactical.py:696-709 | only one waypoint can be selected |
| TacticalMeaning.SentHomeMeaning | src/rtscortex/cortex/tactical.py:721-812 | an actor is sent home if and only if it is unquarantined and may move, its durability is at most the threshold or a critical threat outnumbers it, it is not at home, and it has no retreat with the same tags and signature under a running cooldown |
| TacticalMeaning.EndangeredOnlyRetreat | src/rtscortex/cortex/tactical.py:180-269 | such an actor is ordered no attack and no search |
| TacticalMeaning.RetreatEnds | src/rtscortex/cortex/tactical.py:721-812 | the retreat of a present actor ends if and only if durability is at least the exit threshold, it is not outnumbered, has arrived, and its cooldown is over; otherwise it stays, and standing at home renews the cooldown |
| TacticalMeaning.RetreatOfTheAbsent | src/rtscortex/cortex/tactical.py:721-812 | an absent actor's retreat is forgotten exactly after the grace period |
| TacticalMeaning.AttackMeaning | src/rtscortex/cortex/tactical.py:180-269 | an attack on a target is ordered if and only if the actor is free to attack, not to retreat, the target is the one to hit - the previous focus while it can be hit, else the weakest - and it has no such order yet |
| TacticalMeaning.SearchesAfterwards | src/rtscortex/cortex/tactical.py:589-694 | which searches are kept, and by which step they move on |
| TacticalMeaning.SentSearchingMeaning | src/rtscortex/cortex/tactical.py:589-694 | an actor is sent searching if and only if the army is ready, it idles, has no way to go and no cooldown, has not just arrived, and some waypoint is open |
| TacticalMeaning.SearchPlaceMeaning | src/rtscortex/cortex/tactical.py:696-709 | it is sent to the open waypoint nearest to a known enemy structure, the smallest of the equally near; while none is known, to the first open one |
| TacticalMeaning.RememberedMeaning | src/rtscortex/cortex/tactical.py:711-719 | of each enemy structure the last sighting counts, and a dead one is forgotten |
| TacticalReports.FailuresAreCounted | src/rtscortex/cortex/tactical.py:329-380 | successive failures add up, and bar the actor from the target for the quarantine time from the retry limit on or at once when the target is lost |
| TacticalReports.EngagementAfterReport | src/rtscortex/cortex/tactical.py:326-380 | when an engagement is confirmed or ended, a focus lost and a target known to be gone |
| TacticalReports.ReportIsFor | src/rtscortex/cortex/tactical.py:479-503 | which of the actor's states a report is matched against, and when it is accepted |
| TacticalReports.DispatchedRetreatMeaning | src/rtscortex/cortex/tactical.py:415-469 | a dispatched retreat starts over, with the cooldown and the announcement of its commitment |
| TacticalReports.ArrivedRetreatMeaning | src/rtscortex/cortex/tactical.py:517-543 | a successful move arrives once, for the configured time, and so does its commitment |
| TacticalReports.UnarrivedRetreatMeaning | src/rtscortex/cortex/tactical.py:558-571 | a failed move prolongs the cooldown and nothing else changes |
| TacticalReports.DispatchedSearchMeaning | src/rtscortex/cortex/tactical.py:390-454 | a dispatch starts a search leg or suspends the search, and lifts no bar |
| TacticalReports.ReportedSearchMeaning | src/rtscortex/cortex/tactical.py:544-587 | a reached waypoint is closed for good, a failed one for the retry time |
| TacticalRuns.CommitmentArrivesOnce | src/rtscortex/cortex/tactical.py:415-469 | over every episode each commitment is announced at most once, across re-dispatch and actor loss |
| TacticalRuns.ArrivalsNeedDispatches | src/rtscortex/cortex/tactical.py:513-543 | between two arrivals of one actor lies a dispatch to it |
| TacticalRuns.UncommittedRetreatArrivesTwice | src/rtscortex/cortex/tactical.py:453-469 | for all members, threats and identifiers: an ordered episode that dispatches an actor with these alone and announces twice exists if and only if they carry no operation |
| TacticalRuns.EpisodeKeepsBounded | src/rtscortex/cortex/tactical.py:415-469 | with ordered loops no cooldown exceeds now plus the configured time |
| TacticalRuns.CooldownNeverMovesBack | src/rtscortex/cortex/tactical.py:415-469 | with ordered loops an actor's cooldown never moves back while its state lives or is replaced |
| TacticalRuns.CooldownMovesBackMeaning | src/rtscortex/cortex/tactical.py:415-469 | over every episode, in any order of loops, the cooldown of a living actor moves back if and only if it is dispatched with both its own time and its commitment's stored cooldown short of the current one |
| TacticalRuns.DisorderMovesCooldownBack | src/rtscortex/cortex/tactical.py:415-430 | with loops that run backwards that happens, whatever is dispatched |
| TacticalRuns.ArrivedCommitmentWaits | src/rtscortex/cortex/tactical.py:453-469 | whoever is dispatched under an arrived commitment waits for its cooldown and does not announce it again |
| SearchRuns.StaysShut | src/rtscortex/cortex/tactical.py:589-694 | evaluations, dispatches and reports about other waypoints keep a bar |
| SearchRuns.ReportedWaypointStaysClosed | src/rtscortex/cortex/tactical.py:545-587 | over every run of one search, a waypoint reported reached or failed is closed until its bar ends unless a command sends the actor there |
| SearchRuns.BarEndsOnTime | src/rtscortex/cortex/tactical.py:611-661 | and it opens again exactly at that loop |
| Candidates.AttackArguments | src/rtscortex/cortex/candidates.py:191-237 | a tactical attack gets precisely the listed arguments that hit a wanted enemy, weakest first |
| CandidatesMeaning.PlainArguments | src/rtscortex/cortex/candidates.py:191-204 | one empty argument list without names, none without a list, and the list as it is for other roles and actions |
| CandidatesMeaning.MoveArguments | src/rtscortex/cortex/candidates.py:203-217 | a tactical move: a retreat is offered the last listed argument, a given position what leads there, an enemy target all but the last if there is a choice, anything else the whole list |
| CandidatesMeaning.AttacksAimAtTheWeakest | src/rtscortex/cortex/candidates.py:216-237 | a tactical attack is offered exactly the listed wanted targets, and none before a weaker one |
| CandidatesMeaning.ActorsMeaning | src/rtscortex/cortex/candidates.py:182-188 | the actors tried are those requested that are on offer, in the order of the request, or else all on offer; nobody twice |
| Candidates.AddArguments | src/rtscortex/cortex/candidates.py:66-91 | the innermost loop adds each new valid argument once |
| Candidates.AddActors | src/rtscortex/cortex/candidates.py:62-91 | the middle loop covers the actors that are not busy |
| Candidates.AddActions | src/rtscortex/cortex/candidates.py:57-91 | the outer loop covers the available actions of the wanted name |
| Candidates.Compile | src/rtscortex/cortex/candidates.py:39-99 | refuses exactly stale intents and foreign progress; otherwise the nested loops compute the compiled list |
| Candidates.CandidatesAreTheOffers | src/rtscortex/cortex/candidates.py:39-99 | the candidates are exactly the offered, valid (action, free actor, argument) triples, each once, numbered from zero |
| Candidates.RanksPointAtTheirSource | src/rtscortex/cortex/candidates.py:240-278 | each rank points at the action, actor and argument it stands for, and preference among actions is never inverted |
| CandidatesMeaning.CompiledMeaning | src/rtscortex/cortex/candidates.py:39-99 | a triple is a candidate if and only if the intent asks for the action, it is on offer to an actor that is not busy with these arguments, and an attack is on an enemy the actor can hit; each once, numbered by position |
| CandidatesMeaning.RefusalMeaning | src/rtscortex/cortex/candidates.py:162-179 | when compilation is refused, and for what |
| Candidates.MinByIsUnique | src/rtscortex/cortex/executor.py:22-58 | with distinct ordinals the first minimum is the only one |
| Candidates.SelectionIsTheUniqueMinimum | src/rtscortex/cortex/executor.py:22-58 | the executor picks exactly the candidate ranked before every other |
| CandidatesMeaning.SelectionMeaning | src/rtscortex/cortex/executor.py:22-58 | the selection by goal progress, then playbook score, then the ranks, in this order |
| Candidates.PoliciesAgreeWhenTopScored | src/rtscortex/cortex/benchmark.py:36-48 | saved policy and executor agree if and only if the saved pick is top-scored in its goal class |
| Candidates.PoliciesAgreeOnCompiled | src/rtscortex/cortex/benchmark.py:36-48 | in particular on every compiled context |
| Candidates.PlaybookPartsThePolicies | src/rtscortex/cortex/benchmark.py:36-48 | a playbook score is enough to part them |
| Candidates.CommandsAreCandidates | src/rtscortex/cortex/candidates.py:101-132 | materializing succeeds exactly for a current, valid candidate of the context, and yields that candidate |
| CandidatesMeaning.CommandMeaning | src/rtscortex/cortex/candidates.py:101-132 | every field of the command that is materialized |
| Candidates.PipelineStaysLegal | src/rtscortex/cortex/candidates.py:39-132 | compile, select, materialize: abstains exactly when nothing is offered, else never fails and commands an offered action of a free actor |
| ProbeBatches.ChunksPartition | scripts/prepare_playbook_hard_qualification.py:265-268 | slicing loses nothing, fills all but the last slice, and needs ceil(n/k) of them |
| ProbeBatches.PartitionSucceeds | scripts/prepare_playbook_hard_qualification.py:234-268 | succeeds if and only if limits are in range, ids distinct and capacity sufficient |
| ProbeBatches.PartitionMeaning | scripts/prepare_playbook_hard_qualification.py:234-268 | the batches are the ranked list of all parents cut into full slices |
| ProbeBatches.PartitionForgetsOrder | scripts/prepare_playbook_hard_qualification.py:234-268 | the listing order of the parents does not matter |
| ProbeBatches.VerifiedMeaning | scripts/prepare_playbook_hard_qualification.py:277-322 | verified if and only if the batches are an ordered, duplicate-free, bounded partition |
| ProbeBatches.PreparedPlansAreVerified | scripts/prepare_playbook_hard_qualification.py:594-633 | every prepared plan is verified, so the integrity failure cannot happen |
| ProbeBatches.ValidatePlan | scripts/analyze_playbook_hard_qualification.py:388-520 | the checks with early raises accept exactly the accepted plans, and then map each parent to its batch; otherwise the first fault is named |
| ProbeBatches.CheckBatches | scripts/analyze_playbook_hard_qualification.py:445-519 | the loop over batches accepts exactly well-formed, disjoint batches that make up the eligible list |
| ProbeBatches.RoundsDecide | scripts/analyze_playbook_hard_qualification.py:445-519 | the same for the loop's specification |
| ProbeBatches.AcceptedIsVerified | scripts/analyze_playbook_hard_qualification.py:445-519 | whatever the validator accepts, the integrity record calls verified |
| ProbeBatches.PreparedPlansAreAccepted | scripts/analyze_playbook_hard_qualification.py:388-520 | whatever preparation writes, the validator accepts |
| BatchStatus.RowRoundsDecide | scripts/analyze_playbook_hard_qualification.py:139-215 | the loop over rows accepts exactly rows that fit and are pairwise different |
| BatchStatus.IndexRows | scripts/analyze_playbook_hard_qualification.py:111-229 | succeeds if and only if the well-attested rows biject onto batches times seeds, and then indexes each row; otherwise the first fault is named |
| BatchMeaning.PlaceMeaning | scripts/prepare_playbook_hard_qualification.py:234-268 | a rule goes to the batch and place that the number of rules ahead of it gives |
| BatchMeaning.RefusalMeaning | scripts/prepare_playbook_hard_qualification.py:234-268 | why a partition is refused: repeated ids, or how many batches too many it would need |
| BatchMeaning.PreparedMeaning | scripts/prepare_playbook_hard_qualification.py:594-633 | what a prepared plan says of batches, names, sizes, files, ranks and counts |
| BatchMeaning.PlanFaultMeaning | scripts/analyze_playbook_hard_qualification.py:388-520 | each fault of a plan names something that is amiss |
| BatchMeaning.AttestedMeaning | scripts/analyze_playbook_hard_qualification.py:139-215 | a row is accepted by itself if and only if it names a batch with its number and a seed of 0, 1, 2, and attests what the plan says |
| BatchMeaning.StatusFaultMeaning | scripts/analyze_playbook_hard_qualification.py:111-229 | each fault of status rows names something that is amiss |
| CorpusModel.SamplesAreWellMade | src/rtscortex/cortex/dataset.py:662-826 | every sample's id, semantic fingerprint and split are those its content calls for |
| CorpusMeaning.SamplesAreRecorded | src/rtscortex/cortex/dataset.py:662-711 | every sample comes of a selection whose intent, candidates and observation are recorded under its keys and belong together |
| CorpusMeaning.SamplesAreLabelled | src/rtscortex/cortex/dataset.py:712-826 | the candidates are those listed, position by position, and the label names the one at the position whose raw id the selection names, or none exactly when the selection names none; status, reason, executor and latency are the selection's |
| CorpusMeaning.SamplesAreDescribed | src/rtscortex/cortex/dataset.py:740-826 | run, episode, step, game loop and the intent's fields are those of the events |
| CorpusMeaning.CompactedMeaning | src/rtscortex/cortex/dataset.py:920-937 | the features count own units, own structures and enemies by kind, each separately, with production, upgrades, action names and alerts |
| CorpusMeaning.SamplesAreSummaries | src/rtscortex/cortex/dataset.py:736-826 | the features of a sample are those of the recorded observation |
| CorpusMeaning.SamplesTellTheEnd | src/rtscortex/cortex/dataset.py:846-917 | command and outcome are those of the one lineage of the selection, and of its execution or else its terminal lifecycle |
| CorpusMeaning.SamplesAreDigested | src/rtscortex/cortex/dataset.py:740-826 | what each id of a sample digests |
| CorpusMeaning.SamplesTell | src/rtscortex/cortex/dataset.py:662-826 | all of these about every sample |
| CorpusMeaning.SampledMeaning | src/rtscortex/cortex/dataset.py:662-826 | a selection becomes a sample if and only if its events are recorded and belong together, it names what is listed, nothing contradicts how its command ended, and the candidates can be told apart |
| CorpusMeaning.MissingIsNamed | src/rtscortex/cortex/dataset.py:668-678 | a missing intent, candidate set or observation is named as such, in this order |
| CorpusMeaning.MismatchIsNamed | src/rtscortex/cortex/dataset.py:679-705 | events that do not belong together are refused for the first thing amiss |
| CorpusMeaning.OutsideIsNamed | src/rtscortex/cortex/dataset.py:706-711 | so is a selection of a candidate that is not listed |
| CorpusMeaning.LinkRefusalIsNamed | src/rtscortex/cortex/dataset.py:846-917 | and a command lineage or end that contradicts the selection |
| CorpusBuild.IndexEvents | src/rtscortex/cortex/dataset.py:559-626 | the loop computes the fold of insertions |
| CorpusBuild.IndexMeaning | src/rtscortex/cortex/dataset.py:559-626 | indexing succeeds if and only if no two events share an identity, and then every lookup finds the one event |
| CorpusMeaning.IndexHoldsExactly | src/rtscortex/cortex/dataset.py:559-626 | the index holds an event under a key if and only if the journals do and it has that kind and identity |
| CorpusMeaning.IndexRefusedMeaning | src/rtscortex/cortex/dataset.py:559-626 | indexing is refused if and only if two events have one kind and identity |
| CorpusMeaning.LineagesHeldExactly | src/rtscortex/cortex/dataset.py:559-626 | the lineages found for a selection are those the journals hold for it |
| CorpusBuild.BuildSamples | src/rtscortex/cortex/dataset.py:629-659 | the loop takes every selection once |
| CorpusBuild.BuildConserves | src/rtscortex/cortex/dataset.py:629-659 | samples plus exclusions is the number of selections, with unique selections and as many duplicates as counted |
| CorpusMeaning.BuiltMeaning | src/rtscortex/cortex/dataset.py:629-659 | the samples are those of the selections that are the first with their id and the first whose sample has its label id |
| CorpusManifest.ExclusionsMeaning | src/rtscortex/cortex/dataset.py:629-659 | every exclusion counter is the number of selections excluded for its reason |
| CorpusBuild.GroupBySemantic | src/rtscortex/cortex/dataset.py:521-531 | the dictionary groups samples by fingerprint, in order |
| CorpusBuild.KeepOwned | src/rtscortex/cortex/dataset.py:531-537 | one group keeps exactly the samples of its owner's split |
| CorpusBuild.ExcludeCrossSplit | src/rtscortex/cortex/dataset.py:521-538 | what remains is, up to order, what every group's owner split keeps; every other sample is one exclusion |
| CorpusBuild.StayingIsIsolated | src/rtscortex/cortex/dataset.py:521-538 | afterwards equal fingerprints share a split |
| CorpusBuild.OwnersStay | src/rtscortex/cortex/dataset.py:521-538 | and no fingerprint disappears |
| CorpusMeaning.StaysMeaning | src/rtscortex/cortex/dataset.py:521-538 | a sample stays if and only if it is in the split of the smallest episode that shares its features |
| CorpusFiles.ByPlaceIsAKeyOrder | src/rtscortex/cortex/dataset.py:1137-1144 | the sample order is a strict weak order |
| CorpusFiles.SortedStays | src/rtscortex/cortex/dataset.py:1137-1144 | sorting a sorted split changes nothing |
| CorpusFiles.CountersForgetOrder | src/rtscortex/cortex/dataset.py:987-1044 | counters, distributions and duplicate metrics do not depend on sample order |
| CorpusManifest.FilesAreOrdered | src/rtscortex/cortex/dataset.py:1137-1144 | a split file lists samples of its split, by run, then episode, then step, then label id, each strictly after those before it |
| CorpusManifest.ConservationMeaning | src/rtscortex/cortex/dataset.py:987-1016 | the conservation counters are numbers of samples that chose, were commanded and ended |
| CorpusManifest.DistributionMeaning | src/rtscortex/cortex/dataset.py:1019-1044 | the distributions are numbers of samples, and of candidates, of each kind |
| CorpusManifest.DuplicatesMeaning | src/rtscortex/cortex/dataset.py:1066-1081 | the duplicate metrics are numbers of samples that repeat an earlier one's content, observation or features |
| CorpusVerify.CheckSplit | src/rtscortex/cortex/dataset.py:406-446 | names exactly what is amiss with a split file and its samples; nothing exactly when the file is intact, sorted and its samples sound |
| CorpusVerify.CheckIsolation | src/rtscortex/cortex/dataset.py:448-453 | names exactly the episodes and the fingerprints that are in two splits |
| CorpusVerify.IsolationMeaning | src/rtscortex/cortex/dataset.py:448-453 | the dictionary-of-sets test is isolation |
| CorpusVerify.CheckPolicy | src/rtscortex/cortex/dataset.py:454-461 | names exactly the samples that are not in the split their episode hashes to |
| CorpusVerify.CheckUniqueness | src/rtscortex/cortex/dataset.py:1047-1063 | repeated ids, repeated selections, and exactly the samples whose label is not among their candidates |
| CorpusVerify.CheckCounters | src/rtscortex/cortex/dataset.py:463-489 | names exactly the recorded counters that the samples contradict |
| CorpusVerify.Verify | src/rtscortex/cortex/dataset.py:381-501 | the verifier reports exactly what is amiss, and nothing if and only if the corpus is sound |
| CorpusTheorems.OrderedIsFit | src/rtscortex/cortex/dataset.py:287-330 | what is written is sorted, unique, isolated and well made, and the reasons count exactly the rest |
| CorpusTheorems.EmptyOnlyWithoutSamples | src/rtscortex/cortex/dataset.py:320-333 | de-duplication never empties a corpus |
| CorpusTheorems.WrittenIsSound | src/rtscortex/cortex/dataset.py:330-351 | fit samples are written as a sound corpus |
| CorpusTheorems.BuiltIsSound | src/rtscortex/cortex/dataset.py:287-357 | every corpus that building yields is sound |
| CorpusTheorems.Build | src/rtscortex/cortex/dataset.py:287-357 | the builder never fails with its own verification error |
| CorpusMeaning.CorpusTellsTheJournals | src/rtscortex/cortex/dataset.py:287-357 | a sample is in the corpus if and only if some selection of the journals contributes it and the smallest episode with its features is in its split, and it tells what the journals record |
| CorpusManifest.ManifestMeaning | src/rtscortex/cortex/dataset.py:287-357 | the counters of a corpus, counted over the samples its files hold and the selections of the journals, and every exclusion reason with its number |
| CorpusCodec.PremisesHold | src/rtscortex/cortex/dataset.py:939-966 | whatever the other digests are, a codec that reads back every list of samples and a sample-id digest that tells payloads apart exist |
| CorpusSource.CollectOrdinals | src/rtscortex/cortex/dataset.py:1241-1258 | each intent's candidate ids are mapped to their positions |
| CorpusManifest.SourceEntriesMeaning | src/rtscortex/cortex/dataset.py:1241-1373 | the fingerprint digests one entry per event in order, and of its payload only what is listed: no id, text, picture or tag; a chosen candidate as its last position in the last list of its intent |
| CorpusPrivacy.IndexedStaySame | src/rtscortex/cortex/dataset.py:559-626 | alike events into alike indexes: both refuse or both stay alike |
| CorpusPrivacy.SamplesSame | src/rtscortex/cortex/dataset.py:662-826 | alike selections give the identical sample or the identical refusal |
| CorpusPrivacy.AllSamplesSame | src/rtscortex/cortex/dataset.py:629-659 | alike journals give identical samples, exclusions and duplicates |
| CorpusPrivacy.SourceEntriesSame | src/rtscortex/cortex/dataset.py:1241-1373 | and the identical source fingerprint |
| CorpusPrivacy.CorpusIsPrivate | src/rtscortex/cortex/dataset.py:287-357 | journals that differ only by consistent injective renamings and redacted values yield the same files and manifest, or both are refused |

## Left out

Simplifications that hold throughout:

- Floating-point rounding: scores, health and distances are exact reals.
- Validation of contracts by pydantic: inputs arrive typed and within their declared ranges; error texts and evidence strings are not modelled.
- Hashes, canonical JSON text, files, SQLite and git: digests are function parameters, a file is its decoded content and a digest of it, prompt text is its length.
- Clocks, latency fields, the FastAPI transport, providers, configuration loading, the command line and the web front end.

Members whose contract says less than the code does:

- Threat.FreshMeaning: lists when the fresh level is forced; `ThreatMeaning` states score, level and hold in all cases.
- CorpusTheorems.Build: needs the sample-id digest to be injective and the sample codec to decode what it encodes, which `CorpusCodec.PremisesHold` shows can be had; the writing and reading of files is not modelled.
- CorpusVerify.Verify: without `verify_sources`, which reloads the journals; an undecodable manifest is not modelled.
- CorpusPrivacy.CorpusIsPrivate: when both journals repeat an identity, the two error messages may name differently renamed identities.
- CorpusPrivacy.SourceEntriesSame: the run ids, episode keys and protocol counts listed beside the fingerprint are not modelled.
- ProbeBatches.ValidatePlan: the plan's header comparisons and the contents and hashes of baseline and probe databases are not modelled; the partition checks are.
- ProbeBatches.PreparedPlansAreVerified: the creation of the probe databases is not modelled.
- Prerequisites.RuntimeFrontier: the marking of plan steps as blocked or obsolete around it is not modelled.
- LiveStream.NoSilentGapInTheStream: heartbeats and disconnects are not modelled; ids of stored events are consecutive; a store that refuses an event is part of the claim, not excluded by it.
- Tactical.TacticalAgent.RecordMove: like the code, a move report of an actor with both a retreat and a search goes to the retreat even if the search's command matched; no claim is made that this attribution is right.
- Tactical.TacticalAgent.RecordDispatch: tags are taken as normalised and a minimap move's argument as a position; the numeric parsing of tags inside commitment ids is not modelled.
- Tactical.TacticalAgent.constructor: the range checks on its settings are not modelled.
- SearchRuns.ReportedWaypointStaysClosed: follows one search state; a search that is forgotten because its actor may not search forgets its bars too.
- Defense.DefenseAgent.ProposeSourceIntents: the choice of target and rally position per offer and the doctrine's lists are parameters, and coordinates are texts; diagnostics are not modelled.
- Candidates.CandidatesAreTheOffers: candidate ids are the triples they digest.

Parts of the repository that are not modelled:

- Role coordinator and intent adapter: routing of an intent to roles by domain and objective text.
- Arithmetic benchmark loop: percentiles and agreement counters over a corpus.
- Corpus loading and source journal re-verification.
- Placement, terminal-phase detection, the goal verifier, playbook matching and the language-model agents.
- The experiment and canary analysis scripts: long conjunctions of field equalities.
