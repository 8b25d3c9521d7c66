/** Which unsupported macro steps the plan depends on: transitive prerequisites over
    possibly cyclic action specs, and the runtime frontier that rests on them. */
module Prerequisites {
  import opened Ordering

  /** Targets are already normalised. */
  datatype ActionSpec = ActionSpec(name: string, effectTarget: string, prerequisites: seq<string>)

  /** `{spec.name: spec for spec in specs}`: the last spec of a name wins. */
  function SpecNamed(specs: seq<ActionSpec>, name: string): (r: Option<ActionSpec>)
    ensures r.Some? ==> r.value in specs && r.value.name == name
  {
    if specs == [] then None
    else if specs[|specs| - 1].name == name then Some(specs[|specs| - 1])
    else SpecNamed(specs[..|specs| - 1], name)
  }

  /** `{target: spec ...}`: the last spec with an effect wins. */
  function ProducerOf(specs: seq<ActionSpec>, target: string): (r: Option<ActionSpec>)
    ensures r.Some? ==> r.value in specs && r.value.effectTarget == target
  {
    if specs == [] then None
    else if specs[|specs| - 1].effectTarget == target then Some(specs[|specs| - 1])
    else ProducerOf(specs[..|specs| - 1], target)
  }

  predicate Needs(specs: seq<ActionSpec>, action: string, target: string) {
    SpecNamed(specs, action).Some? && target in SpecNamed(specs, action).value.prerequisites
  }

  /** `target` is needed by `action` through exactly `hops` producing actions. */
  ghost predicate NeedsThrough(specs: seq<ActionSpec>, action: string, target: string, hops: nat)
    decreases hops
  {
    if hops == 0 then Needs(specs, action, target)
    else exists between ::
      && Needs(specs, action, between)
      && ProducerOf(specs, between).Some?
      && NeedsThrough(specs, ProducerOf(specs, between).value.name, target, hops - 1)
  }

  /** `target` is a transitive prerequisite of `action`. */
  ghost predicate Reachable(specs: seq<ActionSpec>, action: string, target: string) {
    exists hops :: NeedsThrough(specs, action, target, hops)
  }

  lemma {:induction false} NeedsThroughExtends(specs: seq<ActionSpec>, action: string, between: string, hops: nat,
                                               target: string)
    requires NeedsThrough(specs, action, between, hops) && ProducerOf(specs, between).Some?
    requires Needs(specs, ProducerOf(specs, between).value.name, target)
    ensures NeedsThrough(specs, action, target, hops + 1)
    decreases hops
  {
    if hops == 0 {
      assert NeedsThrough(specs, ProducerOf(specs, between).value.name, target, 0);
    } else {
      var first :| && Needs(specs, action, first) && ProducerOf(specs, first).Some?
                   && NeedsThrough(specs, ProducerOf(specs, first).value.name, between, hops - 1);
      NeedsThroughExtends(specs, ProducerOf(specs, first).value.name, between, hops - 1, target);
    }
  }

  /** The start action, or the producer of something the start action needs. */
  ghost predicate OnTheWay(specs: seq<ActionSpec>, start: string, action: string) {
    action == start || exists t :: Reachable(specs, start, t) && ProducerOf(specs, t).Some?
                         && ProducerOf(specs, t).value.name == action
  }

  lemma NeedOnTheWay(specs: seq<ActionSpec>, start: string, action: string, target: string)
    requires OnTheWay(specs, start, action) && Needs(specs, action, target)
    ensures Reachable(specs, start, target)
  {
    if action == start {
      assert NeedsThrough(specs, start, target, 0);
    } else {
      var t :| Reachable(specs, start, t) && ProducerOf(specs, t).Some? && ProducerOf(specs, t).value.name == action;
      var hops :| NeedsThrough(specs, start, t, hops);
      NeedsThroughExtends(specs, start, t, hops, target);
    }
  }

  /** Everything visited has had its needs discovered, and every producer of a discovered
      target is visited or waiting. */
  ghost predicate Explored(specs: seq<ActionSpec>, discovered: set<string>, visited: set<string>,
                           pending: seq<string>) {
    && (forall a, t :: a in visited && Needs(specs, a, t) ==> t in discovered)
    && (forall t :: t in discovered ==> Followed(specs, t, visited, pending))
  }

  ghost predicate Followed(specs: seq<ActionSpec>, target: string, visited: set<string>, pending: seq<string>) {
    ProducerOf(specs, target).Some? ==>
      ProducerOf(specs, target).value.name in visited || ProducerOf(specs, target).value.name in pending
  }

  lemma {:induction false} ExploredIsComplete(specs: seq<ActionSpec>, discovered: set<string>, visited: set<string>,
                                              action: string, target: string, hops: nat)
    requires Explored(specs, discovered, visited, []) && action in visited
    requires NeedsThrough(specs, action, target, hops)
    ensures target in discovered
    decreases hops
  {
    if hops > 0 {
      var between :| && Needs(specs, action, between) && ProducerOf(specs, between).Some?
                     && NeedsThrough(specs, ProducerOf(specs, between).value.name, target, hops - 1);
      assert Followed(specs, between, visited, []);
      ExploredIsComplete(specs, discovered, visited, ProducerOf(specs, between).value.name, target, hops - 1);
    }
  }

  function Names(specs: seq<ActionSpec>): set<string> {
    set s | s in specs :: s.name
  }

  /** What holds between two rounds of the worklist. */
  ghost predicate Searching(specs: seq<ActionSpec>, start: string, discovered: set<string>,
                            visited: set<string>, pending: seq<string>) {
    && visited <= {start} + Names(specs)
    && (forall a :: a in pending ==> a in {start} + Names(specs))
    && (start in visited || start in pending)
    && Explored(specs, discovered, visited, pending)
    && (forall t :: t in discovered ==> Reachable(specs, start, t))
    && (forall a :: a in visited || a in pending ==> OnTheWay(specs, start, a))
  }

  /** The worklist terminates on cyclic specs and finds exactly the reachable targets. */
  method TransitivePrerequisites(specs: seq<ActionSpec>, start: string) returns (discovered: set<string>)
    ensures forall t :: t in discovered <==> Reachable(specs, start, t)
  {
    discovered := {};
    var pending := [start];
    var visited: set<string> := {};
    while pending != []
      invariant Searching(specs, start, discovered, visited, pending)
      decreases |{start} + Names(specs) - visited|, |pending|
    {
      var current := pending[|pending| - 1];
      if current in visited {
        pending := pending[..|pending| - 1];
        continue;
      }
      VisitShrinks({start} + Names(specs), visited, current);
      discovered, pending := Visit(specs, start, discovered, visited, pending);
      visited := visited + {current};
    }
    forall t | Reachable(specs, start, t) ensures t in discovered {
      var hops :| NeedsThrough(specs, start, t, hops);
      ExploredIsComplete(specs, discovered, visited, start, t, hops);
    }
  }

  lemma VisitShrinks(universe: set<string>, visited: set<string>, current: string)
    requires current in universe && current !in visited
    ensures |universe - (visited + {current})| < |universe - visited|
  {
    assert universe - visited == (universe - (visited + {current})) + {current};
  }

  /** Visit the last pending action: its needs are discovered, their producers queued. */
  method Visit(specs: seq<ActionSpec>, start: string, before: set<string>, ghost visited: set<string>,
               waiting: seq<string>)
    returns (discovered: set<string>, pending: seq<string>)
    requires waiting != [] && Searching(specs, start, before, visited, waiting)
    ensures Searching(specs, start, discovered, visited + {waiting[|waiting| - 1]}, pending)
  {
    var current := waiting[|waiting| - 1];
    ghost var now := visited + {current};
    pending := waiting[..|waiting| - 1];
    assert waiting == pending + [current];
    discovered := before;
    forall t | t in before ensures Followed(specs, t, now, pending) {
      assert Followed(specs, t, visited, waiting);
    }
    match SpecNamed(specs, current)
    case None =>
    case Some(spec) =>
      forall t | t in spec.prerequisites ensures Reachable(specs, start, t) {
        NeedOnTheWay(specs, start, current, t);
      }
      discovered, pending := ExpandNeeds(specs, start, current, spec.prerequisites, discovered, now, pending);
  }

  /** The inner loop: discover each need and queue its producer. */
  method ExpandNeeds(specs: seq<ActionSpec>, ghost start: string, ghost current: string, needs: seq<string>,
                     before: set<string>, ghost visited: set<string>, waiting: seq<string>)
    returns (discovered: set<string>, pending: seq<string>)
    requires forall t :: t in needs ==> Reachable(specs, start, t)
    requires forall t :: t in before ==> Followed(specs, t, visited, waiting)
    requires forall a :: a in waiting ==> OnTheWay(specs, start, a)
    ensures discovered == before + (set t | t in needs)
    ensures forall t :: t in discovered ==> Followed(specs, t, visited, pending)
    ensures forall a :: a in pending ==> OnTheWay(specs, start, a) && (a in waiting || a in Names(specs))
    ensures forall a :: a in waiting ==> a in pending
  {
    discovered, pending := before, waiting;
    for k := 0 to |needs|
      invariant discovered == before + (set t | t in needs[..k])
      invariant forall t :: t in discovered ==> Followed(specs, t, visited, pending)
      invariant forall a :: a in pending ==> OnTheWay(specs, start, a) && (a in waiting || a in Names(specs))
      invariant forall a :: a in waiting ==> a in pending
    {
      var target := needs[k];
      assert needs[..k + 1] == needs[..k] + [target];
      if target in discovered {
        continue;
      }
      discovered := discovered + {target};
      match ProducerOf(specs, target)
      case None =>
      case Some(producer) => pending := pending + [producer.name];
    }
    assert needs[..|needs|] == needs;
  }

  // ----- dependency of an unsupported step ----------------------------------------------

  datatype Classification = ParseError | UnsupportedByRuntime | Obsolete | OtherClass

  datatype Assessment = Assessment(
    ordinal: nat, sourceAction: string, sourceTarget: string, classification: Classification,
    managedAutomatically: bool, runtimeAction: Option<string>)

  ghost predicate NeededLater(specs: seq<ActionSpec>, target: string, later: seq<Assessment>) {
    exists a :: a in later && a.runtimeAction.Some? && Reachable(specs, a.runtimeAction.value, target)
  }

  method UnsupportedIsDependency(specs: seq<ActionSpec>, unsupported: Assessment, later: seq<Assessment>)
    returns (r: bool)
    ensures r <==> NeededLater(specs, unsupported.sourceTarget, later)
  {
    for k := 0 to |later|
      invariant !NeededLater(specs, unsupported.sourceTarget, later[..k])
    {
      assert later[..k + 1] == later[..k] + [later[k]];
      match later[k].runtimeAction
      case None =>
      case Some(action) =>
        var discovered := TransitivePrerequisites(specs, action);
        if unsupported.sourceTarget in discovered {
          assert later[k] in later;
          return true;
        }
    }
    assert later[..|later|] == later;
    return false;
  }

  predicate AssessedBefore(a: Assessment, b: Assessment) {
    a.ordinal < b.ordinal || (a.ordinal == b.ordinal && StringLess(a.sourceAction, b.sourceAction))
  }

  function InPlanOrder(assessments: seq<Assessment>): seq<Assessment> {
    Sort(assessments, (a, b) => AssessedBefore(a, b))
  }

  const MAX_FRONTIER_STEPS: nat := 5

  function FrontierStepLimit(horizonSeconds: nat): nat {
    var requested := (horizonSeconds + 29) / 30;
    var atLeastOne := if requested > 1 then requested else 1;
    if atLeastOne < MAX_FRONTIER_STEPS then atLeastOne else MAX_FRONTIER_STEPS
  }

  /** One step per started half minute of horizon, never none and never more than five. */
  lemma FrontierStepLimitMeaning(horizonSeconds: nat)
    requires horizonSeconds >= 1
    ensures 1 <= FrontierStepLimit(horizonSeconds) <= MAX_FRONTIER_STEPS
    ensures horizonSeconds <= 150 ==>
      30 * (FrontierStepLimit(horizonSeconds) - 1) < horizonSeconds <= 30 * FrontierStepLimit(horizonSeconds)
  {
  }

  /** Step `k` of the bounded window stops the plan. */
  ghost predicate Blocks(specs: seq<ActionSpec>, window: seq<Assessment>, k: nat)
    requires k < |window|
  {
    match window[k].classification
    case ParseError => true
    case UnsupportedByRuntime =>
      !window[k].managedAutomatically && NeededLater(specs, window[k].sourceTarget, window[k + 1..])
    case Obsolete => false
    case OtherClass => true
  }

  function Window(assessments: seq<Assessment>, horizonSeconds: nat): seq<Assessment> {
    var ordered := InPlanOrder(assessments);
    var limit := FrontierStepLimit(horizonSeconds);
    if |ordered| <= limit then ordered else ordered[..limit]
  }

  /** The frontier is the first blocking step of the window, which was passed over up to
      there. */
  ghost predicate IsFrontier(specs: seq<ActionSpec>, window: seq<Assessment>, frontier: Option<nat>) {
    && (frontier.Some? ==> frontier.value < |window| && Blocks(specs, window, frontier.value))
    && forall j :: 0 <= j < (if frontier.Some? then frontier.value else |window|) ==> !Blocks(specs, window, j)
  }

  method RuntimeFrontier(specs: seq<ActionSpec>, assessments: seq<Assessment>, horizonSeconds: nat)
    returns (frontier: Option<nat>)
    ensures IsFrontier(specs, Window(assessments, horizonSeconds), frontier)
  {
    var window := Window(assessments, horizonSeconds);
    for k := 0 to |window|
      invariant forall j :: 0 <= j < k ==> !Blocks(specs, window, j)
    {
      match window[k].classification
      case ParseError => return Some(k);
      case UnsupportedByRuntime =>
        if window[k].managedAutomatically {
          continue;
        }
        var needed := UnsupportedIsDependency(specs, window[k], window[k + 1..]);
        if needed {
          return Some(k);
        }
      case Obsolete => continue;
      case OtherClass => return Some(k);
    }
    return None;
  }

  /** What the frontier passes over is out of the way: nothing at the frontier or later in
      the window needs an unsupported, unmanaged step before it, directly or through
      others, and every other step before it is managed or obsolete. */
  lemma SkippedStepsAreIndependent(specs: seq<ActionSpec>, assessments: seq<Assessment>, horizonSeconds: nat,
                                   frontier: Option<nat>, j: nat)
    requires var window := Window(assessments, horizonSeconds);
      IsFrontier(specs, window, frontier) && j < (if frontier.Some? then frontier.value else |window|)
    ensures var window := Window(assessments, horizonSeconds);
      || window[j].classification == Obsolete
      || (window[j].classification == UnsupportedByRuntime
          && (window[j].managedAutomatically
              || forall l :: j < l < |window| && window[l].runtimeAction.Some? ==>
                   !Reachable(specs, window[l].runtimeAction.value, window[j].sourceTarget)))
  {
    var window := Window(assessments, horizonSeconds);
    assert !Blocks(specs, window, j);
    forall l | j < l < |window| ensures window[l] in window[j + 1..] {
      assert window[l] == window[j + 1..][l - j - 1];
    }
  }
}
