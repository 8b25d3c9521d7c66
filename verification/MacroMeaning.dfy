/** What the macro projection means: the prerequisites of an action as a least closed set, the
    frontier step by step, merged runs, and projected repeats. */
module MacroMeaning {
  import opened CumulativeTargets
  import opened Ordering
  import opened Prerequisites

  // ----- prerequisites ------------------------------------------------------------------

  /** The i-th spec is the one that a name stands for: no later one has the name. */
  ghost predicate StandsFor(specs: seq<ActionSpec>, i: int, name: string) {
    0 <= i < |specs| && specs[i].name == name && forall j :: i < j < |specs| ==> specs[j].name != name
  }

  /** The i-th spec is the one that produces a target: no later one has the effect. */
  ghost predicate Produces(specs: seq<ActionSpec>, i: int, target: string) {
    0 <= i < |specs| && specs[i].effectTarget == target && forall j :: i < j < |specs| ==>
    specs[j].effectTarget != target
  }

  /** `targets` holds everything the spec of `action` asks for. */
  ghost predicate Covers(specs: seq<ActionSpec>, targets: set<string>, action: string) {
    forall i, t :: StandsFor(specs, i, action) && t in specs[i].prerequisites ==> t in targets
  }

  /** `targets` holds what `action` asks for, and what the producers of its members ask for. */
  ghost predicate ClosedFrom(specs: seq<ActionSpec>, targets: set<string>, action: string) {
    && Covers(specs, targets, action)
    && forall i, t :: t in targets && Produces(specs, i, t) ==> Covers(specs, targets, specs[i].name)
  }

  lemma {:induction false} NamedMeaning(specs: seq<ActionSpec>, name: string)
    ensures forall i :: StandsFor(specs, i, name) ==> SpecNamed(specs, name) == Some(specs[i])
    ensures SpecNamed(specs, name).Some? ==>
      exists i :: StandsFor(specs, i, name) && SpecNamed(specs, name) == Some(specs[i])
  {
    if specs != [] {
      var n := |specs| - 1;
      var init := specs[..n];
      NamedMeaning(init, name);
      forall i | StandsFor(specs, i, name) ensures SpecNamed(specs, name) == Some(specs[i]) {
        if i < n {
          assert specs[n].name != name;
          assert StandsFor(init, i, name);
        }
      }
      if SpecNamed(specs, name).Some? {
        if specs[n].name == name {
          assert StandsFor(specs, n, name);
        } else {
          var i :| StandsFor(init, i, name) && SpecNamed(init, name) == Some(init[i]);
          assert StandsFor(specs, i, name);
        }
      }
    }
  }

  lemma {:induction false} ProducerMeaning(specs: seq<ActionSpec>, target: string)
    ensures forall i :: Produces(specs, i, target) ==> ProducerOf(specs, target) == Some(specs[i])
    ensures ProducerOf(specs, target).Some? ==>
      exists i :: Produces(specs, i, target) && ProducerOf(specs, target) == Some(specs[i])
  {
    if specs != [] {
      var n := |specs| - 1;
      var init := specs[..n];
      ProducerMeaning(init, target);
      forall i | Produces(specs, i, target) ensures ProducerOf(specs, target) == Some(specs[i]) {
        if i < n {
          assert specs[n].effectTarget != target;
          assert Produces(init, i, target);
        }
      }
      if ProducerOf(specs, target).Some? {
        if specs[n].effectTarget == target {
          assert Produces(specs, n, target);
        } else {
          var i :| Produces(init, i, target) && ProducerOf(init, target) == Some(init[i]);
          assert Produces(specs, i, target);
        }
      }
    }
  }

  lemma CoversMeaning(specs: seq<ActionSpec>, targets: set<string>, action: string)
    ensures Covers(specs, targets, action) <==> forall t :: Needs(specs, action, t) ==> t in targets
  {
    NamedMeaning(specs, action);
  }

  lemma {:induction false} ReachedInClosed(specs: seq<ActionSpec>, targets: set<string>, start: string, action: string,
                                           target: string, hops: nat)
    requires ClosedFrom(specs, targets, start) && Covers(specs, targets, action)
    requires NeedsThrough(specs, action, target, hops)
    ensures target in targets
    decreases hops
  {
    CoversMeaning(specs, targets, action);
    if hops > 0 {
      var between :| && Needs(specs, action, between) && ProducerOf(specs, between).Some?
                     && NeedsThrough(specs, ProducerOf(specs, between).value.name, target, hops - 1);
      ProducerMeaning(specs, between);
      var i :| Produces(specs, i, between) && ProducerOf(specs, between) == Some(specs[i]);
      ReachedInClosed(specs, targets, start, specs[i].name, target, hops - 1);
    }
  }

  /** The transitive prerequisites of an action are the least set that holds what it asks for
      and, with each member, what the producer of that member asks for. */
  lemma PrerequisitesAreLeast(specs: seq<ActionSpec>, start: string, found: set<string>)
    requires forall t :: t in found <==> Reachable(specs, start, t)
    ensures ClosedFrom(specs, found, start)
    ensures forall targets :: ClosedFrom(specs, targets, start) ==> found <= targets
  {
    CoversMeaning(specs, found, start);
    forall t | Needs(specs, start, t) ensures t in found {
      assert NeedsThrough(specs, start, t, 0);
    }
    forall i, t | t in found && Produces(specs, i, t) ensures Covers(specs, found, specs[i].name) {
      ProducerMeaning(specs, t);
      var hops :| NeedsThrough(specs, start, t, hops);
      forall u | Needs(specs, specs[i].name, u) ensures u in found {
        NeedsThroughExtends(specs, start, t, hops, u);
      }
      CoversMeaning(specs, found, specs[i].name);
    }
    forall targets | ClosedFrom(specs, targets, start) ensures found <= targets {
      forall t | t in found ensures t in targets {
        var hops :| NeedsThrough(specs, start, t, hops);
        ReachedInClosed(specs, targets, start, start, t, hops);
      }
    }
  }

  // ----- the frontier -------------------------------------------------------------------

  /** Ahead in the plan: by ordinal, and then by action. */
  ghost predicate Ahead(a: Assessment, b: Assessment) {
    a.ordinal < b.ordinal || (a.ordinal == b.ordinal && StringLess(a.sourceAction, b.sourceAction))
  }

  lemma PlanOrderIsKeyOrder()
    ensures KeyOrder<Assessment>((a, b) => AssessedBefore(a, b))
  {
    forall a: Assessment, b: Assessment ensures AssessedBefore(a, b) ==> !AssessedBefore(b, a) {
      StringTrichotomy(a.sourceAction, b.sourceAction);
    }
    forall a: Assessment, b: Assessment, c: Assessment | AssessedBefore(a, c)
      ensures AssessedBefore(a, b) || AssessedBefore(b, c)
    {
      StringTrichotomy(a.sourceAction, b.sourceAction);
      if StringLess(b.sourceAction, a.sourceAction) && StringLess(a.sourceAction, c.sourceAction) {
        StringTransitive(b.sourceAction, a.sourceAction, c.sourceAction);
      }
    }
  }

  /** How many steps a horizon admits: one for each started half minute, from one to five. */
  function Admitted(horizonSeconds: nat): nat {
    if horizonSeconds > 120 then 5
    else if horizonSeconds > 90 then 4
    else if horizonSeconds > 60 then 3
    else if horizonSeconds > 30 then 2
    else 1
  }

  /** The window is the first steps of the plan, as many as the horizon admits. */
  lemma WindowMeaning(assessments: seq<Assessment>, horizonSeconds: nat)
    ensures var window := Window(assessments, horizonSeconds);
      && |window| == (if |assessments| < Admitted(horizonSeconds) then |assessments| else Admitted(horizonSeconds))
      && (forall i, j :: 0 <= i < j < |window| ==> !Ahead(window[j], window[i]))
      && (forall a :: a in window ==> a in assessments)
      && (forall a, b :: a in assessments && a !in window && b in window ==> !Ahead(a, b))
  {
    var ordered := InPlanOrder(assessments);
    var window := Window(assessments, horizonSeconds);
    PlanOrderIsKeyOrder();
    SortSorts(assessments, (a, b) => AssessedBefore(a, b));
    SameMembers(assessments, ordered);
    assert FrontierStepLimit(horizonSeconds) == Admitted(horizonSeconds);
    assert window == ordered[..|window|];
    forall a, b | a in assessments && a !in window && b in window ensures !Ahead(a, b) {
      assert a in ordered;
      var i :| 0 <= i < |ordered| && ordered[i] == a;
      var j :| 0 <= j < |window| && window[j] == b;
      assert i >= |window| && ordered[j] == b;
      assert !AssessedBefore(ordered[i], ordered[j]);
    }
  }

  /** Some later step of the window needs what the j-th would have built. */
  ghost predicate Missed(specs: seq<ActionSpec>, window: seq<Assessment>, j: nat)
    requires j < |window|
  {
    exists l :: j < l < |window| && window[l].runtimeAction.Some?
             && Reachable(specs, window[l].runtimeAction.value, window[j].sourceTarget)
  }

  /** A step that the plan cannot pass over. */
  ghost predicate Stops(specs: seq<ActionSpec>, window: seq<Assessment>, j: nat)
    requires j < |window|
  {
    && window[j].classification != Obsolete
    && (window[j].classification == UnsupportedByRuntime ==>
          !window[j].managedAutomatically && Missed(specs, window, j))
  }

  lemma StopsMeaning(specs: seq<ActionSpec>, window: seq<Assessment>, j: nat)
    requires j < |window|
    ensures Blocks(specs, window, j) <==> Stops(specs, window, j)
  {
    if l :| j < l < |window| && window[l].runtimeAction.Some?
            && Reachable(specs, window[l].runtimeAction.value, window[j].sourceTarget) {
      assert window[l] == window[j + 1..][l - j - 1];
    }
    if a :| a in window[j + 1..] && a.runtimeAction.Some?
            && Reachable(specs, a.runtimeAction.value, window[j].sourceTarget) {
      var l :| 0 <= l < |window[j + 1..]| && window[j + 1..][l] == a;
      assert window[j + 1 + l] == a;
    }
  }

  /** The frontier is the first step of the window that the plan cannot pass over: obsolete
      steps, managed steps, and unsupported steps that no later one needs are passed over. */
  lemma FrontierMeaning(specs: seq<ActionSpec>, assessments: seq<Assessment>, horizonSeconds: nat,
                        frontier: Option<nat>)
    requires IsFrontier(specs, Window(assessments, horizonSeconds), frontier)
    ensures var window := Window(assessments, horizonSeconds);
      match frontier
      case Some(k) =>
        k < |window| && Stops(specs, window, k) && forall j :: 0 <= j < k ==> !Stops(specs, window, j)
      case None => forall j :: 0 <= j < |window| ==> !Stops(specs, window, j)
  {
    var window := Window(assessments, horizonSeconds);
    forall j | 0 <= j < |window| ensures Blocks(specs, window, j) <==> Stops(specs, window, j) {
      StopsMeaning(specs, window, j);
    }
  }

  // ----- merged runs --------------------------------------------------------------------

  /** `m` stands for the steps from `i` to `j`: a run of one action that neither neighbour
      continues. It asks for the largest target among them, or else for all they repeat. */
  ghost predicate Merges(m: Step, steps: seq<Step>, i: nat, j: nat) {
    && i < j <= |steps|
    && (forall k :: i <= k < j ==> steps[k].action == m.action)
    && (i > 0 ==> steps[i - 1].action != m.action) && (j < |steps| ==> steps[j].action != m.action)
    && m.ordinal == steps[i].ordinal
    && match m.target
       case None =>
         (forall k :: i <= k < j ==> steps[k].target == None) && m.repeat == TotalRepeat(steps[i..j])
       case Some(largest) =>
         && m.repeat == 1
         && (forall k :: i <= k < j && steps[k].target.Some? ==> steps[k].target.value <= largest)
         && exists k :: i <= k < j && steps[k].target == Some(largest)
  }

  lemma {:induction false} LargestOfRun(run: seq<Step>)
    ensures forall k :: 0 <= k < |run| && run[k].target.Some? ==> run[k].target.value <= MaxTarget(run)
    ensures Targeted(run) ==> exists k :: 0 <= k < |run| && run[k].target == Some(MaxTarget(run))
  {
    if run != [] {
      var rest := run[1..];
      LargestOfRun(rest);
      assert forall k :: 0 < k < |run| ==> run[k] == rest[k - 1];
      if Targeted(run) {
        if Targeted(rest) && (run[0].target.None? || run[0].target.value < MaxTarget(rest)) {
          var k :| 0 <= k < |rest| && rest[k].target == Some(MaxTarget(rest));
          assert run[k + 1].target == Some(MaxTarget(run));
        } else {
          if !Targeted(rest) {
            UntargetedRun(rest);
            var t :| t in run && t.target.Some?;
            assert t == run[0] || t in rest;
          }
          assert run[0].target == Some(MaxTarget(run));
        }
      }
    }
  }

  lemma RunIsMerged(steps: seq<Step>)
    requires steps != []
    ensures Merges(MergeRun(steps[..RunLength(steps)]), steps, 0, RunLength(steps))
  {
    var n := RunLength(steps);
    var run := steps[..n];
    LargestOfRun(run);
    assert steps[0..n] == run;
    assert forall k :: 0 <= k < n ==> run[k] == steps[k];
    if !Targeted(run) {
      assert forall k :: 0 <= k < n ==> run[k] in run;
    }
  }

  lemma MergesLater(m: Step, steps: seq<Step>, n: nat, i: nat, j: nat)
    requires n <= |steps| && Merges(m, steps[n..], i, j) && (i == 0 && n > 0 ==> steps[n - 1].action != m.action)
    ensures Merges(m, steps, n + i, n + j)
  {
    var rest := steps[n..];
    assert forall k :: 0 <= k < |rest| ==> rest[k] == steps[n + k];
    assert rest[i..j] == steps[n + i..n + j];
    if m.target.Some? {
      var k :| i <= k < j && rest[k].target == m.target;
      assert steps[n + k].target == m.target;
    }
  }

  /** Merged steps stand for maximal runs: the bounds cut the plan into them, in order. */
  ghost predicate Cuts(bounds: seq<nat>, merged: seq<Step>, steps: seq<Step>) {
    && |bounds| == |merged| + 1 && bounds[0] == 0 && bounds[|merged|] == |steps|
    && forall k :: 0 <= k < |merged| ==> Merges(merged[k], steps, bounds[k], bounds[k + 1])
  }

  lemma {:induction false} MergedMeaning(steps: seq<Step>) returns (bounds: seq<nat>)
    ensures Cuts(bounds, MergeRuns(steps), steps)
    decreases |steps|
  {
    if steps == [] {
      bounds := [0];
    } else {
      var n := RunLength(steps);
      var later := MergedMeaning(steps[n..]);
      bounds := CutsOnceMore(steps, n, later);
    }
  }

  function Shifted(bounds: seq<nat>, n: nat): (r: seq<nat>)
    ensures |r| == |bounds| && forall k :: 0 <= k < |r| ==> r[k] == n + bounds[k]
  {
    seq(|bounds|, k requires 0 <= k < |bounds| => n + bounds[k])
  }

  lemma CutsOnceMore(steps: seq<Step>, n: nat, later: seq<nat>) returns (bounds: seq<nat>)
    requires steps != [] && n == RunLength(steps) && Cuts(later, MergeRuns(steps[n..]), steps[n..])
    ensures Cuts(bounds, MergeRuns(steps), steps)
  {
    RunIsMerged(steps);
    assert MergeRuns(steps) == [MergeRun(steps[..n])] + MergeRuns(steps[n..]);
    CutsShift(MergeRun(steps[..n]), MergeRuns(steps[n..]), steps, n, later);
    bounds := [0] + Shifted(later, n);
  }

  lemma CutLater(rest: seq<Step>, steps: seq<Step>, n: nat, later: seq<nat>, k: nat)
    requires 0 < n <= |steps| && Cuts(later, rest, steps[n..]) && k < |rest|
    requires n < |steps| ==> steps[n - 1].action != steps[n].action
    ensures Merges(rest[k], steps, n + later[k], n + later[k + 1])
  {
    assert Merges(rest[k], steps[n..], later[k], later[k + 1]);
    if later[k] == 0 {
      assert steps[n..][0] == steps[n];
    }
    MergesLater(rest[k], steps, n, later[k], later[k + 1]);
  }

  lemma CutsShift(m: Step, rest: seq<Step>, steps: seq<Step>, n: nat, later: seq<nat>)
    requires Merges(m, steps, 0, n) && Cuts(later, rest, steps[n..])
    requires n < |steps| ==> steps[n - 1].action != steps[n].action
    ensures Cuts([0] + Shifted(later, n), [m] + rest, steps)
  {
    var bounds, merged := [0] + Shifted(later, n), [m] + rest;
    assert |steps[n..]| == |steps| - n;
    forall k | 0 <= k < |merged| ensures Merges(merged[k], steps, bounds[k], bounds[k + 1]) {
      if k > 0 {
        CutLater(rest, steps, n, later, k - 1);
        assert merged[k] == rest[k - 1] && bounds[k] == n + later[k - 1] && bounds[k + 1] == n + later[k];
      } else {
        assert bounds[1] == n + later[0];
      }
    }
  }

  /** The plan that is merged is the proposal in the order of its ordinals. */
  lemma OrderMeaning(steps: seq<Step>)
    ensures multiset(InOrder(steps)) == multiset(steps)
    ensures forall i, j :: 0 <= i < j < |InOrder(steps)| ==> InOrder(steps)[i].ordinal <= InOrder(steps)[j].ordinal
  {
    assert KeyOrder<Step>((a, b) => OrdinalLess(a, b));
    SortSorts(steps, (a, b) => OrdinalLess(a, b));
    forall i, j | 0 <= i < j < |InOrder(steps)| ensures InOrder(steps)[i].ordinal <= InOrder(steps)[j].ordinal {
      assert !OrdinalLess(InOrder(steps)[j], InOrder(steps)[i]);
    }
  }

  // ----- projected repeats --------------------------------------------------------------

  /** What a step counts toward, if it names a target and its action has a measurable effect. */
  ghost predicate Aims(step: Step, key: string, effects: Effects) {
    step.target.Some? && effects(step.action) == Some(key)
  }

  /** `level` is what is observed of an effect or an earlier target for it, whichever is most. */
  ghost predicate Reached(level: nat, steps: seq<Step>, i: nat, key: string, effects: Effects, observed: string -> nat)
    requires i <= |steps|
  {
    && level >= observed(key)
    && (forall j :: 0 <= j < i && Aims(steps[j], key, effects) ==> steps[j].target.value <= level)
    && (level == observed(key)
        || exists j :: 0 <= j < i && Aims(steps[j], key, effects) && steps[j].target == Some(level))
  }

  lemma {:induction false} LevelIsReached(steps: seq<Step>, i: nat, key: string, effects: Effects,
                                          observed: string -> nat)
    requires i <= |steps|
    ensures Reached(Level(steps[..i], key, effects, observed), steps, i, key, effects, observed)
  {
    if i > 0 {
      LevelIsReached(steps, i - 1, key, effects, observed);
      assert steps[..i][..i - 1] == steps[..i - 1];
    }
  }

  /** A step that names a target asks for what is missing to it from what is reached, and is
      satisfied when nothing is; any other step asks for its repeats. */
  lemma ProjectionMeaning(steps: seq<Step>, i: nat, effects: Effects, observed: string -> nat) returns (level: nat)
    requires i < |steps|
    ensures var p := Project(steps[i], steps[..i], effects, observed);
      if steps[i].target.Some? && effects(steps[i].action).Some? then
        && Reached(level, steps, i, effects(steps[i].action).value, effects, observed)
        && (p.satisfied <==> steps[i].target.value <= level)
        && p.repeat == (if p.satisfied then 0 else steps[i].target.value - level)
      else p.repeat == steps[i].repeat && !p.satisfied
  {
    level := 0;
    if steps[i].target.Some? && effects(steps[i].action).Some? {
      var key := effects(steps[i].action).value;
      level := Level(steps[..i], key, effects, observed);
      LevelIsReached(steps, i, key, effects, observed);
    }
  }
}
