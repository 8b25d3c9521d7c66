/** Macro goals as cumulative targets: merging adjacent steps of one action, and turning
    targets into repeats against what is already observed or planned. */
module CumulativeTargets {
  import opened Ordering

  /** A macro step; repeats and targets are at least 1. */
  datatype Step = Step(ordinal: nat, action: string, repeat: nat, target: Option<nat>)

  ghost predicate ValidSteps(steps: seq<Step>) {
    forall s :: s in steps ==> s.repeat >= 1 && (s.target.Some? ==> s.target.value >= 1)
  }

  function Max(a: nat, b: nat): nat { if a >= b then a else b }

  predicate OrdinalLess(a: Step, b: Step) { a.ordinal < b.ordinal }

  function InOrder(steps: seq<Step>): seq<Step> {
    Sort(steps, (a, b) => OrdinalLess(a, b))
  }

  // ----- merging runs -------------------------------------------------------------------

  /** Length of the leading run of steps with the first step's action. */
  function RunLength(steps: seq<Step>): (n: nat)
    requires steps != []
    ensures 1 <= n <= |steps|
    ensures forall i :: 0 <= i < n ==> steps[i].action == steps[0].action
    ensures n < |steps| ==> steps[n].action != steps[0].action
  {
    if |steps| == 1 || steps[1].action != steps[0].action then 1
    else 1 + RunLength(steps[1..])
  }

  function TotalRepeat(run: seq<Step>): nat {
    if run == [] then 0 else run[0].repeat + TotalRepeat(run[1..])
  }

  function Targeted(run: seq<Step>): bool {
    exists s :: s in run && s.target.Some?
  }

  function MaxTarget(run: seq<Step>): nat {
    if run == [] then 0
    else Max(if run[0].target.Some? then run[0].target.value else 0, MaxTarget(run[1..]))
  }

  function MergeRun(run: seq<Step>): Step
    requires run != []
  {
    if Targeted(run) then run[0].(repeat := 1, target := Some(MaxTarget(run)))
    else run[0].(repeat := TotalRepeat(run), target := None)
  }

  function MergeRuns(steps: seq<Step>): seq<Step> {
    if steps == [] then []
    else
      var n := RunLength(steps);
      [MergeRun(steps[..n])] + MergeRuns(steps[n..])
  }

  /** The step list half of `_compact_goal_steps`. */
  method CompactGoalSteps(steps: seq<Step>) returns (compact: seq<Step>)
    ensures compact == MergeRuns(InOrder(steps))
  {
    var ordered := InOrder(steps);
    compact := [];
    var index := 0;
    while index < |ordered|
      invariant index <= |ordered|
      invariant compact + MergeRuns(ordered[index..]) == MergeRuns(ordered)
    {
      var first := ordered[index];
      var start := index;
      index := index + 1;
      while index < |ordered| && ordered[index].action == first.action
        invariant start < index <= |ordered|
        invariant forall i :: start <= i < index ==> ordered[i].action == first.action
      {
        index := index + 1;
      }
      var instances := ordered[start..index];
      RunIsMaximal(ordered, start, index);
      Regroup(compact, MergeRun(instances), MergeRuns(ordered[index..]));
      compact := compact + [MergeRun(instances)];
    }
  }

  lemma Regroup<T>(a: seq<T>, x: T, b: seq<T>)
    ensures a + ([x] + b) == (a + [x]) + b
  {
  }

  lemma RunIsMaximal(ordered: seq<Step>, start: nat, end: nat)
    requires start < end <= |ordered|
    requires forall i :: start <= i < end ==> ordered[i].action == ordered[start].action
    requires end == |ordered| || ordered[end].action != ordered[start].action
    ensures RunLength(ordered[start..]) == end - start
    ensures ordered[start..][..end - start] == ordered[start..end]
    ensures ordered[start..][end - start..] == ordered[end..]
    ensures MergeRuns(ordered[start..]) == [MergeRun(ordered[start..end])] + MergeRuns(ordered[end..])
  {
    var s, n := ordered[start..], RunLength(ordered[start..]);
    assert forall i :: 0 <= i < |s| ==> s[i] == ordered[start + i];
  }

  // ----- desired counts -----------------------------------------------------------------

  function Instances(steps: seq<Step>, action: string): seq<Step> {
    if steps == [] then []
    else
      Instances(steps[..|steps| - 1], action)
      + (if steps[|steps| - 1].action == action then [steps[|steps| - 1]] else [])
  }

  lemma {:induction false} InstancesConcat(a: seq<Step>, b: seq<Step>, action: string)
    ensures Instances(a + b, action) == Instances(a, action) + Instances(b, action)
    decreases |b|
  {
    if b == [] {
      assert a + b == a;
    } else {
      var init := b[..|b| - 1];
      InstancesConcat(a, init, action);
      assert (a + b)[..|a + b| - 1] == a + init && (a + b)[|a + b| - 1] == b[|b| - 1];
    }
  }

  lemma {:induction false} InstancesMembers(steps: seq<Step>, action: string)
    ensures Instances(steps, action) != [] <==> exists s :: s in steps && s.action == action
  {
    if steps != [] {
      var n := |steps| - 1;
      InstancesMembers(steps[..n], action);
      assert steps == steps[..n] + [steps[n]];
    }
  }

  /** The largest target among the steps of one action, or else all they repeat. */
  function DesiredCount(instances: seq<Step>): nat {
    if Targeted(instances) then MaxTarget(instances) else TotalRepeat(instances)
  }

  ghost predicate GroupsActions(byAction: map<string, seq<Step>>, steps: seq<Step>) {
    forall a :: Instances(steps, a) == if a in byAction then byAction[a] else []
  }

  method GroupByAction(steps: seq<Step>) returns (byAction: map<string, seq<Step>>)
    ensures GroupsActions(byAction, steps) && forall a :: a in byAction ==> byAction[a] != []
  {
    byAction := map[];
    for i := 0 to |steps|
      invariant GroupsActions(byAction, steps[..i])
      invariant forall a :: a in byAction ==> byAction[a] != []
    {
      var step := steps[i];
      assert steps[..i + 1][..i] == steps[..i];
      byAction := byAction[step.action := (if step.action in byAction then byAction[step.action] else []) + [step]];
    }
    assert steps[..|steps|] == steps;
  }

  /** The other half: the instances of each action, then one count for each. */
  method DesiredCounts(steps: seq<Step>) returns (desired: map<string, nat>)
    ensures forall a :: a in desired <==> exists s :: s in steps && s.action == a
    ensures forall a :: a in desired ==> desired[a] == DesiredCount(Instances(InOrder(steps), a))
  {
    var byAction := GroupByAction(InOrder(steps));
    desired := map[];
    var actions := byAction.Keys;
    while actions != {}
      invariant actions <= byAction.Keys && desired.Keys == byAction.Keys - actions
      invariant forall a :: a in desired ==> desired[a] == DesiredCount(byAction[a])
      decreases |actions|
    {
      var action :| action in actions;
      desired := desired[action := DesiredCount(byAction[action])];
      actions := actions - {action};
    }
    ActionsInOrder(steps);
  }

  lemma ActionsInOrder(steps: seq<Step>)
    ensures forall a :: Instances(InOrder(steps), a) != [] <==> exists s :: s in steps && s.action == a
  {
    assert KeyOrder<Step>((a, b) => OrdinalLess(a, b));
    SortSorts(steps, (a, b) => OrdinalLess(a, b));
    SameMembers(steps, InOrder(steps));
    forall a: string ensures Instances(InOrder(steps), a) != [] <==> exists s :: s in steps && s.action == a {
      InstancesMembers(InOrder(steps), a);
    }
  }

  lemma {:induction false} MeasuresAdd(a: seq<Step>, b: seq<Step>)
    ensures MaxTarget(a + b) == Max(MaxTarget(a), MaxTarget(b)) && TotalRepeat(a + b) == TotalRepeat(a) + TotalRepeat(b)
    ensures Targeted(a + b) <==> Targeted(a) || Targeted(b)
  {
    if a == [] {
      assert a + b == b;
    } else {
      MeasuresAdd(a[1..], b);
      assert (a + b)[1..] == a[1..] + b;
      assert forall s :: s in a + b <==> s in a || s in b;
    }
  }

  lemma {:induction false} InstancesOfRun(run: seq<Step>, action: string)
    requires forall i :: 0 <= i < |run| ==> run[i].action == run[0].action
    ensures Instances(run, action) == if run != [] && run[0].action == action then run else []
  {
    if run != [] {
      InstancesOfRun(run[..|run| - 1], action);
      assert run == run[..|run| - 1] + [run[|run| - 1]];
    }
  }

  lemma MergedRunMeasures(run: seq<Step>)
    requires run != []
    ensures var merged := [MergeRun(run)];
      && MaxTarget(merged) == MaxTarget(run) && (Targeted(merged) <==> Targeted(run))
      && (!Targeted(run) ==> TotalRepeat(merged) == TotalRepeat(run))
  {
    var m := MergeRun(run);
    assert [m][1..] == [] && m in [m];
    if !Targeted(run) {
      UntargetedRun(run);
    }
  }

  /** Merging adjacent steps changes no desired count. */
  lemma MergingKeepsDesiredCounts(steps: seq<Step>, action: string)
    ensures DesiredCount(Instances(MergeRuns(steps), action)) == DesiredCount(Instances(steps, action))
    ensures Instances(MergeRuns(steps), action) == [] <==> Instances(steps, action) == []
  {
    MergingKeepsMeasures(steps, action);
  }

  /** The same instances, as far as a desired count can tell. */
  ghost predicate SameMeasures(before: seq<Step>, after: seq<Step>) {
    && MaxTarget(after) == MaxTarget(before) && (Targeted(after) <==> Targeted(before))
    && (!Targeted(before) ==> TotalRepeat(after) == TotalRepeat(before)) && (after == [] <==> before == [])
  }

  lemma SameMeasuresConcat(a: seq<Step>, b: seq<Step>, c: seq<Step>, d: seq<Step>)
    requires SameMeasures(a, c) && SameMeasures(b, d)
    ensures SameMeasures(a + b, c + d)
  {
    MeasuresAdd(a, b);
    MeasuresAdd(c, d);
  }

  lemma RunKeepsMeasures(run: seq<Step>, action: string)
    requires run != [] && forall i :: 0 <= i < |run| ==> run[i].action == run[0].action
    ensures SameMeasures(Instances(run, action), Instances([MergeRun(run)], action))
  {
    MergedRunMeasures(run);
    InstancesOfRun(run, action);
    InstancesOfRun([MergeRun(run)], action);
  }

  lemma MergeRunsSplits(steps: seq<Step>, action: string)
    requires steps != []
    ensures var n := RunLength(steps);
      && Instances(steps, action) == Instances(steps[..n], action) + Instances(steps[n..], action)
      && Instances(MergeRuns(steps), action)
         == Instances([MergeRun(steps[..n])], action) + Instances(MergeRuns(steps[n..]), action)
  {
    var n := RunLength(steps);
    assert steps == steps[..n] + steps[n..];
    InstancesConcat(steps[..n], steps[n..], action);
    InstancesConcat([MergeRun(steps[..n])], MergeRuns(steps[n..]), action);
  }

  lemma {:induction false} MergingKeepsMeasures(steps: seq<Step>, action: string)
    ensures SameMeasures(Instances(steps, action), Instances(MergeRuns(steps), action))
    decreases |steps|
  {
    if steps != [] {
      var n := RunLength(steps);
      MergingKeepsMeasures(steps[n..], action);
      RunKeepsMeasures(steps[..n], action);
      MergeRunsSplits(steps, action);
      SameMeasuresConcat(Instances(steps[..n], action), Instances(steps[n..], action),
                         Instances([MergeRun(steps[..n])], action), Instances(MergeRuns(steps[n..]), action));
    }
  }

  // ----- projecting targets -------------------------------------------------------------

  /** The effect a step counts toward, when its mapping has a measurable effect. */
  type Effects = string -> Option<string>

  predicate CountsToward(step: Step, key: string, effects: Effects) {
    step.target.Some? && effects(step.action) == Some(key)
  }

  /** What `key` will stand at once every target in `steps` is met. */
  function Level(steps: seq<Step>, key: string, effects: Effects, observed: string -> nat): nat {
    if steps == [] then observed(key)
    else
      var before := Level(steps[..|steps| - 1], key, effects, observed);
      var last := steps[|steps| - 1];
      if CountsToward(last, key, effects) then Max(before, last.target.value) else before
  }

  datatype Projection = Projection(repeat: nat, satisfied: bool)

  /** What the step asks for, given the level its predecessors leave. */
  function Project(step: Step, before: seq<Step>, effects: Effects, observed: string -> nat): Projection {
    if step.target.Some? && effects(step.action).Some? then
      var current := Level(before, effects(step.action).value, effects, observed);
      if step.target.value > current then Projection(step.target.value - current, false)
      else Projection(0, true)
    else Projection(step.repeat, false)
  }

  /** The projected-count loop of `macro_plan_from_hima`. */
  method ProjectRepeats(steps: seq<Step>, effects: Effects, observed: string -> nat)
    returns (projections: seq<Projection>)
    ensures |projections| == |steps|
    ensures forall i :: 0 <= i < |steps| ==> projections[i] == Project(steps[i], steps[..i], effects, observed)
  {
    projections := [];
    var projected: map<string, nat> := map[];
    for i := 0 to |steps|
      invariant |projections| == i
      invariant forall j :: 0 <= j < i ==> projections[j] == Project(steps[j], steps[..j], effects, observed)
      invariant forall key :: Current(projected, key, observed) == Level(steps[..i], key, effects, observed)
    {
      var step := steps[i];
      assert steps[..i + 1][..i] == steps[..i];
      var repeat, satisfied := step.repeat, false;
      if step.target.Some? && effects(step.action).Some? {
        var key := effects(step.action).value;
        var current := Current(projected, key, observed);
        repeat := if step.target.value > current then step.target.value - current else 0;
        satisfied := repeat == 0;
        projected := projected[key := Max(current, step.target.value)];
      }
      projections := projections + [Projection(repeat, satisfied)];
    }
  }

  function Current(projected: map<string, nat>, key: string, observed: string -> nat): nat {
    if key in projected then projected[key] else observed(key)
  }

  // ----- telescoping --------------------------------------------------------------------

  /** Everything the targeted steps of one effect ask for. */
  function Demand(steps: seq<Step>, key: string, effects: Effects, observed: string -> nat): nat {
    if steps == [] then 0
    else
      var init, last := steps[..|steps| - 1], steps[|steps| - 1];
      Demand(init, key, effects, observed)
      + (if CountsToward(last, key, effects) then Project(last, init, effects, observed).repeat else 0)
  }

  /** The largest target set for one effect. */
  function LargestTarget(steps: seq<Step>, key: string, effects: Effects): nat {
    if steps == [] then 0
    else
      var rest := LargestTarget(steps[..|steps| - 1], key, effects);
      var last := steps[|steps| - 1];
      if CountsToward(last, key, effects) then Max(rest, last.target.value) else rest
  }

  /** However the targets are ordered, the repeats add up to exactly what is missing. */
  lemma {:induction false} TargetsTelescope(steps: seq<Step>, key: string, effects: Effects, observed: string -> nat)
    ensures Level(steps, key, effects, observed) == Max(observed(key), LargestTarget(steps, key, effects))
    ensures Demand(steps, key, effects, observed)
         == Max(observed(key), LargestTarget(steps, key, effects)) - observed(key)
  {
    if steps != [] {
      TargetsTelescope(steps[..|steps| - 1], key, effects, observed);
    }
  }

  /** A targeted step is satisfied exactly when the state or an earlier step reaches it. */
  lemma SatisfiedMeaning(steps: seq<Step>, i: nat, effects: Effects, observed: string -> nat)
    requires ValidSteps(steps) && i < |steps| && steps[i].target.Some? && effects(steps[i].action).Some?
    ensures var key := effects(steps[i].action).value;
      Project(steps[i], steps[..i], effects, observed).satisfied <==>
        || steps[i].target.value <= observed(key)
        || exists j :: 0 <= j < i && CountsToward(steps[j], key, effects)
             && steps[j].target.value >= steps[i].target.value
  {
    var key := effects(steps[i].action).value;
    assert steps[i] in steps;
    TargetsTelescope(steps[..i], key, effects, observed);
    LargestTargetMeaning(steps[..i], key, effects, steps[i].target.value);
    assert forall j :: 0 <= j < i ==> steps[..i][j] == steps[j];
  }

  lemma {:induction false} LargestTargetMeaning(steps: seq<Step>, key: string, effects: Effects, goal: nat)
    requires goal >= 1
    ensures LargestTarget(steps, key, effects) >= goal <==>
      exists j :: 0 <= j < |steps| && CountsToward(steps[j], key, effects) && steps[j].target.value >= goal
  {
    if steps != [] {
      var n := |steps| - 1;
      LargestTargetMeaning(steps[..n], key, effects, goal);
      assert forall j :: 0 <= j < n ==> steps[..n][j] == steps[j];
    }
  }

  // ----- what merging loses -------------------------------------------------------------

  /** Work asked for one effect, targeted or not, starting from a level. */
  function Work(level: nat, steps: seq<Step>, key: string, effects: Effects): nat
    decreases steps
  {
    if steps == [] then 0
    else if effects(steps[0].action) != Some(key) then Work(level, steps[1..], key, effects)
    else match steps[0].target
      case Some(target) => (Max(level, target) - level) + Work(Max(level, target), steps[1..], key, effects)
      case None => steps[0].repeat + Work(level, steps[1..], key, effects)
  }

  /** Repeats of the steps of a run that name no target, counted when another one does. */
  function Swallowed(run: seq<Step>): nat {
    if Targeted(run) then UntargetedRepeat(run) else 0
  }

  function UntargetedRepeat(run: seq<Step>): nat {
    if run == [] then 0
    else (if run[0].target.None? then run[0].repeat else 0) + UntargetedRepeat(run[1..])
  }

  function Lost(steps: seq<Step>, key: string, effects: Effects): nat {
    if steps == [] then 0
    else
      var n := RunLength(steps);
      (if effects(steps[0].action) == Some(key) then Swallowed(steps[..n]) else 0)
      + Lost(steps[n..], key, effects)
  }

  /** The repeats projected for every step of one effect, targeted or not. */
  function Asked(steps: seq<Step>, key: string, effects: Effects, observed: string -> nat): nat {
    if steps == [] then 0
    else
      var init, last := steps[..|steps| - 1], steps[|steps| - 1];
      Asked(init, key, effects, observed)
      + (if effects(last.action) == Some(key) then Project(last, init, effects, observed).repeat else 0)
  }

  function RaisedLevel(level: nat, steps: seq<Step>, key: string, effects: Effects): nat
    decreases steps
  {
    if steps == [] then level
    else RaisedLevel(if CountsToward(steps[0], key, effects) then Max(level, steps[0].target.value) else level,
                     steps[1..], key, effects)
  }

  lemma {:induction false} WorkSnoc(level: nat, init: seq<Step>, last: Step, key: string, effects: Effects)
    ensures Work(level, init + [last], key, effects)
         == Work(level, init, key, effects) + Work(RaisedLevel(level, init, key, effects), [last], key, effects)
    ensures RaisedLevel(level, init + [last], key, effects)
         == RaisedLevel(RaisedLevel(level, init, key, effects), [last], key, effects)
    decreases init
  {
    if init == [] {
      assert init + [last] == [last];
    } else {
      assert (init + [last])[1..] == init[1..] + [last];
      var next := if CountsToward(init[0], key, effects) then Max(level, init[0].target.value) else level;
      WorkSnoc(next, init[1..], last, key, effects);
    }
  }

  /** `Work` is what the projection asks for in all. */
  lemma {:induction false} WorkIsAsked(steps: seq<Step>, key: string, effects: Effects, observed: string -> nat)
    ensures Work(observed(key), steps, key, effects) == Asked(steps, key, effects, observed)
    ensures RaisedLevel(observed(key), steps, key, effects) == Level(steps, key, effects, observed)
  {
    if steps != [] {
      var init, last := steps[..|steps| - 1], steps[|steps| - 1];
      WorkIsAsked(init, key, effects, observed);
      assert steps == init + [last];
      WorkSnoc(observed(key), init, last, key, effects);
      assert [last][1..] == [];
    }
  }

  lemma {:induction false} WorkOfRun(level: nat, run: seq<Step>, rest: seq<Step>, key: string, effects: Effects)
    requires forall s :: s in run ==> effects(s.action) == Some(key)
    ensures Work(level, run + rest, key, effects)
         == UntargetedRepeat(run) + (Max(level, MaxTarget(run)) - level)
            + Work(Max(level, MaxTarget(run)), rest, key, effects)
    decreases run
  {
    if run == [] {
      assert run + rest == rest;
    } else {
      assert (run + rest)[1..] == run[1..] + rest;
      var next := match run[0].target case Some(t) => Max(level, t) case None => level;
      WorkOfRun(next, run[1..], rest, key, effects);
    }
  }

  lemma {:induction false} OtherRun(level: nat, run: seq<Step>, rest: seq<Step>, key: string, effects: Effects)
    requires forall s :: s in run ==> effects(s.action) != Some(key)
    ensures Work(level, run + rest, key, effects) == Work(level, rest, key, effects)
  {
    if run == [] {
      assert run + rest == rest;
    } else {
      assert (run + rest)[1..] == run[1..] + rest;
      OtherRun(level, run[1..], rest, key, effects);
    }
  }

  lemma {:induction false} UntargetedRun(run: seq<Step>)
    requires !Targeted(run)
    ensures MaxTarget(run) == 0 && UntargetedRepeat(run) == TotalRepeat(run)
  {
    if run != [] {
      assert run[0] in run;
      forall s | s in run[1..] ensures s.target.None? {
        assert s in run;
      }
      UntargetedRun(run[1..]);
    }
  }

  /** Merging keeps the work of every effect except the repeats that untargeted steps
      contribute to a run in which some other step names a target. */
  lemma {:induction false} MergingLosesSwallowedRepeats(level: nat, steps: seq<Step>, key: string, effects: Effects)
    ensures Work(level, MergeRuns(steps), key, effects) == Work(level, steps, key, effects) - Lost(steps, key, effects)
    decreases |steps|
  {
    if steps != [] {
      var n := RunLength(steps);
      var run, rest := steps[..n], steps[n..];
      assert steps == run + rest;
      var merged := MergeRun(run);
      assert MergeRuns(steps) == [merged] + MergeRuns(rest);
      assert ([merged] + MergeRuns(rest))[1..] == MergeRuns(rest);
      if effects(steps[0].action) == Some(key) {
        WorkOfRun(level, run, rest, key, effects);
        MergingLosesSwallowedRepeats(Max(level, MaxTarget(run)), rest, key, effects);
        if !Targeted(run) {
          UntargetedRun(run);
        }
      } else {
        OtherRun(level, run, rest, key, effects);
        MergingLosesSwallowedRepeats(level, rest, key, effects);
      }
    }
  }

  /** A run of one action in which one step names a target and another does not. */
  ghost predicate MixedNeighbours(steps: seq<Step>, key: string, effects: Effects) {
    exists i :: 0 <= i < |steps| - 1 && steps[i].action == steps[i + 1].action
      && effects(steps[i].action) == Some(key) && steps[i].target.Some? != steps[i + 1].target.Some?
  }

  lemma {:induction false} SomewhereMixed(run: seq<Step>)
    requires run != [] && forall i :: 0 <= i < |run| - 1 ==> run[i].target.Some? == run[i + 1].target.Some?
    ensures forall i :: 0 <= i < |run| ==> run[i].target.Some? == run[0].target.Some?
  {
    if |run| > 1 {
      SomewhereMixed(run[1..]);
      assert forall i :: 1 <= i < |run| ==> run[i] == run[1..][i - 1];
    }
  }

  lemma {:induction false} UntargetedRepeatIsPositive(run: seq<Step>, i: nat)
    requires i < |run| && run[i].target.None? && run[i].repeat >= 1
    ensures UntargetedRepeat(run) >= 1
  {
    if i > 0 {
      UntargetedRepeatIsPositive(run[1..], i - 1);
    }
  }

  lemma {:induction false} NoUntargetedRepeat(run: seq<Step>)
    requires forall s :: s in run ==> s.target.Some?
    ensures UntargetedRepeat(run) == 0
  {
    if run != [] {
      NoUntargetedRepeat(run[1..]);
    }
  }

  lemma SwallowedMeaning(run: seq<Step>)
    requires run != [] && ValidSteps(run)
    ensures Swallowed(run) > 0 <==> MixedInside(run)
  {
    if i :| 0 <= i < |run| - 1 && run[i].target.Some? != run[i + 1].target.Some? {
      var targeted := if run[i].target.Some? then i else i + 1;
      var plain := if run[i].target.Some? then i + 1 else i;
      assert run[targeted] in run && run[plain] in run;
      UntargetedRepeatIsPositive(run, plain);
    } else {
      SomewhereMixed(run);
      if Targeted(run) {
        NoUntargetedRepeat(run);
      }
    }
  }

  ghost predicate MixedInside(run: seq<Step>) {
    exists i :: 0 <= i < |run| - 1 && run[i].target.Some? != run[i + 1].target.Some?
  }

  lemma MixedSplit(steps: seq<Step>, key: string, effects: Effects)
    requires steps != []
    ensures var n := RunLength(steps);
      MixedNeighbours(steps, key, effects) <==>
        || (effects(steps[0].action) == Some(key) && MixedInside(steps[..n]))
        || MixedNeighbours(steps[n..], key, effects)
  {
    var n := RunLength(steps);
    if MixedNeighbours(steps, key, effects) {
      MixedSomewhere(steps, key, effects, n);
    }
  }

  lemma MixedSomewhere(steps: seq<Step>, key: string, effects: Effects, n: nat)
    requires steps != [] && n == RunLength(steps) && MixedNeighbours(steps, key, effects)
    ensures (effects(steps[0].action) == Some(key) && MixedInside(steps[..n]))
      || MixedNeighbours(steps[n..], key, effects)
  {
    var i :| 0 <= i < |steps| - 1 && steps[i].action == steps[i + 1].action
             && effects(steps[i].action) == Some(key) && steps[i].target.Some? != steps[i + 1].target.Some?;
    if i < n {
      assert steps[i].action == steps[0].action && i + 1 < n;
      MixedWithin(steps[..n], i);
    } else {
      MixedAfter(steps, key, effects, n, i);
    }
  }

  lemma MixedWithin(run: seq<Step>, i: nat)
    requires i + 1 < |run| && run[i].target.Some? != run[i + 1].target.Some?
    ensures MixedInside(run)
  {
  }

  lemma MixedAfter(steps: seq<Step>, key: string, effects: Effects, n: nat, i: nat)
    requires n <= i < |steps| - 1 && steps[i].action == steps[i + 1].action
    requires effects(steps[i].action) == Some(key) && steps[i].target.Some? != steps[i + 1].target.Some?
    ensures MixedNeighbours(steps[n..], key, effects)
  {
    var rest := steps[n..];
    assert rest[i - n] == steps[i] && rest[i - n + 1] == steps[i + 1];
  }

  /** Merging is exact for an effect precisely when no two neighbouring steps of one of its
      actions disagree on whether they name a target. */
  lemma {:induction false} LostMeaning(steps: seq<Step>, key: string, effects: Effects)
    requires ValidSteps(steps)
    ensures Lost(steps, key, effects) > 0 <==> MixedNeighbours(steps, key, effects)
    decreases |steps|
  {
    if steps != [] {
      var n := RunLength(steps);
      forall s | s in steps[..n] || s in steps[n..] ensures s in steps {}
      LostMeaning(steps[n..], key, effects);
      SwallowedMeaning(steps[..n]);
      MixedSplit(steps, key, effects);
    }
  }

  /** The projected repeats of an effect survive merging exactly unless neighbours mix. */
  lemma MergingIsExactUnlessMixed(steps: seq<Step>, key: string, effects: Effects, observed: string -> nat)
    requires ValidSteps(steps)
    ensures Asked(MergeRuns(steps), key, effects, observed) == Asked(steps, key, effects, observed)
       <==> !MixedNeighbours(steps, key, effects)
  {
    WorkIsAsked(steps, key, effects, observed);
    WorkIsAsked(MergeRuns(steps), key, effects, observed);
    MergingLosesSwallowedRepeats(observed(key), steps, key, effects);
    LostMeaning(steps, key, effects);
  }

  /** For example: two more of something, then a total of three. */
  lemma MixedRunLosesWork(action: string, key: string, effects: Effects)
    requires effects(action) == Some(key)
    ensures var steps := [Step(0, action, 2, None), Step(1, action, 1, Some(3))];
      && Work(0, steps, key, effects) == 5
      && Work(0, MergeRuns(steps), key, effects) == 3
  {
    var first, second := Step(0, action, 2, None), Step(1, action, 1, Some(3));
    var steps := [first, second];
    assert steps == steps + [];
    WorkOfRun(0, steps, [], key, effects);
    assert UntargetedRepeat(steps[1..]) == 0 && MaxTarget(steps[1..]) == 3;
    assert RunLength(steps) == 2 && steps[..2] == steps && steps[2..] == [];
    assert second in steps;
    MergingLosesSwallowedRepeats(0, steps, key, effects);
  }
}
