/** Threat scoring and the hysteresis that keeps a high threat level from flickering. */
module Threat {
  import opened Ordering

  datatype Level = Calm | Low | High | Critical

  function Severity(level: Level): nat {
    match level
    case Calm => 0
    case Low => 1
    case High => 2
    case Critical => 3
  }

  predicate Serious(level: Level) { level == High || level == Critical }

  function LevelForScore(score: real): Level {
    if score >= 7.0 then Critical
    else if score >= 4.0 then High
    else if score > 0.0 then Low
    else Calm
  }

  /** The facts about one observation that the score is computed from. */
  datatype Sighting = Sighting(
    episode: (string, string), gameLoop: nat, enemies: nat,
    unitUnderAttack: bool, buildingUnderAttack: bool,
    ownCombatValue: nat, enemyCombatValue: nat, nearest: Option<real>,
    noAntiAir: bool, noTownhall: bool, damageMarkers: nat)

  function Max(a: real, b: real): real { if a >= b then a else b }

  function Min(a: real, b: real): real { if a <= b then a else b }

  function AttackScore(s: Sighting): real {
    var score := if s.unitUnderAttack then Max(1.0, 4.0) else 1.0;
    if s.buildingUnderAttack then Max(score, 7.0) else score
  }

  function ProximityBonus(s: Sighting): real {
    if s.nearest.None? || s.enemyCombatValue == 0 then 0.0
    else if s.nearest.value <= 8.0 then 3.0
    else if s.nearest.value <= 16.0 then 2.0
    else 0.0
  }

  function WithForceRatio(score: real, s: Sighting): real {
    if s.enemyCombatValue == 0 then score
    else if s.ownCombatValue == 0 then Max(score, 7.0)
    else if s.enemyCombatValue as real >= 2.0 * s.ownCombatValue as real then score + 4.0
    else if s.enemyCombatValue as real >= 0.75 * s.ownCombatValue as real then score + 3.0
    else score
  }

  /** The score of an observation with visible enemies, before any hysteresis. */
  function FreshScore(s: Sighting): real {
    var ratioed := WithForceRatio(AttackScore(s) + ProximityBonus(s), s);
    var aired := if s.noAntiAir then ratioed + 2.0 else ratioed;
    var housed := if s.noTownhall then Max(aired, 7.0) else aired;
    if s.damageMarkers > 0 then housed + Min(3.0, s.damageMarkers as real) else housed
  }

  /** The level an observation would get on its own. */
  function Fresh(s: Sighting): Level {
    if s.enemies == 0 then Calm else LevelForScore(FreshScore(s))
  }

  /** Any visible enemy is a threat; a building under attack, an army wiped out against
      fighting enemies, or a lost last town hall is always critical. */
  lemma FreshMeaning(s: Sighting)
    ensures Fresh(s) == Calm <==> s.enemies == 0
    ensures s.enemies > 0 && (s.buildingUnderAttack || s.noTownhall
      || (s.enemyCombatValue > 0 && s.ownCombatValue == 0))
      ==> Fresh(s) == Critical
    ensures s.enemies > 0 && s.unitUnderAttack ==> Serious(Fresh(s))
    ensures Fresh(s) == Low ==> s.enemyCombatValue as real < 0.75 * s.ownCombatValue as real || s.enemyCombatValue == 0
  {
  }

  // ----- one step -----------------------------------------------------------------------

  datatype Hold = Hold(held: Level, until: Option<nat>)

  const RELEASED := Hold(Calm, None)

  predicate Within(hold: Hold, gameLoop: nat) {
    Serious(hold.held) && hold.until.Some? && gameLoop <= hold.until.value
  }

  function LevelFloor(level: Level): real {
    if level == High then 4.0 else 7.0
  }

  datatype Report = Report(level: Level, score: real)

  function StepHold(hold: Hold, s: Sighting, window: nat): Hold {
    var raw := Fresh(s);
    if s.enemies == 0 then if Within(hold, s.gameLoop) then hold else RELEASED
    else if Severity(raw) > Severity(hold.held) then Hold(raw, Some(s.gameLoop + window))
    else if Within(hold, s.gameLoop) && Severity(raw) < Severity(hold.held) then hold
    else if Serious(raw) then Hold(raw, Some(s.gameLoop + window))
    else Hold(raw, None)
  }

  function StepReport(hold: Hold, s: Sighting): Report {
    var raw := Fresh(s);
    if s.enemies == 0 then
      if Within(hold, s.gameLoop) then Report(hold.held, LevelFloor(hold.held)) else Report(Calm, 0.0)
    else if Within(hold, s.gameLoop) && Severity(raw) < Severity(hold.held) then
      Report(hold.held, Max(FreshScore(s), LevelFloor(hold.held)))
    else Report(raw, FreshScore(s))
  }

  class SituationAnalyzer {
    var episode: Option<(string, string)>
    var heldThreatLevel: Level
    var threatHoldUntil: Option<nat>
    const window: nat

    constructor (window: nat)
      requires window >= 1
      ensures episode == None && Current() == RELEASED && this.window == window
    {
      episode, heldThreatLevel, threatHoldUntil := None, Calm, None;
      this.window := window;
    }

    function Current(): Hold
      reads this
    {
      Hold(heldThreatLevel, threatHoldUntil)
    }

    /** The hold an observation is judged against: none of another episode's survives. */
    function Inherited(s: Sighting): Hold
      reads this
    {
      if episode == Some(s.episode) then Current() else RELEASED
    }

    method Assess(s: Sighting) returns (report: Report)
      modifies this
      ensures episode == Some(s.episode)
      ensures report == StepReport(old(Inherited(s)), s)
      ensures Current() == StepHold(old(Inherited(s)), s, window)
    {
      if episode != Some(s.episode) {
        episode := Some(s.episode);
        heldThreatLevel, threatHoldUntil := Calm, None;
      }
      report := AssessThreat(s);
    }

    method AssessThreat(s: Sighting) returns (report: Report)
      modifies this`heldThreatLevel, this`threatHoldUntil
      ensures report == StepReport(old(Current()), s)
      ensures Current() == StepHold(old(Current()), s, window)
    {
      if s.enemies == 0 {
        if Serious(heldThreatLevel) && threatHoldUntil.Some? && s.gameLoop <= threatHoldUntil.value {
          return Report(heldThreatLevel, if heldThreatLevel == High then 4.0 else 7.0);
        }
        heldThreatLevel, threatHoldUntil := Calm, None;
        return Report(Calm, 0.0);
      }
      var score := 1.0;
      if s.unitUnderAttack {
        score := Max(score, 4.0);
      }
      if s.buildingUnderAttack {
        score := Max(score, 7.0);
      }
      if s.nearest.Some? {
        if s.nearest.value <= 8.0 && s.enemyCombatValue != 0 {
          score := score + 3.0;
        } else if s.nearest.value <= 16.0 && s.enemyCombatValue != 0 {
          score := score + 2.0;
        }
      }
      score := WithForceRatio(score, s);
      if s.noAntiAir {
        score := score + 2.0;
      }
      if s.noTownhall {
        score := Max(score, 7.0);
      }
      if s.damageMarkers > 0 {
        score := score + Min(3.0, s.damageMarkers as real);
      }
      assert score == FreshScore(s);
      var computed := LevelForScore(score);
      var held := heldThreatLevel;
      var withinHold := Serious(held) && threatHoldUntil.Some? && s.gameLoop <= threatHoldUntil.value;
      if Severity(computed) > Severity(held) {
        heldThreatLevel, threatHoldUntil := computed, Some(s.gameLoop + window);
      } else if withinHold && Severity(computed) < Severity(held) {
        computed := held;
        score := Max(score, if computed == High then 4.0 else 7.0);
      } else if Serious(computed) {
        heldThreatLevel, threatHoldUntil := computed, Some(s.gameLoop + window);
      } else {
        heldThreatLevel, threatHoldUntil := computed, None;
      }
      return Report(computed, score);
    }
  }

  // ----- runs ---------------------------------------------------------------------------

  /** The hold after a run of observations of one episode. */
  function HoldAfter(run: seq<Sighting>, window: nat): Hold {
    if run == [] then RELEASED
    else StepHold(HoldAfter(run[..|run| - 1], window), run[|run| - 1], window)
  }

  /** What observation `k` of the run is reported as. */
  function Reported(run: seq<Sighting>, k: nat, window: nat): Report
    requires k < |run|
  {
    StepReport(HoldAfter(run[..k], window), run[k])
  }

  ghost predicate Chronological(run: seq<Sighting>) {
    forall i, j :: 0 <= i <= j < |run| ==> run[i].gameLoop <= run[j].gameLoop
  }

  /** Report, stored level and score always tell the same story, and the report departs
      from the fresh level only inside the hold of a more severe level. */
  lemma ReportAgrees(hold: Hold, s: Sighting, window: nat)
    ensures var report := StepReport(hold, s);
      && report.level == StepHold(hold, s, window).held == LevelForScore(report.score)
      && Severity(report.level) >= Severity(Fresh(s))
      && (report.level != Fresh(s) <==> Within(hold, s.gameLoop) && Severity(Fresh(s)) < Severity(hold.held))
      && (report.level != Fresh(s) ==> report.level == hold.held)
  {
    FreshMeaning(s);
  }

  /** A live hold was set by an observation no more than a window ago, at exactly its level. */
  ghost predicate SetBy(hold: Hold, run: seq<Sighting>, window: nat) {
    Serious(hold.held) && hold.until.Some? ==>
      exists j :: 0 <= j < |run| && Fresh(run[j]) == hold.held && run[j].gameLoop + window == hold.until.value
  }

  lemma {:induction false} HoldIsSet(run: seq<Sighting>, window: nat)
    ensures SetBy(HoldAfter(run, window), run, window)
  {
    if run != [] {
      var n := |run| - 1;
      HoldIsSet(run[..n], window);
      var before, after := HoldAfter(run[..n], window), HoldAfter(run, window);
      if Serious(after.held) && after.until.Some? {
        if after == before {
          var j :| 0 <= j < |run[..n]| && Fresh(run[..n][j]) == before.held
            && run[..n][j].gameLoop + window == before.until.value;
          assert run[j] == run[..n][j];
        } else {
          assert Fresh(run[n]) == after.held && run[n].gameLoop + window == after.until.value;
        }
      }
    }
  }

  /** Upper bound: whatever is reported was the fresh level of some observation at most a
      window old; with `ReportAgrees` the report is caught between the fresh level and the
      most severe fresh level of the window. */
  lemma ReportedWasFresh(run: seq<Sighting>, k: nat, window: nat)
    requires Chronological(run) && k < |run|
    ensures exists j :: 0 <= j <= k && Fresh(run[j]) == Reported(run, k, window).level
                        && run[k].gameLoop <= run[j].gameLoop + window
  {
    var hold := HoldAfter(run[..k], window);
    ReportAgrees(hold, run[k], window);
    HoldIsSet(run[..k], window);
    if Reported(run, k, window).level == Fresh(run[k]) {
      assert run[k].gameLoop <= run[k].gameLoop + window;
    } else {
      var j :| 0 <= j < k && Fresh(run[..k][j]) == hold.held && run[..k][j].gameLoop + window == hold.until.value;
      assert run[j] == run[..k][j];
    }
  }

  /** A live hold of at least `level` until at least `until`. */
  predicate Holds(hold: Hold, level: Level, until: nat) {
    Severity(hold.held) >= Severity(level) && hold.until.Some? && hold.until.value >= until
  }

  /** Until it expires, a hold only ever gives way to one that is as severe and as long. */
  lemma {:induction false} HoldPersists(run: seq<Sighting>, k: nat, level: Level, until: nat, window: nat)
    requires Chronological(run) && k < |run| && Serious(level)
    requires Holds(HoldAfter(run[..k + 1], window), level, until)
    requires run[|run| - 1].gameLoop <= until <= run[k].gameLoop + window
    ensures Holds(HoldAfter(run, window), level, until)
  {
    if |run| == k + 1 {
      assert run[..k + 1] == run;
    } else {
      var n := |run| - 1;
      assert run[..n][..k + 1] == run[..k + 1];
      HoldPersists(run[..n], k, level, until, window);
    }
  }

  /** The promise of a serious observation: no report up to a window later falls below it. */
  ghost predicate Promised(run: seq<Sighting>, k: nat, level: Level, window: nat)
    requires k < |run|
  {
    forall m :: k <= m < |run| && run[m].gameLoop <= run[k].gameLoop + window ==>
      Severity(Reported(run, m, window).level) >= Severity(level)
  }

  /** After any observation the hold ends at most a window later, and exactly a window
      later when the serious level reported is the fresh one. */
  lemma {:induction false} HoldLength(run: seq<Sighting>, window: nat)
    requires Chronological(run) && run != []
    ensures var hold := HoldAfter(run, window);
      && (hold.until.Some? ==> hold.until.value <= run[|run| - 1].gameLoop + window)
      && (Serious(Fresh(run[|run| - 1])) && Reported(run, |run| - 1, window).level == Fresh(run[|run| - 1]) ==>
            hold == Hold(Fresh(run[|run| - 1]), Some(run[|run| - 1].gameLoop + window)))
      && (Serious(Fresh(run[|run| - 1])) ==> hold.until.Some?)
  {
    var n := |run| - 1;
    FreshMeaning(run[n]);
    if n > 0 {
      HoldLength(run[..n], window);
    }
    var before := HoldAfter(run[..n], window);
  }

  lemma LongHoldKeepsPromise(run: seq<Sighting>, k: nat, window: nat)
    requires Chronological(run) && k < |run| && Serious(Fresh(run[k]))
    requires Holds(HoldAfter(run[..k + 1], window), Fresh(run[k]), run[k].gameLoop + window)
    ensures Promised(run, k, Fresh(run[k]), window)
  {
    forall m | k <= m < |run| && run[m].gameLoop <= run[k].gameLoop + window
      ensures Severity(Reported(run, m, window).level) >= Severity(Fresh(run[k]))
    {
      ReportAgrees(HoldAfter(run[..m], window), run[m], window);
      if m > k {
        assert run[..m][..k + 1] == run[..k + 1];
        HoldPersists(run[..m], k, Fresh(run[k]), run[k].gameLoop + window, window);
      }
    }
  }

  /** A report equal to a serious fresh level is kept for a full window. */
  lemma ReportedThreatPersists(run: seq<Sighting>, k: nat, window: nat)
    requires Chronological(run) && k < |run| && Serious(Fresh(run[k]))
    requires Reported(run, k, window).level == Fresh(run[k])
    ensures Promised(run, k, Fresh(run[k]), window)
  {
    assert run[..k + 1][..k] == run[..k];
    HoldLength(run[..k + 1], window);
    LongHoldKeepsPromise(run, k, window);
  }

  function EmptySighting(episode: (string, string), gameLoop: nat): Sighting {
    Sighting(episode, gameLoop, 0, false, false, 0, 0, None, false, false, 0)
  }

  /** A more severe hold is in force, and will be over before a window has passed. */
  predicate Masked(hold: Hold, s: Sighting, window: nat) {
    Within(hold, s.gameLoop) && Severity(Fresh(s)) < Severity(hold.held) && hold.until.value < s.gameLoop + window
  }

  /** A serious observation does not always get its window: seen under a more severe hold
      it refreshes nothing. Every continuation keeps its level for a window exactly when
      the hold it was seen under does not mask it. */
  lemma MaskedThreatIsForgotten(run: seq<Sighting>, window: nat)
    requires Chronological(run) && run != [] && Serious(Fresh(run[|run| - 1]))
    ensures var k := |run| - 1;
      (forall more :: Chronological(run + more) ==> Promised(run + more, k, Fresh(run[k]), window))
      <==> !Masked(HoldAfter(run[..k], window), run[k], window)
  {
    var k := |run| - 1;
    var hold := HoldAfter(run, window);
    HoldLength(run, window);
    if k > 0 {
      HoldLength(run[..k], window);
    }
    ReportAgrees(HoldAfter(run[..k], window), run[k], window);
    FreshMeaning(run[k]);
    if !Masked(HoldAfter(run[..k], window), run[k], window) {
      assert hold.until == Some(run[k].gameLoop + window);
      forall more | Chronological(run + more) ensures Promised(run + more, k, Fresh(run[k]), window) {
        assert (run + more)[..k + 1] == run && (run + more)[k] == run[k];
        LongHoldKeepsPromise(run + more, k, window);
      }
    } else {
      var later := hold.until.value + 1;
      var more := [EmptySighting(run[k].episode, later)];
      assert (run + more)[..k + 1] == run;
      assert Reported(run + more, k + 1, window).level == Calm;
      assert (run + more)[k + 1].gameLoop <= (run + more)[k].gameLoop + window;
      assert !Promised(run + more, k, Fresh(run[k]), window);
    }
  }

  /** Such masking happens: a building under attack, then only a skirmish. */
  lemma MaskingHappens(window: nat)
    requires window >= 1
    ensures var e := ("", "");
      var siege := EmptySighting(e, 0).(enemies := 1, buildingUnderAttack := true);
      var skirmish := EmptySighting(e, 1).(enemies := 1, unitUnderAttack := true);
      var run := [siege, skirmish, EmptySighting(e, window + 1)];
      && Chronological(run) && Fresh(run[1]) == High
      && Reported(run, 1, window).level == Critical
      && Reported(run, 2, window).level == Calm
  {
    var e := ("", "");
    var siege := EmptySighting(e, 0).(enemies := 1, buildingUnderAttack := true);
    var skirmish := EmptySighting(e, 1).(enemies := 1, unitUnderAttack := true);
    var run := [siege, skirmish, EmptySighting(e, window + 1)];
    assert run[..1] == [siege] && run[..2] == [siege, skirmish] && run[..0] == [];
    assert [siege][..0] == [] && [siege, skirmish][..1] == [siege];
    var first := HoldAfter([siege], window);
    assert first == StepHold(HoldAfter([], window), siege, window) == Hold(Critical, Some(window));
    assert HoldAfter([siege, skirmish], window) == StepHold(first, skirmish, window) == first;
  }
}
