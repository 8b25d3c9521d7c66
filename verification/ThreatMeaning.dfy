/** What a threat report says of one observation, in plain numbers, and that more danger is
    never reported as less. */
module ThreatMeaning {
  import opened Ordering
  import opened Threat

  /** What attacks and distance make of an observation with visible enemies. */
  function Pressure(s: Sighting): real {
    (if s.buildingUnderAttack then 7.0 else if s.unitUnderAttack then 4.0 else 1.0)
    + (match s.nearest
       case None => 0.0
       case Some(d) => if s.enemyCombatValue == 0 || d > 16.0 then 0.0 else if d > 8.0 then 2.0 else 3.0)
  }

  /** The enemy's force as a multiple of the own one adds 4 from twice on and 3 from three
      quarters on; against no force at all a fighting enemy weighs at least 7. */
  function Balance(s: Sighting, score: real): real {
    if s.enemyCombatValue == 0 then score
    else if s.ownCombatValue == 0 then if score < 7.0 then 7.0 else score
    else
      var ratio := s.enemyCombatValue as real / s.ownCombatValue as real;
      if ratio < 0.75 then score else if ratio < 2.0 then score + 3.0 else score + 4.0
  }

  /** Undefended air adds 2, a lost last town hall weighs at least 7, and each damage marker
      adds 1, up to 3. */
  function Weight(s: Sighting): real {
    var score := Balance(s, Pressure(s)) + if s.noAntiAir then 2.0 else 0.0;
    var housed := if s.noTownhall && score < 7.0 then 7.0 else score;
    housed + if s.damageMarkers >= 3 then 3.0 else s.damageMarkers as real
  }

  lemma BalanceMeaning(s: Sighting, score: real)
    ensures WithForceRatio(score, s) == Balance(s, score)
  {
    if s.ownCombatValue != 0 {
      RatioBound(s.enemyCombatValue as real, s.ownCombatValue as real, 0.75);
      RatioBound(s.enemyCombatValue as real, s.ownCombatValue as real, 2.0);
    }
  }

  lemma RatioBound(a: real, b: real, k: real)
    requires b > 0.0
    ensures a / b < k <==> a < k * b
  {
    var q := a / b;
    assert q * b == a;
    if q < k {
      assert (k - q) * b > 0.0;
    } else {
      assert (q - k) * b >= 0.0;
    }
  }

  lemma WeightMeaning(s: Sighting)
    ensures FreshScore(s) == Weight(s)
  {
    assert AttackScore(s) + ProximityBonus(s) == Pressure(s);
    BalanceMeaning(s, Pressure(s));
  }

  /** A hold of a more serious level that is still in force. */
  predicate Overrules(hold: Hold, s: Sighting, level: Level) {
    && hold.until.Some? && s.gameLoop <= hold.until.value
    && ((hold.held == Critical && level != Critical) || (hold.held == High && (level == Low || level == Calm)))
  }

  /** The level a weight stands for. */
  function LevelOf(s: Sighting): Level {
    if s.enemies == 0 then Calm
    else if Weight(s) >= 7.0 then Critical
    else if Weight(s) >= 4.0 then High
    else Low
  }

  /** Every report: without a hold that overrules it, the level of the weight and the weight;
      else the held level, and a score that is at least 4 for HIGH and 7 for CRITICAL. */
  lemma ReportMeaning(hold: Hold, s: Sighting)
    ensures var report := StepReport(hold, s);
      if Overrules(hold, s, LevelOf(s)) then
        var floor := if hold.held == High then 4.0 else 7.0;
        && report.level == hold.held
        && report.score == if s.enemies == 0 || Weight(s) < floor then floor else Weight(s)
      else
        && report.level == LevelOf(s) && report.score == if s.enemies == 0 then 0.0 else Weight(s)
  {
    WeightMeaning(s);
    FreshMeaning(s);
  }

  /** What is held afterwards: what was held, while it overrules; nothing after a calm or a
      slight observation; and otherwise the observation's level, for a full window. */
  lemma HoldMeaning(hold: Hold, s: Sighting, window: nat)
    ensures StepHold(hold, s, window) ==
      if Overrules(hold, s, LevelOf(s)) then hold
      else if LevelOf(s) == Calm then Hold(Calm, None)
      else if LevelOf(s) == Low && hold.held != Calm then Hold(Low, None)
      else Hold(LevelOf(s), Some(s.gameLoop + window))
  {
    WeightMeaning(s);
    FreshMeaning(s);
  }

  /** `t` is at least as alarming as `s` in every respect. */
  predicate AtLeastAsBad(s: Sighting, t: Sighting) {
    && (s.enemies > 0 ==> t.enemies > 0)
    && (s.unitUnderAttack ==> t.unitUnderAttack) && (s.buildingUnderAttack ==> t.buildingUnderAttack)
    && s.enemyCombatValue <= t.enemyCombatValue && t.ownCombatValue <= s.ownCombatValue
    && (s.nearest.Some? ==> t.nearest.Some? && t.nearest.value <= s.nearest.value)
    && (s.noAntiAir ==> t.noAntiAir) && (s.noTownhall ==> t.noTownhall) && s.damageMarkers <= t.damageMarkers
  }

  lemma AlarmsGrow(s: Sighting, t: Sighting)
    requires AtLeastAsBad(s, t)
    ensures 0.0 < AttackScore(s) + ProximityBonus(s) <= AttackScore(t) + ProximityBonus(t)
  {
  }

  lemma RatioGrows(s: Sighting, t: Sighting, a: real, b: real)
    requires AtLeastAsBad(s, t) && 0.0 < a <= b
    ensures t.ownCombatValue > 0 || t.enemyCombatValue == 0 || s.ownCombatValue == 0 ==>
      WithForceRatio(a, s) <= WithForceRatio(b, t)
    ensures t.ownCombatValue == 0 && t.enemyCombatValue > 0 ==> WithForceRatio(b, t) >= 7.0
  {
  }

  /** A score never falls as things get worse, unless the last of the own army is lost while
      something fights it. */
  lemma WorseScoresMore(s: Sighting, t: Sighting)
    requires AtLeastAsBad(s, t)
    requires t.ownCombatValue > 0 || t.enemyCombatValue == 0 || s.ownCombatValue == 0
    ensures FreshScore(s) <= FreshScore(t)
  {
    AlarmsGrow(s, t);
    RatioGrows(s, t, AttackScore(s) + ProximityBonus(s), AttackScore(t) + ProximityBonus(t));
  }

  /** Then it may fall: a base stormed by twice the own army scores 14, and 10 once that army
      is gone. */
  lemma LastStandScoresMore()
    ensures exists s, t :: AtLeastAsBad(s, t) && FreshScore(s) == 14.0 && FreshScore(t) == 10.0
  {
    var s := Sighting(("", ""), 0, 1, false, true, 1, 2, Some(0.0), false, false, 0);
    var t := s.(ownCombatValue := 0);
    assert AtLeastAsBad(s, t) && FreshScore(s) == 14.0 && FreshScore(t) == 10.0;
  }

  /** The level of an observation never falls as things get worse. */
  lemma WorseIsAtLeastAsSevere(s: Sighting, t: Sighting)
    requires AtLeastAsBad(s, t)
    ensures Severity(Fresh(s)) <= Severity(Fresh(t))
  {
    AlarmsGrow(s, t);
    RatioGrows(s, t, AttackScore(s) + ProximityBonus(s), AttackScore(t) + ProximityBonus(t));
    if t.ownCombatValue > 0 || t.enemyCombatValue == 0 || s.ownCombatValue == 0 {
      WorseScoresMore(s, t);
    }
  }

  /** Nor does what is reported, under the same hold. */
  lemma WorseIsReportedAtLeastAsSevere(hold: Hold, s: Sighting, t: Sighting)
    requires AtLeastAsBad(s, t) && s.gameLoop == t.gameLoop
    ensures Severity(StepReport(hold, s).level) <= Severity(StepReport(hold, t).level)
  {
    WorseIsAtLeastAsSevere(s, t);
  }
}
