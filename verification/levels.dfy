/**
  The level engine of the habit service: level n costs 100 * n experience
  points, so reaching level L takes the triangular amount 50 * L * (L - 1)
  (level 2 at 100, level 3 at 300, level 4 at 600, ...).
*/
module Levels {

  /** Experience needed to clear level `level` (getXPRequiredForLevel). */
  function XPRequiredForLevel(level: int): (r: int)
    ensures r % 100 == 0
    ensures level >= 1 <==> r >= 100
  {
    100 * level
  }

  /** Cumulative experience at which `level` is reached, in closed form. */
  function Threshold(level: int): int {
    50 * level * (level - 1)
  }

  /** The same cumulative amount summed one level at a time, as the source's loops do. */
  function SumRequired(level: nat): int {
    if level <= 1 then 0 else SumRequired(level - 1) + XPRequiredForLevel(level - 1)
  }

  /** One step of the closed form: going from `level` to `level + 1` costs XPRequiredForLevel(level). */
  lemma ThresholdStep(level: int)
    ensures Threshold(level + 1) == Threshold(level) + XPRequiredForLevel(level)
  {
    assert 50 * (level + 1) * level - 50 * level * (level - 1) == 100 * level;
  }

  /** The closed form agrees with the level-by-level sum. */
  lemma {:induction false} ThresholdIsSum(level: nat)
    ensures SumRequired(level) == Threshold(level)
  {
    if level > 1 {
      ThresholdIsSum(level - 1);
      ThresholdStep(level - 1);
    }
  }

  /** Thresholds grow with the level (from level 1 on). */
  lemma {:induction false} ThresholdMonotone(a: int, b: int)
    requires 1 <= a <= b
    ensures Threshold(a) <= Threshold(b)
    decreases b - a
  {
    if a < b {
      ThresholdMonotone(a, b - 1);
      ThresholdStep(b - 1);
    }
  }

  /**
    `level` is the level of `totalXP`: a negative total sits at level 1 (the
    source's loop is never entered), otherwise the total lies in
    [Threshold(level), Threshold(level + 1)).
  */
  ghost predicate IsLevelOf(totalXP: int, level: int) {
    if totalXP < 0 then level == 1
    else 1 <= level && Threshold(level) <= totalXP < Threshold(level + 1)
  }

  /** At most one level fits a total. */
  lemma LevelUnique(totalXP: int, a: int, b: int)
    requires IsLevelOf(totalXP, a) && IsLevelOf(totalXP, b)
    ensures a == b
  {
    if totalXP >= 0 {
      if a < b {
        ThresholdMonotone(a + 1, b);
      } else if b < a {
        ThresholdMonotone(b + 1, a);
      }
    }
  }

  /** Climbs from `level` to the level of `totalXP`. */
  function LevelFrom(totalXP: int, level: int): (r: int)
    requires 1 <= level && Threshold(level) <= totalXP
    ensures IsLevelOf(totalXP, r)
    ensures level <= r
    decreases totalXP - Threshold(level)
  {
    ThresholdStep(level);
    if totalXP < Threshold(level + 1) then level else LevelFrom(totalXP, level + 1)
  }

  /** The level reached with `totalXP` cumulative experience (calcLevel). */
  function Level(totalXP: int): (r: int)
    ensures IsLevelOf(totalXP, r)
    ensures 1 <= r
  {
    if totalXP < 0 then 1 else LevelFrom(totalXP, 1)
  }

  /** The source's while-loop over cumulative thresholds, computing the same level. */
  method CalcLevel(totalXP: int) returns (level: int)
    ensures IsLevelOf(totalXP, level)
    ensures level == Level(totalXP)
  {
    level := 1;
    var xpNeeded := 0;
    while xpNeeded <= totalXP
      invariant 1 <= level && 0 <= xpNeeded
      invariant totalXP < 0 ==> level == 1
      invariant totalXP >= 0 ==> Threshold(level) <= totalXP
      invariant xpNeeded == Threshold(level) || (xpNeeded == Threshold(level + 1) && totalXP < xpNeeded)
      decreases totalXP - xpNeeded
    {
      ThresholdStep(level);
      xpNeeded := xpNeeded + XPRequiredForLevel(level);
      if xpNeeded <= totalXP {
        level := level + 1;
      }
    }
    LevelUnique(totalXP, level, Level(totalXP));
  }

  /** The level thresholds: 0 and 99 are level 1, 100 and 299 level 2, 300 level 3, 600 level 4. */
  lemma LevelExamples()
    ensures Level(0) == 1 && Level(99) == 1
    ensures Level(100) == 2 && Level(299) == 2
    ensures Level(300) == 3 && Level(599) == 3
    ensures Level(600) == 4
  {
    LevelUnique(0, Level(0), 1);
    LevelUnique(99, Level(99), 1);
    LevelUnique(100, Level(100), 2);
    LevelUnique(299, Level(299), 2);
    LevelUnique(300, Level(300), 3);
    LevelUnique(599, Level(599), 3);
    LevelUnique(600, Level(600), 4);
  }

  /** More experience never means a lower level. */
  lemma LevelMonotone(t1: int, t2: int)
    requires t1 <= t2
    ensures Level(t1) <= Level(t2)
  {
    var a, b := Level(t1), Level(t2);
    if t1 >= 0 && b < a {
      ThresholdMonotone(b + 1, a);
    }
  }

  /** A gain smaller than 200 points crosses at most one threshold. */
  lemma LevelStepAtMostOne(totalXP: int, gain: int)
    requires 0 <= totalXP && 0 <= gain < 200
    ensures Level(totalXP) <= Level(totalXP + gain) <= Level(totalXP) + 1
  {
    LevelMonotone(totalXP, totalXP + gain);
    var l := Level(totalXP);
    ThresholdStep(l + 1);
    var m := Level(totalXP + gain);
    if m > l + 1 {
      ThresholdMonotone(l + 2, m);
    }
  }

  /** Progress inside the current level (getCurrentLevelProgress's result). */
  datatype LevelProgress = LevelProgress(currentXP: int, neededXP: int)

  /** The experience earned inside the current level and what that level needs in all. */
  function Progress(totalXP: int): (p: LevelProgress)
    ensures totalXP - p.currentXP == SumRequired(Level(totalXP))
    ensures Threshold(Level(totalXP)) + p.neededXP == Threshold(Level(totalXP) + 1)
    ensures totalXP >= 0 ==> 0 <= p.currentXP < p.neededXP
    ensures totalXP < 0 ==> p == LevelProgress(totalXP, 100)
  {
    var level := Level(totalXP);
    ThresholdIsSum(level);
    ThresholdStep(level);
    LevelProgress(totalXP - Threshold(level), XPRequiredForLevel(level))
  }

  /** Experience the current level needs in all (getXPforNext). */
  function XPForNext(totalXP: int): (r: int)
    ensures r == Progress(totalXP).neededXP
    ensures Threshold(Level(totalXP)) + r == Threshold(Level(totalXP) + 1)
    ensures totalXP >= 0 ==> totalXP < Threshold(Level(totalXP)) + r
  {
    ThresholdStep(Level(totalXP));
    XPRequiredForLevel(Level(totalXP))
  }

  /** The source's for-loop that sums the requirements of all cleared levels. */
  method CurrentLevelProgress(totalXP: int) returns (currentXP: int, neededXP: int)
    ensures LevelProgress(currentXP, neededXP) == Progress(totalXP)
    ensures totalXP >= 0 ==> 0 <= currentXP < neededXP
  {
    var currentLevel := CalcLevel(totalXP);
    var xpForCurrent := 0;
    var i := 1;
    while i < currentLevel
      invariant 1 <= i <= currentLevel
      invariant xpForCurrent == Threshold(i)
    {
      ThresholdStep(i);
      xpForCurrent := xpForCurrent + XPRequiredForLevel(i);
      i := i + 1;
    }
    currentXP := totalXP - xpForCurrent;
    neededXP := XPRequiredForLevel(currentLevel);
  }
}
