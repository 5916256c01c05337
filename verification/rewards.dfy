/**
  The experience awarder (calcXPearned): a streak selects a tier of rewards and
  the random draw picks a value inside it. `Math.random()` is modelled by a
  caller-supplied `roll` in [0, 1).
*/
module Rewards {

  /** An inclusive range of experience rewards. */
  datatype XPRange = XPRange(min: int, max: int)

  /** The reward tier for a streak; streaks below 7, negative ones included, get the first tier. */
  function TierFor(streak: int): XPRange {
    if streak >= 100 then XPRange(50, 120)
    else if streak >= 30 then XPRange(30, 70)
    else if streak >= 7 then XPRange(15, 35)
    else XPRange(8, 15)
  }

  /** floor(roll * (max - min + 1)) + min for the streak's tier. */
  function XPEarned(streak: int, roll: real): (xp: int)
    requires 0.0 <= roll < 1.0
    ensures streak < 7 ==> 8 <= xp <= 15
    ensures 7 <= streak < 30 ==> 15 <= xp <= 35
    ensures 30 <= streak < 100 ==> 30 <= xp <= 70
    ensures 100 <= streak ==> 50 <= xp <= 120
  {
    var tier := TierFor(streak);
    (roll * (tier.max - tier.min + 1) as real).Floor + tier.min
  }

  /** Every reward stays below 200, so one completion can never skip a level. */
  lemma XPEarnedBounds(streak: int, roll: real)
    requires 0.0 <= roll < 1.0
    ensures 8 <= XPEarned(streak, roll) <= 120
  {
  }

  /** Every value of the streak's tier, both bounds included, is drawn by some roll. */
  lemma EveryTierValueReachable(streak: int, v: int)
    requires TierFor(streak).min <= v <= TierFor(streak).max
    ensures exists roll: real :: 0.0 <= roll < 1.0 && XPEarned(streak, roll) == v
  {
    var tier := TierFor(streak);
    var span := tier.max - tier.min + 1;
    var roll := (v - tier.min) as real / span as real;
    assert roll * span as real == (v - tier.min) as real;
    assert XPEarned(streak, roll) == v;
  }

  /** A longer streak never moves to a lower tier. */
  lemma TierMonotone(s1: int, s2: int)
    requires s1 <= s2
    ensures TierFor(s1).min <= TierFor(s2).min && TierFor(s1).max <= TierFor(s2).max
  {
  }
}
