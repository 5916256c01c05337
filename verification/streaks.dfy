/**
  The streak calculator (calcNewStreak): only the most recent completion of
  the habit is looked at. A daily streak continues when that completion fell
  on the local date before today; a weekly streak continues when at most 14
  days (inclusive) have passed since it.
*/
module Streaks {
  import opened Options
  import opened Entities
  import opened LocalTime

  /** The time of the most recent completion of habit `h`, if any (the first row of the descending query). */
  function LatestCompletion(logs: seq<HabitLog>, h: HabitId): (r: Option<int>)
    ensures r.None? <==> forall i :: 0 <= i < |logs| ==> logs[i].habitId != h
    ensures r.Some? ==> exists i :: 0 <= i < |logs| && logs[i].habitId == h && logs[i].completedAt == r.value
    ensures r.Some? ==> forall i :: 0 <= i < |logs| && logs[i].habitId == h ==> logs[i].completedAt <= r.value
    decreases |logs|
  {
    if |logs| == 0 then None
    else
      var rest := LatestCompletion(logs[1..], h);
      if logs[0].habitId != h then
        rest
      else match rest
        case None => Some(logs[0].completedAt)
        case Some(t) => Some(if logs[0].completedAt >= t then logs[0].completedAt else t)
  }

  /** Whether a streak whose last completion was at `last` continues at `now`. */
  predicate Continues(cal: Calendar, now: int, frequency: Frequency, last: int) {
    match frequency
    case Daily => StartOfDay(cal, last) == StartOfYesterday(cal, now)
    case Weekly => now - last <= 14 * DayMs
  }

  /**
    The new streak: 1 for a first completion or a broken streak, otherwise
    the caller's current streak plus one.
  */
  function NewStreak(cal: Calendar, now: int, frequency: Frequency, currentStreak: int, last: Option<int>): (s: int)
    ensures s == 1 || s == currentStreak + 1
    ensures last.None? ==> s == 1
  {
    match last
    case None => 1
    case Some(t) => if Continues(cal, now, frequency, t) then currentStreak + 1 else 1
  }

  /** calcNewStreak over the store's logs; a failed query yields no rows. */
  function CalcNewStreak(logs: seq<HabitLog>, h: HabitId, frequency: Frequency, currentStreak: int,
                         cal: Calendar, now: int, lookupFails: bool): (s: int)
    ensures s == 1 || s == currentStreak + 1
    ensures lookupFails || (forall i :: 0 <= i < |logs| ==> logs[i].habitId != h) ==> s == 1
  {
    NewStreak(cal, now, frequency, currentStreak, if lookupFails then None else LatestCompletion(logs, h))
  }

  /** Daily rule in calendar terms: the streak continues exactly when the last completion's local date is yesterday. */
  lemma DailyStreakRule(cal: Calendar, now: int, currentStreak: int, last: int)
    requires Coherent(cal)
    ensures NewStreak(cal, now, Daily, currentStreak, Some(last))
         == if cal.dayOf(last) == cal.dayOf(now) - 1 then currentStreak + 1 else 1
  {
    MidnightInjective(cal, cal.dayOf(last), cal.dayOf(now) - 1);
  }

  /** Weekly rule: exactly 14 days after the last completion still continues, one millisecond later resets. */
  lemma WeeklyBoundary(cal: Calendar, last: int, currentStreak: int)
    ensures NewStreak(cal, last + 14 * DayMs, Weekly, currentStreak, Some(last)) == currentStreak + 1
    ensures NewStreak(cal, last + 14 * DayMs + 1, Weekly, currentStreak, Some(last)) == 1
  {
  }

  /** Weekly rule for any pair of instants. */
  lemma WeeklyStreakRule(cal: Calendar, now: int, currentStreak: int, last: int)
    ensures NewStreak(cal, now, Weekly, currentStreak, Some(last))
         == if now - last <= 1_209_600_000 then currentStreak + 1 else 1
  {
  }

  /** Only the most recent completion matters: adding an older log of the habit changes nothing. */
  lemma {:induction false} OlderLogIrrelevant(logs: seq<HabitLog>, h: HabitId, extra: HabitLog)
    requires extra.habitId == h
    requires LatestCompletion(logs, h).Some? && extra.completedAt <= LatestCompletion(logs, h).value
    ensures LatestCompletion(logs + [extra], h) == LatestCompletion(logs, h)
  {
    var t := LatestCompletion(logs, h).value;
    var logs' := logs + [extra];
    var r := LatestCompletion(logs', h);
    assert logs'[|logs|].habitId == h;
    assert r.Some?;
    var i :| 0 <= i < |logs| && logs[i].habitId == h && logs[i].completedAt == t;
    assert logs'[i].habitId == h && logs'[i].completedAt == t;
    assert t <= r.value;
    var j :| 0 <= j < |logs'| && logs'[j].habitId == h && logs'[j].completedAt == r.value;
    if j < |logs| {
      assert logs[j].habitId == h;
    }
  }
}
