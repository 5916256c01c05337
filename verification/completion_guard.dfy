/**
  The completion guard (checkCompleteToday). The window starts at local
  midnight for daily habits and seven days before now for weekly ones. The
  lookup ends in `.single()`, which yields a row only when exactly one log
  matches; zero rows, two or more rows and a failed query all read as
  "not completed".
*/
module CompletionGuard {
  import opened Entities
  import opened LocalTime

  /** The first instant of the current completion window. */
  function WindowStart(cal: Calendar, now: int, frequency: Frequency): (start: int)
    ensures frequency == Weekly ==> now - start == 604_800_000
    ensures frequency == Daily && Coherent(cal) ==> start <= now && cal.dayOf(start) == cal.dayOf(now)
  {
    StartOfDayInItsDay(cal, now);
    match frequency
    case Daily => StartOfDay(cal, now)
    case Weekly => now - WeekMs
  }

  /** Row `i` is a completion of habit `h` at or after `start`. */
  predicate InWindow(logs: seq<HabitLog>, i: int, h: HabitId, start: int)
    requires 0 <= i < |logs|
  {
    logs[i].habitId == h && logs[i].completedAt >= start
  }

  /** The number of completions of `h` at or after `start`. */
  function CountInWindow(logs: seq<HabitLog>, h: HabitId, start: int): (n: nat)
    ensures n == 0 <==> forall i :: 0 <= i < |logs| ==> !InWindow(logs, i, h, start)
    ensures n <= |logs|
    decreases |logs|
  {
    if |logs| == 0 then 0
    else
      var k := |logs| - 1;
      var rest := CountInWindow(logs[..k], h, start);
      assert forall i :: 0 <= i < k ==> InWindow(logs, i, h, start) == InWindow(logs[..k], i, h, start);
      rest + (if InWindow(logs, k, h, start) then 1 else 0)
  }

  /** Row `i` is the only completion of `h` at or after `start`. */
  ghost predicate OnlyAt(logs: seq<HabitLog>, h: HabitId, start: int, i: int) {
    && 0 <= i < |logs|
    && InWindow(logs, i, h, start)
    && forall j :: 0 <= j < |logs| && InWindow(logs, j, h, start) ==> j == i
  }

  /** Exactly one row of `logs` is a completion of `h` at or after `start`. */
  ghost predicate ExactlyOne(logs: seq<HabitLog>, h: HabitId, start: int) {
    exists i :: OnlyAt(logs, h, start, i)
  }

  /** A count of one comes from a single row in the window. */
  lemma {:induction false} CountOneSound(logs: seq<HabitLog>, h: HabitId, start: int)
    requires CountInWindow(logs, h, start) == 1
    ensures ExactlyOne(logs, h, start)
    decreases |logs|
  {
    var k := |logs| - 1;
    var pre := logs[..k];
    assert forall i :: 0 <= i < k ==> InWindow(logs, i, h, start) == InWindow(pre, i, h, start);
    if InWindow(logs, k, h, start) {
      assert OnlyAt(logs, h, start, k);
    } else {
      CountOneSound(pre, h, start);
      var i :| OnlyAt(pre, h, start, i);
      assert OnlyAt(logs, h, start, i);
    }
  }

  /** A single row in the window gives a count of one. */
  lemma {:induction false} CountOneComplete(logs: seq<HabitLog>, h: HabitId, start: int, i: int)
    requires OnlyAt(logs, h, start, i)
    ensures CountInWindow(logs, h, start) == 1
    decreases |logs|
  {
    var k := |logs| - 1;
    var pre := logs[..k];
    assert forall j :: 0 <= j < k ==> InWindow(logs, j, h, start) == InWindow(pre, j, h, start);
    if i < k {
      assert OnlyAt(pre, h, start, i);
      CountOneComplete(pre, h, start, i);
    }
  }

  /** The count is one exactly when a single row lies in the window. */
  lemma CountIsOne(logs: seq<HabitLog>, h: HabitId, start: int)
    ensures CountInWindow(logs, h, start) == 1 <==> ExactlyOne(logs, h, start)
  {
    if CountInWindow(logs, h, start) == 1 {
      CountOneSound(logs, h, start);
    }
    if ExactlyOne(logs, h, start) {
      var i :| OnlyAt(logs, h, start, i);
      CountOneComplete(logs, h, start, i);
    }
  }

  /** checkCompleteToday: true exactly when the query succeeds and one log of the habit lies in the window. */
  function AlreadyCompleted(logs: seq<HabitLog>, h: HabitId, frequency: Frequency,
                            cal: Calendar, now: int, lookupFails: bool): (done: bool)
    ensures done <==> !lookupFails && ExactlyOne(logs, h, WindowStart(cal, now, frequency))
  {
    CountIsOne(logs, h, WindowStart(cal, now, frequency));
    !lookupFails && CountInWindow(logs, h, WindowStart(cal, now, frequency)) == 1
  }

  /** A daily window holds the completions whose local date is today or later. */
  lemma DailyWindow(cal: Calendar, now: int, t: int)
    requires Coherent(cal)
    ensures t >= WindowStart(cal, now, Daily) <==> cal.dayOf(t) >= cal.dayOf(now)
  {
    AtOrAfterStartOfDay(cal, now, t);
  }

  /** A weekly window is the rolling 604 800 000 ms before now, its start included. */
  lemma WeeklyWindow(cal: Calendar, now: int, t: int)
    ensures t >= WindowStart(cal, now, Weekly) <==> now - t <= 604_800_000
  {
  }

  /** With two completions in the window the guard lets another one through. */
  lemma TwoInWindowNotGuarded(logs: seq<HabitLog>, h: HabitId, frequency: Frequency, cal: Calendar, now: int, i: int, j: int)
    requires 0 <= i < j < |logs|
    requires InWindow(logs, i, h, WindowStart(cal, now, frequency))
    requires InWindow(logs, j, h, WindowStart(cal, now, frequency))
    ensures !AlreadyCompleted(logs, h, frequency, cal, now, false)
  {
  }
}
