/**
  The progression orchestrator (completeHabit): reject, append a completion
  log, update the habit, get or create the profile, update the profile, and
  unlock the accessories of a newly reached level. It is a step function
  from a store to a result and the store after whatever writes took place;
  the writes are not transactional, so an error keeps the earlier ones.
*/
module Progression {
  import opened Options
  import opened Entities
  import opened LocalTime
  import opened Levels
  import opened Rewards
  import opened Streaks
  import opened CompletionGuard
  import opened Unlocker

  /** The messages completeHabit returns. */
  datatype Message =
    | NotAuthorised
    | AlreadyCompletedToday
    | AlreadyCompletedThisWeek
    | FailedToCompleteHabit
    | FailedToGetProfile
    | XPGained(xp: int)

  /** A character is a decimal digit. */
  predicate IsDigit(c: char) {
    '0' <= c <= '9'
  }

  /** The decimal text of `n`, as a template literal prints it: digits only, no leading zero. */
  function DigitText(n: nat): (r: string)
    ensures |r| >= 1 && forall i :: 0 <= i < |r| ==> IsDigit(r[i])
    ensures n > 0 ==> r[0] != '0'
    decreases n
  {
    var d := "0123456789"[n % 10];
    if n < 10 then [d] else DigitText(n / 10) + [d]
  }

  /** The number a string of decimal digits denotes. */
  function DigitsValue(s: string): nat
    requires forall i :: 0 <= i < |s| ==> IsDigit(s[i])
    decreases |s|
  {
    if |s| == 0 then 0
    else
      var c := s[|s| - 1];
      assert IsDigit(c);
      DigitsValue(s[..|s| - 1]) * 10 + (c as int - '0' as int)
  }

  /** Reading the decimal text back gives the number: the printed award is the awarded one. */
  lemma {:induction false} DigitTextValue(n: nat)
    ensures DigitsValue(DigitText(n)) == n
    decreases n
  {
    var r := DigitText(n);
    if n >= 10 {
      DigitTextValue(n / 10);
      assert r[..|r| - 1] == DigitText(n / 10);
    }
  }

  /** Different numbers print differently. */
  lemma DigitTextInjective(a: nat, b: nat)
    ensures DigitText(a) == DigitText(b) <==> a == b
  {
    DigitTextValue(a);
    DigitTextValue(b);
  }

  /**
    The closing characters of the success message, as the program's literal
    holds them: the four UTF-8 bytes of the party-popper emoji (U+1F389)
    read back as Windows-1252 characters, so the program prints these four
    characters and not the emoji.
  */
  const Celebration: string := "\U{F0}\U{178}\U{17D}\U{2030}"

  /** The user-facing text of a message; only the success message starts with '+'. */
  function Text(m: Message): (r: string)
    ensures |r| > 0 && (r[0] == '+' <==> m.XPGained?)
    ensures m.XPGained? ==> |r| >= 9 && r[|r| - 9..] == " XP! " + Celebration
  {
    match m
    case NotAuthorised => "Not Authorised"
    case AlreadyCompletedToday => "Already completed today!"
    case AlreadyCompletedThisWeek => "Already completed this week!"
    case FailedToCompleteHabit => "Failed to complete habit"
    case FailedToGetProfile => "Failed to get profile"
    case XPGained(xp) => "+" + (if xp < 0 then "-" + DigitText(-xp) else DigitText(xp)) + " XP! " + Celebration
  }

  /** The success message for an award of 12. */
  lemma XPGainedExample()
    ensures Text(XPGained(12)) == "+12 XP! \U{F0}\U{178}\U{17D}\U{2030}"
  {
    assert DigitText(12) == "12";
  }

  /** The texts of the messages that report a rejection or a failure. */
  lemma FailureTexts()
    ensures Text(NotAuthorised) == "Not Authorised"
    ensures Text(AlreadyCompletedToday) == "Already completed today!"
    ensures Text(AlreadyCompletedThisWeek) == "Already completed this week!"
    ensures Text(FailedToGetProfile) == "Failed to get profile"
    ensures Text(FailedToCompleteHabit) == "Failed to complete habit"
  {
  }

  /** Two non-negative awards print the same message only when they are equal. */
  lemma XPGainedTextInjective(a: nat, b: nat)
    ensures Text(XPGained(a)) == Text(XPGained(b)) <==> a == b
  {
    var sa, sb := DigitText(a), DigitText(b);
    var suffix := " XP! " + Celebration;
    assert Text(XPGained(a)) == "+" + sa + suffix;
    assert Text(XPGained(b)) == "+" + sb + suffix;
    if Text(XPGained(a)) == Text(XPGained(b)) {
      Middle("+", sa, suffix);
      Middle("+", sb, suffix);
      DigitTextInjective(a, b);
    }
  }

  /** The middle part of a three-part concatenation is recovered by slicing. */
  lemma Middle(p: string, x: string, q: string)
    ensures |p + x + q| == |p| + |x| + |q|
    ensures (p + x + q)[|p|..|p + x + q| - |q|] == x
  {
  }

  /** CompleteHabitResult; the optional fields are present only on success. */
  datatype CompleteHabitResult = CompleteHabitResult(
    success: bool,
    message: Message,
    xpEarned: Option<int>,
    newLevel: Option<int>,
    leveledUp: Option<bool>,
    newStreak: Option<int>)

  /** Which store calls of completeHabit, before the unlock, report an error during one completion. */
  datatype Faults = Faults(
    guardLookup: bool,
    streakLookup: bool,
    logInsert: bool,
    habitUpdate: bool,
    profileLookup: bool,
    profileCreate: bool,
    profileUpdate: bool)

  const NoFaults: Faults := Faults(false, false, false, false, false, false, false)

  /** Which calls of the unlock step report an error: the catalogue lookup, and the inserts of these accessories. */
  datatype UnlockFaults = UnlockFaults(lookup: bool, inserts: set<AccessoryId>)

  const NoUnlockFaults: UnlockFaults := UnlockFaults(false, {})

  /**
    What the outside world supplies: the signed-in user, the clock, the
    local calendar, the random draw in [0, 1) and the errors of the store
    calls made before the unlock.
  */
  datatype Env = Env(user: Option<User>, now: int, calendar: Calendar, roll: real, faults: Faults)

  function Failure(m: Message): CompleteHabitResult {
    CompleteHabitResult(false, m, None, None, None, None)
  }

  /** The update of the habit row; an unknown id matches no row and changes nothing. */
  function UpdateHabit(habits: map<HabitId, Habit>, id: HabitId, streak: int, points: int): (r: map<HabitId, Habit>)
    ensures r.Keys == habits.Keys
    ensures id in habits ==> r[id] == habits[id].(streak := streak, points := points)
    ensures forall k :: k in habits && k != id ==> r[k] == habits[k]
  {
    if id in habits then habits[id := habits[id].(streak := streak, points := points)] else habits
  }

  /** The profile a new user starts with. */
  function FreshProfile(user: User): UserProfile {
    UserProfile(user.id, user.email, 1, 0, 0)
  }

  /**
    Looks the user's profile up and creates it when the lookup yields
    nothing. Creation fails when it is told to or when a profile for the
    user already exists (profiles are keyed by user).
  */
  function GetOrCreateProfile(store: Store, user: User, lookupFails: bool, createFails: bool): (r: (Option<UserProfile>, Store))
    ensures r.1 == store || r.1 == store.(profiles := store.profiles[user.id := FreshProfile(user)])
    ensures !lookupFails && user.id in store.profiles ==> r == (Some(store.profiles[user.id]), store)
    ensures r.0.Some? ==> user.id in r.1.profiles && r.1.profiles[user.id] == r.0.value
    ensures r.0.Some? && r.1 != store ==> user.id !in store.profiles && r.0.value == FreshProfile(user)
    ensures r.0.None? ==> r.1 == store && (lookupFails || user.id !in store.profiles)
    ensures !createFails && user.id !in store.profiles ==>
      r == (Some(FreshProfile(user)), store.(profiles := store.profiles[user.id := FreshProfile(user)]))
    ensures createFails && (lookupFails || user.id !in store.profiles) ==> r == (None, store)
  {
    if !lookupFails && user.id in store.profiles then (Some(store.profiles[user.id]), store)
    else if createFails || user.id in store.profiles then (None, store)
    else (Some(FreshProfile(user)), store.(profiles := store.profiles[user.id := FreshProfile(user)]))
  }

  /** The streak the completion computes. */
  function StreakOf(store: Store, env: Env, h: HabitId, frequency: Frequency, currentStreak: int): int {
    CalcNewStreak(store.logs, h, frequency, currentStreak, env.calendar, env.now, env.faults.streakLookup)
  }

  /** The guard's verdict for the completion. */
  function GuardOf(store: Store, env: Env, h: HabitId, frequency: Frequency): bool {
    AlreadyCompleted(store.logs, h, frequency, env.calendar, env.now, env.faults.guardLookup)
  }

  /** The profile after a completion awarding `xp`. */
  function SettleProfile(p: UserProfile, xp: int): (q: UserProfile)
    ensures q.userId == p.userId && q.username == p.username
    ensures q.totalXP - p.totalXP == xp
    ensures IsLevelOf(q.totalXP, q.level)
    ensures q.totalXP >= 0 ==> 0 <= q.xp < XPRequiredForLevel(q.level)
    ensures q.totalXP - q.xp == SumRequired(q.level)
  {
    var total := p.totalXP + xp;
    p.(xp := Progress(total).currentXP, totalXP := total, level := Level(total))
  }

  /**
    completeHabit up to the unlock: the rejections, the log insert, the
    habit update, the profile lookup or creation and the profile update. Returns
    the result and the store before any accessory is unlocked.
  */
  function RecordCompletion(store: Store, env: Env, h: HabitId, frequency: Frequency, currentStreak: int): (out: (CompleteHabitResult, Store))
    requires 0.0 <= env.roll < 1.0
    ensures out.1.catalog == store.catalog && out.1.owned == store.owned
    ensures out.0.success ==> env.user.Some? && out.0.xpEarned.Some? && out.0.newLevel.Some?
    ensures out.0.success ==> out.0.leveledUp.Some? && out.0.newStreak.Some?
    ensures out.0.success ==> env.user.value.id in out.1.profiles
    ensures !out.0.success ==> out.0 == Failure(out.0.message) && !out.0.message.XPGained?
  {
    if env.user.None? then (Failure(NotAuthorised), store)
    else if GuardOf(store, env, h, frequency) then
      (Failure(if frequency == Daily then AlreadyCompletedToday else AlreadyCompletedThisWeek), store)
    else
      var user := env.user.value;
      var newStreak := StreakOf(store, env, h, frequency, currentStreak);
      var xpEarned := XPEarned(newStreak, env.roll);
      if env.faults.logInsert then (Failure(FailedToCompleteHabit), store)
      else
        var s1 := store.(logs := store.logs + [HabitLog(h, user.id, env.now, xpEarned)]);
        if env.faults.habitUpdate then (Failure(FailedToCompleteHabit), s1)
        else
          var s2 := s1.(habits := UpdateHabit(s1.habits, h, newStreak, currentStreak + xpEarned));
          var (profile, s3) := GetOrCreateProfile(s2, user, env.faults.profileLookup, env.faults.profileCreate);
          if profile.None? then (Failure(FailedToGetProfile), s3)
          else if env.faults.profileUpdate then (Failure(FailedToCompleteHabit), s3)
          else
            var settled := SettleProfile(profile.value, xpEarned);
            var leveledUp := settled.level > profile.value.level;
            (CompleteHabitResult(true, XPGained(xpEarned), Some(xpEarned), Some(settled.level), Some(leveledUp), Some(newStreak)),
             s3.(profiles := s3.profiles[user.id := settled]))
  }

  /**
    completeHabit for habit `h`, its frequency and the streak the caller
    passes; `unlock` says which calls of the unlock step fail.
  */
  function CompleteHabit(store: Store, env: Env, unlock: UnlockFaults, h: HabitId, frequency: Frequency, currentStreak: int): (out: (CompleteHabitResult, Store))
    requires 0.0 <= env.roll < 1.0
    ensures env.user.None? ==> out == (Failure(NotAuthorised), store)
    ensures env.user.Some? && GuardOf(store, env, h, frequency) ==>
      out == (Failure(if frequency == Daily then AlreadyCompletedToday else AlreadyCompletedThisWeek), store)
    ensures |store.logs| <= |out.1.logs| <= |store.logs| + 1 && out.1.logs[..|store.logs|] == store.logs
    ensures out.1.catalog == store.catalog && store.owned <= out.1.owned
    ensures out.0.success ==> env.user.Some? && out.0.xpEarned.Some? && out.0.newLevel.Some?
    ensures out.0.success ==> out.0.leveledUp.Some? && out.0.newStreak.Some?
    ensures out.0.success ==> out.0.message == XPGained(out.0.xpEarned.value) && 8 <= out.0.xpEarned.value <= 120
    ensures out.0.success ==> out.0.newStreak.value == 1 || out.0.newStreak.value == currentStreak + 1
    ensures out.0.success ==> out.1.logs == store.logs + [HabitLog(h, env.user.value.id, env.now, out.0.xpEarned.value)]
    ensures out.0.success ==> env.user.value.id in out.1.profiles
    ensures out.0.success ==> out.1.profiles[env.user.value.id].level == out.0.newLevel.value
    ensures out.0.success ==> IsLevelOf(out.1.profiles[env.user.value.id].totalXP, out.0.newLevel.value)
    ensures !out.0.success ==> out.1.owned == store.owned && out.0 == Failure(out.0.message)
    ensures !out.0.success ==> !out.0.message.XPGained?
  {
    var (r, s) := RecordCompletion(store, env, h, frequency, currentStreak);
    if r.success && r.leveledUp.value
    then (r, UnlockForLevel(s, env.user.value.id, r.newLevel.value, unlock.lookup, unlock.inserts))
    else (r, s)
  }
}
