/**
  Properties of completeHabit that relate several steps or several calls:
  what the success path writes, what each failure keeps, the ledger
  invariant between logs and profiles, and the level and unlock rules.
*/
module CompletionProperties {
  import opened Options
  import opened Entities
  import opened LocalTime
  import opened Levels
  import opened Rewards
  import opened Streaks
  import opened CompletionGuard
  import opened Unlocker
  import opened Progression

  /** The profile the completion starts from: the stored one, or a fresh one when none is stored. */
  function ProfileBefore(store: Store, user: User): UserProfile {
    if user.id in store.profiles then store.profiles[user.id] else FreshProfile(user)
  }

  /** The success path: streak, award, habit row, profile and the level-up flag. */
  lemma SuccessWrites(store: Store, env: Env, unlock: UnlockFaults, h: HabitId, frequency: Frequency, currentStreak: int)
    requires 0.0 <= env.roll < 1.0
    requires CompleteHabit(store, env, unlock, h, frequency, currentStreak).0.success
    ensures env.user.Some?
    ensures var (r, s) := CompleteHabit(store, env, unlock, h, frequency, currentStreak);
      var u := env.user.value.id;
      var before := ProfileBefore(store, env.user.value);
      && r.newStreak.value == StreakOf(store, env, h, frequency, currentStreak)
      && r.xpEarned.value == XPEarned(r.newStreak.value, env.roll)
      && s.habits == UpdateHabit(store.habits, h, r.newStreak.value, currentStreak + r.xpEarned.value)
      && u in s.profiles
      && s.profiles[u].totalXP == before.totalXP + r.xpEarned.value
      && s.profiles[u].level == Level(s.profiles[u].totalXP)
      && s.profiles[u].xp == Progress(s.profiles[u].totalXP).currentXP
      && (r.leveledUp.value <==> r.newLevel.value > before.level)
  {
    var (r, s) := RecordCompletion(store, env, h, frequency, currentStreak);
    var out := CompleteHabit(store, env, unlock, h, frequency, currentStreak);
    assert out.0 == r;
    assert out.1.habits == s.habits && out.1.profiles == s.profiles;
  }

  /** Other users' profiles are never touched. */
  lemma OtherProfilesUnchanged(store: Store, env: Env, unlock: UnlockFaults, h: HabitId, frequency: Frequency, currentStreak: int, v: UserId)
    requires 0.0 <= env.roll < 1.0
    requires env.user.Some? ==> v != env.user.value.id
    ensures var s := CompleteHabit(store, env, unlock, h, frequency, currentStreak).1;
      (v in s.profiles <==> v in store.profiles) && (v in store.profiles ==> s.profiles[v] == store.profiles[v])
  {
  }

  /** Accessories are unlocked only on a level-up, and only those of exactly the new level. */
  lemma UnlockOnLevelUp(store: Store, env: Env, unlock: UnlockFaults, h: HabitId, frequency: Frequency, currentStreak: int)
    requires 0.0 <= env.roll < 1.0
    requires CompleteHabit(store, env, unlock, h, frequency, currentStreak).0.success
    ensures var (r, s) := CompleteHabit(store, env, unlock, h, frequency, currentStreak);
      var u := env.user.value.id;
      && (!r.leveledUp.value ==> s.owned == store.owned)
      && (forall p :: p in s.owned && p !in store.owned ==>
            r.leveledUp.value && p.0 == u &&
            exists a :: a in store.catalog && a.id == p.1 && a.unlockLevel == r.newLevel.value)
      && (r.leveledUp.value && !unlock.lookup ==>
            forall a :: a in store.catalog && a.unlockLevel == r.newLevel.value && a.id !in unlock.inserts ==>
              (u, a.id) in s.owned)
  {
  }

  /** Errors of the unlock step never change the result returned to the caller. */
  lemma UnlockFailuresIgnored(store: Store, env: Env, h: HabitId, frequency: Frequency, currentStreak: int,
                              unlock1: UnlockFaults, unlock2: UnlockFaults)
    requires 0.0 <= env.roll < 1.0
    ensures CompleteHabit(store, env, unlock1, h, frequency, currentStreak).0
         == CompleteHabit(store, env, unlock2, h, frequency, currentStreak).0
  {
  }

  /** Each failing write ends the completion and keeps exactly the writes made before it. */
  lemma WriteFailures(store: Store, env: Env, unlock: UnlockFaults, h: HabitId, frequency: Frequency, currentStreak: int)
    requires 0.0 <= env.roll < 1.0
    requires env.user.Some? && !GuardOf(store, env, h, frequency)
    ensures var out := CompleteHabit(store, env, unlock, h, frequency, currentStreak);
      var xp := XPEarned(StreakOf(store, env, h, frequency, currentStreak), env.roll);
      var logged := store.(logs := store.logs + [HabitLog(h, env.user.value.id, env.now, xp)]);
      && (env.faults.logInsert ==> out == (Failure(FailedToCompleteHabit), store))
      && (!env.faults.logInsert && env.faults.habitUpdate ==> out == (Failure(FailedToCompleteHabit), logged))
      && (!env.faults.logInsert && !env.faults.habitUpdate ==>
            out.1.logs == logged.logs && out.1.catalog == store.catalog)
  {
  }

  /**
    The profile update fails after a profile was found or created: the
    completion reports "Failed to complete habit", the log and habit writes
    stay, a just-created profile stays, and no experience is credited.
  */
  lemma ProfileUpdateFails(store: Store, env: Env, unlock: UnlockFaults, h: HabitId, frequency: Frequency, currentStreak: int)
    requires 0.0 <= env.roll < 1.0
    requires env.user.Some? && !GuardOf(store, env, h, frequency)
    requires !env.faults.logInsert && !env.faults.habitUpdate && env.faults.profileUpdate
    ensures var out := CompleteHabit(store, env, unlock, h, frequency, currentStreak);
      var u := env.user.value;
      var streak := StreakOf(store, env, h, frequency, currentStreak);
      var xp := XPEarned(streak, env.roll);
      var written := store.(logs := store.logs + [HabitLog(h, u.id, env.now, xp)],
                            habits := UpdateHabit(store.habits, h, streak, currentStreak + xp));
      var got := GetOrCreateProfile(written, u, env.faults.profileLookup, env.faults.profileCreate);
      && (got.0.Some? ==> out == (Failure(FailedToCompleteHabit), got.1))
      && (got.0.None? ==> out == (Failure(FailedToGetProfile), written))
      && (u.id in store.profiles ==> out.1.profiles == store.profiles)
      && (u.id !in store.profiles ==> out.1.profiles == store.profiles || out.1.profiles == store.profiles[u.id := FreshProfile(u)])
  {
  }

  /** The lookup yields no profile and the creation fails: the log and habit writes stay, and nothing else changes. */
  lemma ProfileMissing(store: Store, env: Env, unlock: UnlockFaults, h: HabitId, frequency: Frequency, currentStreak: int)
    requires 0.0 <= env.roll < 1.0
    requires env.user.Some? && !GuardOf(store, env, h, frequency)
    requires !env.faults.logInsert && !env.faults.habitUpdate
    requires env.faults.profileLookup || env.user.value.id !in store.profiles
    requires env.faults.profileCreate || env.user.value.id in store.profiles
    ensures var (r, s) := CompleteHabit(store, env, unlock, h, frequency, currentStreak);
      var streak := StreakOf(store, env, h, frequency, currentStreak);
      var xp := XPEarned(streak, env.roll);
      && r == Failure(FailedToGetProfile)
      && s == store.(logs := store.logs + [HabitLog(h, env.user.value.id, env.now, xp)],
                     habits := UpdateHabit(store.habits, h, streak, currentStreak + xp))
  {
  }

  /**
    With a signed-in user, no store error and nothing in the window, the
    completion succeeds; a user without a profile gets one created at level 1
    from zero, so the stored total is exactly this award.
  */
  lemma NoFaultsSucceeds(store: Store, env: Env, unlock: UnlockFaults, h: HabitId, frequency: Frequency, currentStreak: int)
    requires 0.0 <= env.roll < 1.0
    requires env.user.Some? && env.faults == NoFaults && !GuardOf(store, env, h, frequency)
    ensures var (r, s) := CompleteHabit(store, env, unlock, h, frequency, currentStreak);
      var u := env.user.value;
      && r.success
      && (u.id !in store.profiles ==>
            && s.profiles[u.id].totalXP == r.xpEarned.value
            && s.profiles[u.id].username == u.email
            && s.profiles[u.id].level == Level(r.xpEarned.value)
            && r.leveledUp.value == (r.xpEarned.value >= 100))
  {
    var (r, s) := CompleteHabit(store, env, unlock, h, frequency, currentStreak);
    if env.user.value.id !in store.profiles {
      SuccessWrites(store, env, unlock, h, frequency, currentStreak);
      var xp := r.xpEarned.value;
      if xp >= 100 {
        LevelUnique(xp, Level(xp), 2);
      } else {
        LevelUnique(xp, Level(xp), 1);
      }
    }
  }

  /** The experience a user's logs have awarded in all. */
  function PointsOf(logs: seq<HabitLog>, u: UserId): int
    decreases |logs|
  {
    if |logs| == 0 then 0
    else
      var last := logs[|logs| - 1];
      PointsOf(logs[..|logs| - 1], u) + (if last.userId == u then last.pointsEarned else 0)
  }

  /** Appending a log adds its points to its own user's sum only. */
  lemma PointsOfAppend(logs: seq<HabitLog>, l: HabitLog, u: UserId)
    ensures PointsOf(logs + [l], u) == PointsOf(logs, u) + (if l.userId == u then l.pointsEarned else 0)
  {
    assert (logs + [l])[..|logs|] == logs;
  }

  /** A profile that agrees with its user's logs and with the level engine. */
  ghost predicate ProfileSettled(p: UserProfile, points: int) {
    && p.totalXP == points
    && p.level == Level(p.totalXP)
    && p.xp == Progress(p.totalXP).currentXP
  }

  /** Every stored profile is settled against the log. */
  ghost predicate Settled(store: Store) {
    forall u :: u in store.profiles ==> ProfileSettled(store.profiles[u], PointsOf(store.logs, u))
  }

  /**
    A successful completion keeps the store settled, provided a user without
    a profile has no points logged yet (the profile is created from zero).
  */
  lemma SuccessKeepsSettled(store: Store, env: Env, unlock: UnlockFaults, h: HabitId, frequency: Frequency, currentStreak: int)
    requires 0.0 <= env.roll < 1.0
    requires Settled(store)
    requires env.user.Some? && env.user.value.id !in store.profiles ==> PointsOf(store.logs, env.user.value.id) == 0
    requires CompleteHabit(store, env, unlock, h, frequency, currentStreak).0.success
    ensures Settled(CompleteHabit(store, env, unlock, h, frequency, currentStreak).1)
  {
    var (r, s) := CompleteHabit(store, env, unlock, h, frequency, currentStreak);
    var u := env.user.value.id;
    var l := HabitLog(h, u, env.now, r.xpEarned.value);
    SuccessWrites(store, env, unlock, h, frequency, currentStreak);
    assert s.logs == store.logs + [l];
    forall v | v in s.profiles
      ensures ProfileSettled(s.profiles[v], PointsOf(s.logs, v))
    {
      PointsOfAppend(store.logs, l, v);
      if v != u {
        OtherProfilesUnchanged(store, env, unlock, h, frequency, currentStreak, v);
      }
    }
  }

  /**
    With a stored level that matches its total, one completion raises the
    level by at most one, and leveledUp means exactly one level more.
  */
  lemma LevelRisesAtMostOne(store: Store, env: Env, unlock: UnlockFaults, h: HabitId, frequency: Frequency, currentStreak: int)
    requires 0.0 <= env.roll < 1.0
    requires CompleteHabit(store, env, unlock, h, frequency, currentStreak).0.success
    requires var p := ProfileBefore(store, env.user.value); p.totalXP >= 0 && p.level == Level(p.totalXP)
    ensures var r := CompleteHabit(store, env, unlock, h, frequency, currentStreak).0;
      var p := ProfileBefore(store, env.user.value);
      && p.level <= r.newLevel.value <= p.level + 1
      && (r.leveledUp.value <==> r.newLevel.value == p.level + 1)
  {
    var r := CompleteHabit(store, env, unlock, h, frequency, currentStreak).0;
    var p := ProfileBefore(store, env.user.value);
    SuccessWrites(store, env, unlock, h, frequency, currentStreak);
    LevelStepAtMostOne(p.totalXP, r.xpEarned.value);
  }

  /** Appending a completion at `now` to a window without any puts exactly one log in it. */
  lemma {:induction false} AppendFillsEmptyWindow(logs: seq<HabitLog>, l: HabitLog, h: HabitId, start: int)
    requires CountInWindow(logs, h, start) == 0
    requires l.habitId == h && l.completedAt >= start
    ensures CountInWindow(logs + [l], h, start) == 1
  {
    var logs' := logs + [l];
    assert logs'[..|logs|] == logs;
    assert InWindow(logs', |logs|, h, start);
  }

  /** `later` lies in the same completion window as `now`: the same local date, or at most a week on. */
  ghost predicate SameWindow(cal: Calendar, frequency: Frequency, now: int, later: int) {
    match frequency
    case Daily => cal.dayOf(later) == cal.dayOf(now)
    case Weekly => now <= later <= now + WeekMs
  }

  /**
    After a successful completion into an empty window, any later attempt
    inside the same window is rejected as already completed and writes
    nothing, whatever the other circumstances of that attempt.
  */
  lemma SecondAttemptRejected(store: Store, env: Env, unlock: UnlockFaults, h: HabitId, frequency: Frequency, currentStreak: int,
                              env2: Env, unlock2: UnlockFaults, nextStreak: int)
    requires 0.0 <= env.roll < 1.0 && 0.0 <= env2.roll < 1.0
    requires Coherent(env.calendar) && !env2.faults.guardLookup
    requires env2.user.Some? && env2.calendar == env.calendar && SameWindow(env.calendar, frequency, env.now, env2.now)
    requires CountInWindow(store.logs, h, WindowStart(env.calendar, env.now, frequency)) == 0
    requires CompleteHabit(store, env, unlock, h, frequency, currentStreak).0.success
    ensures var s := CompleteHabit(store, env, unlock, h, frequency, currentStreak).1;
      CompleteHabit(s, env2, unlock2, h, frequency, nextStreak)
        == (Failure(if frequency == Daily then AlreadyCompletedToday else AlreadyCompletedThisWeek), s)
  {
    var (r, s) := CompleteHabit(store, env, unlock, h, frequency, currentStreak);
    var start := WindowStart(env.calendar, env.now, frequency);
    var start2 := WindowStart(env.calendar, env2.now, frequency);
    if frequency == Daily {
      assert start2 == start;
      AtOrAfterStartOfDay(env.calendar, env.now, env.now);
    } else {
      forall i | 0 <= i < |store.logs|
        ensures !InWindow(store.logs, i, h, start2)
      {
        assert !InWindow(store.logs, i, h, start);
      }
    }
    AppendFillsEmptyWindow(store.logs, HabitLog(h, env.user.value.id, env.now, r.xpEarned.value), h, start2);
    CountIsOne(s.logs, h, start2);
  }

  /**
    A user with 90 points at level 1 completes a daily habit for the first
    time: streak 1, between 8 and 15 points, a total between 98 and 105, and
    a level-up to 2 with its accessories exactly when the total reaches 100.
  */
  lemma FirstDailyCompletion(store: Store, env: Env, unlock: UnlockFaults, h: HabitId)
    requires 0.0 <= env.roll < 1.0
    requires env.user.Some? && env.faults == NoFaults && unlock == NoUnlockFaults
    requires env.user.value.id in store.profiles
    requires store.profiles[env.user.value.id].totalXP == 90 && store.profiles[env.user.value.id].level == 1
    requires forall i :: 0 <= i < |store.logs| ==> store.logs[i].habitId != h
    ensures var (r, s) := CompleteHabit(store, env, unlock, h, Daily, 0);
      var u := env.user.value.id;
      && r.success && r.newStreak == Some(1)
      && 8 <= r.xpEarned.value <= 15
      && 98 <= s.profiles[u].totalXP <= 105
      && (s.profiles[u].totalXP >= 100 ==> r.leveledUp == Some(true) && r.newLevel == Some(2))
      && (s.profiles[u].totalXP >= 100 ==>
            forall a :: a in store.catalog && a.unlockLevel == 2 ==> (u, a.id) in s.owned)
      && (s.profiles[u].totalXP < 100 ==> r.leveledUp == Some(false) && r.newLevel == Some(1) && s.owned == store.owned)
  {
    var u := env.user.value.id;
    var start := WindowStart(env.calendar, env.now, Daily);
    assert CountInWindow(store.logs, h, start) == 0;
    assert !GuardOf(store, env, h, Daily);
    var (r, s) := CompleteHabit(store, env, unlock, h, Daily, 0);
    SuccessWrites(store, env, unlock, h, Daily, 0);
    var total := s.profiles[u].totalXP;
    if total >= 100 {
      LevelUnique(total, Level(total), 2);
    } else {
      LevelUnique(total, Level(total), 1);
    }
    UnlockOnLevelUp(store, env, unlock, h, Daily, 0);
  }
}
