/**
  The records the progression engine reads and writes, and the store that
  holds them: the habit_logs, habits, user_profiles, accessories and
  user_accessories tables.
*/
module Entities {
  import opened Options

  type HabitId = string
  type UserId = string
  type AccessoryId = string

  datatype Frequency = Daily | Weekly

  /** A habit row (src/types/habit.ts). */
  datatype Habit = Habit(
    id: HabitId,
    userId: UserId,
    title: string,
    description: Option<string>,
    frequency: Frequency,
    createdAt: string,
    streak: int,
    points: int)

  /** A completion log row: which habit, whose, when (milliseconds) and the experience it awarded. */
  datatype HabitLog = HabitLog(habitId: HabitId, userId: UserId, completedAt: int, pointsEarned: int)

  /** A user profile row: level, experience inside the level, cumulative experience. */
  datatype UserProfile = UserProfile(userId: UserId, username: string, level: int, xp: int, totalXP: int)

  /** A catalogue accessory and the level that unlocks it. */
  datatype Accessory = Accessory(id: AccessoryId, unlockLevel: int)

  /** The signed-in user as the auth provider reports it. */
  datatype User = User(id: UserId, email: string)

  /**
    The backing store. Profiles are keyed by their user (one profile per
    user); owned accessories are (user, accessory) pairs.
  */
  datatype Store = Store(
    logs: seq<HabitLog>,
    habits: map<HabitId, Habit>,
    profiles: map<UserId, UserProfile>,
    catalog: seq<Accessory>,
    owned: set<(UserId, AccessoryId)>)
}
