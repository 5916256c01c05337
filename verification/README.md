# Habit progression engine — a Dafny model

This project models the progression engine of a habit-tracking mobile client
and the level timeline its timeline screen derives. A user completes a habit;
the engine refuses a second completion in the same period, continues or
resets the habit's streak, awards random experience from a tier chosen by the
streak, appends a completion log, updates the habit and the user profile,
recomputes the level from cumulative experience (level *n* costs `100·n`, so
level *L* is reached at the triangular total `50·L·(L−1)`), and on a level-up
records the catalogue accessories of exactly the new level as owned.

Modules, one per component:

- `Levels` (`levels.dfy`): `getXPRequiredForLevel`, `calcLevel`, `getXPforNext`,
  `getCurrentLevelProgress`. The source's loops are modelled as methods whose
  invariants tie them to the closed-form threshold; pure functions with the
  same results feed the orchestrator.
- `Rewards` (`rewards.dfy`): `calcXPearned`; `Math.random()` is a parameter `roll` in `[0, 1)`.
- `LocalTime` (`local_time.dfy`): instants are integer milliseconds; the local
  calendar (time zone, daylight saving) is a parameter `Calendar(dayOf, midnightOf)`,
  assumed `Coherent` where a lemma needs it. `FixedOffset` is a coherent example.
- `Streaks` (`streaks.dfy`): `calcNewStreak`.
- `CompletionGuard` (`completion_guard.dfy`): `checkCompleteToday`.
- `Unlocker` (`unlocker.dfy`): `unlockAccessoriesForLevel`.
- `Entities` (`entities.dfy`): habits, logs, profiles, accessories and the store holding them.
- `Progression` (`progression.dfy`): `completeHabit` as a step function
  `(store, environment) -> (result, store)`; the environment carries the
  signed-in user, the clock, the calendar, the random draw and which store calls
  fail; a separate parameter says which calls of the unlock step fail.
- `CompletionProperties` (`completion_properties.dfy`): properties relating the steps of `completeHabit`.
- `Timeline` (`timeline.dfy`): the timeline-building loop and the user-level default of the timeline screen.

Where the code does something a reader might not expect, the model follows the code:

- The guard ends its query in `.single()`, which yields data only when exactly
  one row matches. A window holding two or more logs therefore reads as "not
  completed" (`CompletionGuard.TwoInWindowNotGuarded`).
- Query errors are not surfaced. A failed guard lookup reads as "not completed";
  a failed streak lookup reads as "no prior log"; a failed profile lookup leads
  to an attempt to create the profile.
- The habit's points are set to `currentStreak + xpEarned` (the streak passed
  by the caller plus the award), not accumulated.
- The success message ends in the four characters U+00F0 U+0178 U+017D U+2030
  that the program's literal holds (the UTF-8 bytes of the party-popper emoji
  read as Windows-1252), not in the emoji itself (`Progression.Celebration`).
- Only three writes of `completeHabit` are checked for errors: the log insert,
  the habit update and the profile update. A failure of any of them reports
  "Failed to complete habit" and keeps the writes made before it, so a
  completion can be logged without its experience being credited
  (`CompletionProperties.WriteFailures`, `CompletionProperties.ProfileUpdateFails`).

## Model

| member | source | states |
|---|---|---|
| Levels.XPRequiredForLevel | src/services/habitService.ts:4-7 | the cost of a level is a whole number of hundreds, at least 100 exactly for levels from 1 on (the step of 100 per level is ThresholdStep) |
| Levels.ThresholdStep | src/services/habitService.ts:4-7 | clearing level n costs 100·n: the cumulative threshold grows by exactly that from n to n+1 |
| Levels.ThresholdIsSum | src/services/habitService.ts:31-34 | summing the requirements of levels 1..L−1 gives the closed form 50·L·(L−1) |
| Levels.ThresholdMonotone | src/services/habitService.ts:9-21 | thresholds never decrease from level 1 upwards |
| Levels.LevelFrom | src/services/habitService.ts:13-18 | climbing level by level from any reached level ends at the level of the total |
| Levels.Level | src/services/habitService.ts:9-21 | the level is 1 for a negative total, otherwise the L with 50·L·(L−1) ≤ total < 50·L·(L+1) |
| Levels.LevelUnique | src/services/habitService.ts:9-21 | at most one level satisfies that bracket, so the level is well defined |
| Levels.CalcLevel | src/services/habitService.ts:9-21 | the while-loop over cumulative thresholds terminates with the bracketing level |
| Levels.LevelExamples | src/services/habitService.ts:9-21 | totals 0 and 99 give level 1, 100 and 299 level 2, 300 and 599 level 3, 600 level 4 |
| Levels.LevelMonotone | src/services/habitService.ts:9-21 | a larger total never gives a lower level |
| Levels.LevelStepAtMostOne | src/services/habitService.ts:9-21 | from a non-negative total, a gain below 200 raises the level by at most one |
| Levels.Progress | src/services/habitService.ts:28-40 | currentXP is the total minus the sum of requirements of the cleared levels; 0 ≤ currentXP < neededXP for non-negative totals; neededXP is the gap to the next threshold |
| Levels.XPForNext | src/services/habitService.ts:23-26 | the requirement of the current level equals progress' neededXP and reaches past the total |
| Levels.CurrentLevelProgress | src/services/habitService.ts:28-40 | the summing for-loop yields the same progress, within bounds |
| Rewards.XPEarned | src/services/habitService.ts:114-138 | the award lies in [8,15] below streak 7 (negatives included), [15,35] for 7..29, [30,70] for 30..99, [50,120] from 100 |
| Rewards.XPEarnedBounds | src/services/habitService.ts:114-138 | every award lies in [8,120], below the 200 that could skip a level |
| Rewards.EveryTierValueReachable | src/services/habitService.ts:135 | each value of the tier, both bounds included, is produced by some draw |
| Rewards.TierMonotone | src/services/habitService.ts:116-133 | a longer streak never selects a lower tier |
| LocalTime.AtOrAfterStartOfDay | src/services/habitService.ts:49-50 | an instant is at or after today's local midnight iff its local date is today or later |
| LocalTime.StartOfDayInItsDay | src/services/habitService.ts:49-50 | today's local midnight is no later than now and lies on today's date |
| LocalTime.MidnightInjective | src/services/habitService.ts:89-96 | two local midnights are equal iff they are of the same date |
| Streaks.LatestCompletion | src/services/habitService.ts:70-84 | absent iff the habit has no log; otherwise the time of one of its logs, no earlier than any other of its logs |
| Streaks.NewStreak | src/services/habitService.ts:79-111 | the streak is 1 or currentStreak+1, and 1 when there is no prior log |
| Streaks.CalcNewStreak | src/services/habitService.ts:65-112 | over the store's logs: 1 or currentStreak+1, and 1 when the habit has no log or the query fails |
| Streaks.DailyStreakRule | src/services/habitService.ts:88-102 | a daily streak continues exactly when the last log's local date is the day before today, else it is 1 |
| Streaks.WeeklyStreakRule | src/services/habitService.ts:103-111 | a weekly streak continues exactly when at most 1 209 600 000 ms have passed, else it is 1 |
| Streaks.WeeklyBoundary | src/services/habitService.ts:104-110 | exactly 14 days later continues, one millisecond more resets |
| Streaks.OlderLogIrrelevant | src/services/habitService.ts:70-84 | adding an older log of the habit does not change what the streak rule sees |
| CompletionGuard.WindowStart | src/services/habitService.ts:46-53 | the window starts at local midnight of today for a daily habit and 604 800 000 ms before now for a weekly one (see DailyWindow and WeeklyWindow) |
| CompletionGuard.CountInWindow | src/services/habitService.ts:55-60 | the count of matching logs is zero iff no log of the habit lies at or after the window start |
| CompletionGuard.CountOneSound | src/services/habitService.ts:55-62 | a count of one comes from a single matching log |
| CompletionGuard.CountOneComplete | src/services/habitService.ts:55-62 | a single matching log gives a count of one |
| CompletionGuard.CountIsOne | src/services/habitService.ts:55-62 | count one iff exactly one log of the habit is in the window |
| CompletionGuard.AlreadyCompleted | src/services/habitService.ts:42-63 | true iff the lookup succeeds and exactly one log of the habit lies in the window |
| CompletionGuard.DailyWindow | src/services/habitService.ts:49-50 | the daily window holds the logs whose local date is today or later |
| CompletionGuard.WeeklyWindow | src/services/habitService.ts:51-53 | the weekly window is the rolling 604 800 000 ms before now, start included |
| CompletionGuard.TwoInWindowNotGuarded | src/services/habitService.ts:60-62 | with two logs in the window the guard reports "not completed" |
| Unlocker.Inserted | src/services/habitService.ts:278-294 | the pairs inserted are exactly (user, id) for catalogue entries of exactly the level whose insert succeeds |
| Unlocker.UnlockForLevel | src/services/habitService.ts:273-298 | only owned pairs grow, only with the user's accessories of exactly the level; a failed lookup adds nothing; nothing else in the store changes |
| Unlocker.UnlockIdempotent | src/services/habitService.ts:286-294 | unlocking the same level twice adds nothing more |
| Progression.DigitText | src/services/habitService.ts:261 | the decimal text of the award: non-empty, digits only, no leading zero |
| Progression.DigitTextValue | src/services/habitService.ts:261 | reading the decimal text back gives the number printed |
| Progression.DigitTextInjective | src/services/habitService.ts:261 | two numbers have the same decimal text iff they are equal |
| Progression.Text | src/services/habitService.ts:160-269 | the messages at lines 160, 169-170, 230, 261 and 269: only the success message starts with '+', and it ends in " XP! " followed by the four characters of the program's literal |
| Progression.XPGainedExample | src/services/habitService.ts:261 | an award of 12 prints "+12 XP! " followed by U+00F0 U+0178 U+017D U+2030, as the literal holds them |
| Progression.FailureTexts | src/services/habitService.ts:160-269 | the rejection and failure messages read "Not Authorised" (line 160), "Already completed today!" and "Already completed this week!" (169-170), "Failed to get profile" (230) and "Failed to complete habit" (269) |
| Progression.XPGainedTextInjective | src/services/habitService.ts:261 | two non-negative awards give the same success message iff they are equal |
| Progression.UpdateHabit | src/services/habitService.ts:195-201 | only the completed habit's streak and points change; an unknown id changes nothing |
| Progression.GetOrCreateProfile | src/services/habitService.ts:206-231 | a found profile is used as stored; a missing profile whose creation succeeds is the level-1, zero-experience profile and is stored; a failed creation yields no profile and changes nothing; nothing but that profile is ever added |
| Progression.SettleProfile | src/services/habitService.ts:234-249 | the new total is the old plus the award, the level brackets the total, and the in-level experience is the total minus the requirements of the levels below, which is less than the level's own requirement |
| Progression.RecordCompletion | src/services/habitService.ts:154-251 | steps before the unlock leave the catalogue and owned accessories alone; a success carries all result fields and leaves the user with a profile; a failure carries only its message |
| Progression.CompleteHabit | src/services/habitService.ts:149-271 | rejections leave the store unchanged with the cadence's message; at most one log is appended and earlier logs are kept; success appends the log with the award, stores the new level and reports it |
| CompletionProperties.SuccessWrites | src/services/habitService.ts:175-266 | on success the habit gets the new streak and points currentStreak+award, the total grows by the award, level and xp follow the level engine, and leveledUp iff the new level exceeds the stored one |
| CompletionProperties.OtherProfilesUnchanged | src/services/habitService.ts:241-249 | no other user's profile is touched |
| CompletionProperties.UnlockOnLevelUp | src/services/habitService.ts:253-257 | accessories are added only on a level-up, only of exactly the new level, and all of them when no unlock call fails |
| CompletionProperties.UnlockFailuresIgnored | src/services/habitService.ts:253-266 | the errors of the accessory lookup and inserts never change the result returned |
| CompletionProperties.WriteFailures | src/services/habitService.ts:185-270 | a failed log insert changes nothing; a failed habit update keeps the log; both report "Failed to complete habit" |
| CompletionProperties.ProfileUpdateFails | src/services/habitService.ts:241-251 | a failed profile update after a profile was found or created reports "Failed to complete habit", keeps the log, the habit update and a just-created profile, and credits no experience |
| CompletionProperties.NoFaultsSucceeds | src/services/habitService.ts:154-266 | with a signed-in user, no store error and an empty window the completion succeeds; a user without a profile gets one created from zero, so the stored total is the award, with leveledUp exactly when the award reaches 100 |
| CompletionProperties.ProfileMissing | src/services/habitService.ts:206-231 | with no profile found or created the result is "Failed to get profile", keeping the log and habit writes |
| CompletionProperties.SuccessKeepsSettled | src/services/habitService.ts:185-249 | a success keeps every profile's total equal to its user's logged awards, with level and xp following the level engine |
| CompletionProperties.LevelRisesAtMostOne | src/services/habitService.ts:234-256 | from a consistent profile the level rises by at most one, and leveledUp means exactly one |
| CompletionProperties.AppendFillsEmptyWindow | src/services/habitService.ts:55-62 | appending a log at now to an empty window leaves exactly one log in it |
| CompletionProperties.SecondAttemptRejected | src/services/habitService.ts:163-172 | after a success into an empty window, any later attempt in the same window (the same local date for a daily habit, at most a week on for a weekly one) is rejected and writes nothing |
| CompletionProperties.FirstDailyCompletion | src/services/habitService.ts:149-266 | 90 points, first daily completion: streak 1, award in [8,15], total in [98,105], and level 2 with its accessories exactly when the total reaches 100 |
| Timeline.UserLevel | src/screens/TimeLineScreen.tsx:46 | a missing profile or level 0 gives level 1; any other level is kept |
| Timeline.FindByUnlockLevel | src/screens/TimeLineScreen.tsx:66 | absent iff no accessory has that unlock level; otherwise the first such in list order |
| Timeline.BuildTimeline | src/screens/TimeLineScreen.tsx:62-74 | exactly 30 nodes, node i at level i+1, unlocked iff its level is at most the user level |
| Timeline.NodeReward | src/screens/TimeLineScreen.tsx:65-71 | a node has a reward iff some accessory unlocks at its level, and carries the first such |
| Timeline.UnlockedPrefix | src/screens/TimeLineScreen.tsx:72 | if node k is unlocked every earlier node is |
| Timeline.OutOfRangeNeverShown | src/screens/TimeLineScreen.tsx:63-66 | an accessory whose unlock level is outside 1..30 is on no node |

## Left out

- Rendering, styles, navigation and session wiring: the screens other than the timeline loop, and the JSX and style parts of the timeline screen, are user interface.
- The connectivity probe and the profile screen's display arithmetic (floating-point percentages and a fixed `/100`): presentation only.
- The add-habit form and the habits screen's alert selection: form-to-insert mapping and user interface.
- The remote client, the auth call and query-builder semantics: replaced by an immutable store record, an optional signed-in user and flags saying which store calls fail.
- The check-then-insert race between the guard and the log insert: concurrency, outside a sequential model.
- Time zones and daylight saving: the local calendar is a parameter; lemmas that speak of dates assume it is coherent (midnights strictly increasing, each instant inside its own date).
- Progression.CompleteHabit: the clock is read once per completion (`env.now`), while the code reads it separately for the guard, the streak and the log insert.
- Rewards.XPEarned: the draw is an exact real in [0, 1) and `roll * span` is exact, not an IEEE double product.
- Timestamps stored as ISO strings are integer milliseconds; the profile's `updated_at`, the log's generated `id` and `icon`, and console logging are not modelled.
- Timeline.BuildTimeline: a profile whose level column is null is passed as a missing level; the owned-accessory rows the screen fetches are not an input, because the loop does not use them; the early return for a signed-out user and the React state updates are not modelled.
- Errors the code does not check (the profile lookup's and the profile insert's) are modelled by their effect, no row; errors thrown by the client elsewhere (for example a network exception from the auth call) are not modelled. Each of the three checked writes has its own failure flag.
- Progression.GetOrCreateProfile: profiles are keyed by user, so one user has at most one profile. When the lookup fails but a profile is stored, the model makes the creation yield no row ("Failed to get profile"); the code inserts anyway, and what that returns depends on a uniqueness constraint on `user_id` that the code does not show. Without such a constraint a second zero-total profile would be created and the following update would reset the user's total, so `CompletionProperties.SuccessWrites` and `CompletionProperties.SuccessKeepsSettled` rely on this assumption.
- Unlocker.UnlockIdempotent: owned accessories are a set of (user, accessory) pairs, so inserting a pair twice leaves one pair. The code does no duplicate check and inserts again; whether a duplicate row appears depends on the database schema, which is not part of this model.
- JavaScript numbers (IEEE doubles) are unbounded integers: the totals, streaks and millisecond instants involved are far below 2^53, where doubles are exact. For whole milliseconds, the weekly test `(now - last) / 86400000 <= 14` is the same as the integer comparison `now - last <= 1 209 600 000`.
