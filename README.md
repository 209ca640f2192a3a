# Daily quests: day rollover and progress state

This project models the core of the daily quest tracker in Dafny. The tracker
keeps a list of recurring quests. A quest is either a yes/no task or a
counter toward a target. A logical day runs from 03:00 to 03:00 local time.
The first check on a new logical day clears all progress. That check runs at
start-up, when the page becomes visible again, and every 60 seconds
(src/App.tsx:70-77); the model represents it as `CheckDay`. The tracker also
keeps a ledger of each day's completion percentage.

The model covers:

- **The quest record and the list operations** (module `Quests`). These are
  add, toggle, update-progress, delete, the daily reset and the completion
  percentage, plus the eight-quest seed list. Each one is a function from the
  old list to a new list, as the app's `map`/`filter` calls are.
- **The logical day** (module `History`, with `Dates` standing in for the
  host's date library). A local timestamp in milliseconds is shifted back
  three hours, then turned into a proleptic Gregorian date. The date
  arithmetic is built from one-day steps (`Next`, `Prev`) counted from
  1970-01-01, so the month and year rollovers are stated once.
- **The history ledger** (module `History`). `Record` is the change to the
  day-to-percentage map. `SaveDailyProgress` reads the store, updates it, and
  writes it back only when the value for today changes.
- **The app state and the rollover controller** (module `Lifecycle`). Class
  `QuestApp` holds the `quests` and `lastVisit` fields and a reference to a
  `Store`. `Store` models the three browser-storage entries as typed fields.
  The constructor models the two initialisers. `CheckAndResetDaily` models
  the runtime check. The user actions are methods that replace the list.
  Each method's contract ties the new state to a pure function (`CheckDay`,
  `InitialSession`, `Add`, `Toggle`, …). The lemmas are proved about those
  functions.

Two behaviours of the code that are easy to miss:

- Stored text that fails to parse makes the code throw (`JSON.parse` is not
  guarded), so no default is substituted for it.
- The marker at start-up is today in every case (src/App.tsx:50-53).

The single deliberate difference from the code is the one listed under
Findings: the constructor reads the logical day once.

## Model

| member | source | states |
|---|---|---|
| Quests.WellFormed | src/types.ts:2-12 | the record invariant: a counter has a count of at least 0, a positive target, and is completed exactly when the count reaches the target; a boolean quest has no count and no target. It is a definition; the `…PreservesConsistent` lemmas and `SeedIsConsistent` state its properties |
| Quests.Consistent | src/types.ts:4-12 | a list whose records are all well-formed and whose ids are distinct. It is a definition; the `…PreservesConsistent` lemmas state its properties |
| Quests.NewBooleanQuest | src/App.tsx:107-112 | a boolean quest that is not completed, with no count or target. It is the shape of the boolean seed entries and of every added quest; `Add` states its use |
| Quests.CountsToward | src/App.tsx:128-129 | the id matches and the quest is a counter with a target. It is a definition; `SetProgress` and `SetProgressNoop` state its use |
| Quests.Add | src/App.tsx:106-114 | the new list is the old one with one quest added at the end: boolean, not completed, with the given id and text |
| Quests.Toggle | src/App.tsx:116-124 | same length; `completed` flips exactly on the boolean quests with the id; every other field, and every other quest, is unchanged |
| Quests.SetProgress | src/App.tsx:126-140 | quests that are not a counter with that id and a target are unchanged; the matching one keeps its definition, gets count `n` (0 if `n` is negative), and is completed exactly when the count reaches the target |
| Quests.Delete | src/App.tsx:142-144 | the result is never longer than the input |
| Quests.ResetDaily | src/App.tsx:36-40 | same length; every quest keeps id, text, type, target and unit; none is completed; counters count 0, boolean quests have no count |
| Quests.CompletedCount | src/App.tsx:92 | the number of completed quests is at most the length |
| Quests.Progress | src/App.tsx:91-93 | the percentage lies in [0,100] and is 0 for the empty list |
| Quests.SeedIsConsistent | src/App.tsx:23-32 | the seed list (`Quests.SeedQuests`, a constant) has 8 quests, all well-formed, with distinct ids |
| Quests.SeedHasTwoCounters | src/App.tsx:23-32 | exactly the first two seed quests are counters |
| Quests.SeedProgressIsZero | src/App.tsx:23-32 | the seed list starts at 0 percent |
| Quests.AddPreservesConsistent | src/App.tsx:106-114 | with an id not yet in use, adding keeps the records well-formed and the ids distinct, and the id is then present |
| Quests.AddKeepsCompletedCount | src/App.tsx:106-114 | adding a quest leaves the number of completed quests unchanged |
| Quests.ToggleUnknownIsNoop | src/App.tsx:118 | toggling an id not in the list returns the same list |
| Quests.ToggleCounterIsNoop | src/App.tsx:119-122 | toggling an id that only counters carry returns the same list |
| Quests.ToggleTwiceIsIdentity | src/App.tsx:116-124 | toggling the same id twice restores the list |
| Quests.TogglePreservesConsistent | src/App.tsx:116-124 | toggling keeps every record well-formed and the ids distinct |
| Quests.SetProgressClampsNegative | src/App.tsx:131 | a negative request, such as -3, stores 0 and leaves a counter with a positive target not completed |
| Quests.SetProgressCompletesAtTarget | src/App.tsx:132 | with a positive target, the quest is completed if and only if the request reaches the target |
| Quests.SetProgressNoop | src/App.tsx:128-129 | with no counter that has a target under the id (unknown id, boolean quest, counter without a target), the list is unchanged |
| Quests.SetProgressIdempotent | src/App.tsx:126-140 | repeating the same update changes nothing more |
| Quests.SetProgressPreservesConsistent | src/App.tsx:126-140 | the well-formedness invariant `completed == (current >= target)` and distinct ids survive an update |
| Quests.DeleteAppend | src/App.tsx:143 | deleting from a concatenation is concatenating the deletions, so the kept quests keep their relative order |
| Quests.DeleteKeepsExactlyOthers | src/App.tsx:143 | a quest is in the result exactly when it is in the input with a different id |
| Quests.DeleteUnknownIsNoop | src/App.tsx:143 | deleting an id not in the list returns the same list |
| Quests.DeleteAtIndex | src/App.tsx:142-144 | with distinct ids, deleting the id at index k gives the list without index k |
| Quests.DeleteIdempotent | src/App.tsx:142-144 | deleting the same id twice equals deleting it once |
| Quests.DeletePreservesUniqueIds | src/App.tsx:143 | deleting keeps the ids distinct |
| Quests.DeletePreservesConsistent | src/App.tsx:142-144 | deleting keeps the list consistent and leaves no quest with that id |
| Quests.ResetIdempotent | src/App.tsx:36-40 | resetting twice equals resetting once |
| Quests.ResetEstablishesWellFormed | src/App.tsx:36-40 | when every counter has a positive target and no boolean quest has one, every quest is well-formed after the reset |
| Quests.ResetPreservesConsistent | src/App.tsx:60-64 | the reset keeps the list consistent |
| Quests.ResetProgressIsZero | src/App.tsx:36-40 | after the reset the percentage is 0 |
| Quests.CountAppend | src/App.tsx:92 | the completed count of a concatenation is the sum of the counts |
| Quests.NoneCompletedCountsZero | src/App.tsx:92 | a list with nothing completed counts 0 |
| Quests.CountIsLengthIffAllCompleted | src/App.tsx:92 | the count equals the length if and only if every quest is completed |
| Quests.ProgressFullIffAllCompleted | src/App.tsx:91-93 | the percentage is exactly 100 if and only if the list is non-empty and every quest is completed |
| Quests.ProgressOfHalf | src/App.tsx:91-93 | two quests with one completed give 50 percent |
| Quests.SeedAllDoneIsFull | src/App.tsx:23-32 | completing the six boolean seed quests and raising both counters to their targets gives 100 percent |
| Dates.DaysInMonth | src/utils/history.ts:14 | months have 28 to 31 days, and 29 only for February of a leap year |
| Dates.Next | src/utils/history.ts:14 | the next day is a valid, later date: the day after inside a month, the 1st of the next month after a month's last day, and 1 January after 31 December |
| Dates.Prev | src/utils/history.ts:9 | the previous day is a valid, earlier date, `Next` undoes it, 1 January goes back to 31 December of the year before, and 1 March to the last day of February |
| Dates.PrevOfNext | src/utils/history.ts:14 | `Prev` undoes `Next` |
| Dates.DateOfDay | src/utils/history.ts:14 | every day number gives a valid date |
| Dates.DateOfDayStep | src/utils/history.ts:13-14 | consecutive day numbers are consecutive dates, before and after 1970 |
| Dates.DateOfDayIncreasing | src/utils/history.ts:13-14 | a larger day number gives a later date |
| Dates.DateOfDayInjective | src/utils/history.ts:13-14 | two day numbers give the same date if and only if they are equal |
| Dates.CalendarDate | src/utils/history.ts:14 | the date of a timestamp is a valid date, and 1970-01-01 for the first 24 hours from the epoch |
| Dates.CalendarDateNextDay | src/utils/history.ts:14 | a timestamp one day later falls on the next date |
| Dates.TimeOfDay | src/utils/history.ts:13 | the time since midnight lies in [0, 24 h) |
| History.GetLogicalDate | src/utils/history.ts:10-15 | from 03:00 on the logical day is the calendar date of the timestamp; before 03:00 it is the previous date |
| History.ShiftedDayIndex | src/utils/history.ts:12-13 | shifting by 3 h keeps the day index from 03:00 on and lowers it by one before 03:00 |
| History.LogicalDateFromCutoff | src/utils/history.ts:10-15 | a time at or after 03:00 has its own calendar date as logical day |
| History.LogicalDateBeforeCutoff | src/utils/history.ts:8-15 | a time before 03:00 has the previous calendar date as logical day |
| History.LogicalDateOnNewYearNight | src/utils/history.ts:8-14 | 1 January before 03:00 maps to 31 December of the previous year |
| History.LogicalDateOnMonthStart | src/utils/history.ts:8-14 | the first of a month before 03:00 maps to the last day of the previous month |
| History.LogicalDateOrder | src/utils/history.ts:10-15 | two times share a logical day exactly when they lie in the same 03:00-to-03:00 window, and a later time never has an earlier logical day |
| History.GetHistory | src/utils/history.ts:17-20 | the empty ledger when none is stored, the stored one otherwise |
| History.NeedsWrite | src/utils/history.ts:27 | true when today has no entry or a different value; `NeedsWriteIffChanged` states its meaning |
| History.NeedsWriteIffChanged | src/utils/history.ts:27 | a write is needed exactly when recording the value changes the ledger |
| History.Record | src/utils/history.ts:27-28 | afterwards today maps to p, the days are the old days plus today, and every other day keeps its value |
| History.RecordUnchangedIsIdentity | src/utils/history.ts:26-27 | recording the value already stored for today leaves the ledger equal |
| History.RecordTwiceNeedsNoWrite | src/utils/history.ts:26-30 | after one record, the same record changes nothing and needs no write |
| History.RecordLastWriteWins | src/utils/history.ts:27-29 | recording a then b on one day equals recording b |
| History.RecordFortyThenSeventy | src/utils/history.ts:27-29 | recording 40 then 70 leaves day 70 and no extra entry |
| History.SaveDailyProgress | src/utils/history.ts:22-31 | the stored ledger becomes `Record(old, today, p)`; it is written only when that changes it, and otherwise the store is unchanged; the other entries are untouched |
| Lifecycle.IsStale | src/App.tsx:35 | a marker is stored and names a day other than today (the test of lines 35 and 50). It is a definition; `InitialQuests` and `InitialSession` state its use |
| Lifecycle.InitialSessionAsWritten | src/App.tsx:18-54 | the start-up state as written: the marker is the logical day of the second clock reading, while the quests are reset only if the marker is stale for the first reading |
| Lifecycle.LoadedQuests | src/App.tsx:21-32 | the stored list, or the seed list when none is stored |
| Lifecycle.InitialQuests | src/App.tsx:18-44 | the loaded list is reset if and only if a marker of a different day is stored |
| Lifecycle.InitialLastVisit | src/App.tsx:47-54 | in all three cases the initial marker is today |
| Lifecycle.InitialSession | src/App.tsx:18-54 | with one clock reading the marker is today, and the quests are reset exactly when the stored marker was another day |
| Lifecycle.InitAcrossCutoffKeepsYesterday | src/App.tsx:18-54 | with clock readings at 02:59:59.999 and 03:00, a completed quest survives while the marker names the new day, and the check on that day then does nothing |
| Lifecycle.CheckDay | src/App.tsx:57-68 | afterwards the marker is today; on the same day nothing changes; on another day the quests are reset |
| Lifecycle.CheckDayIdempotent | src/App.tsx:57-68 | a second check on the same logical day is a no-op |
| Lifecycle.CheckDayTwiceAcrossDays | src/App.tsx:57-68 | two checks on two new days reset the quests once |
| Lifecycle.CheckDayPreservesConsistent | src/App.tsx:57-68 | the check keeps the list consistent |
| Lifecycle.CheckAfterStartIsNoop | src/App.tsx:70-71 | the check that runs right after start-up changes nothing |
| Lifecycle.RestartRestoresSession | src/App.tsx:86-89 | a stored session reloaded at a later time is what the check would make of it: the same on the same day, reset on another |
| Lifecycle.CheckDayScenario | src/App.tsx:57-68 | a counter at 5 seen on 2024-01-05 and checked on 2024-01-06 goes back to 0, not completed, with marker 2024-01-06 |
| Storage.Store.constructor | src/App.tsx:11-12 | a store holding the given quest-list, marker and ledger entries (the keys of src/App.tsx:11-12 and src/utils/history.ts:2) |
| Lifecycle.QuestApp.CurrentProgress | src/App.tsx:91-93 | the app's percentage lies in [0,100] and is 100 exactly when the list is non-empty and all done |
| Lifecycle.QuestApp.constructor | src/App.tsx:18-54 | the state is `InitialSession` of the stored list and marker |
| Lifecycle.QuestApp.CheckAndResetDaily | src/App.tsx:57-68 | the state becomes `CheckDay` of the old state; the stored marker is written only on a new day; the other store entries are untouched |
| Lifecycle.QuestApp.AddQuest | src/App.tsx:106-114 | the list becomes `Add` of the old list; the marker is unchanged |
| Lifecycle.QuestApp.ToggleQuest | src/App.tsx:116-124 | the list becomes `Toggle` of the old list |
| Lifecycle.QuestApp.UpdateProgress | src/App.tsx:126-140 | the list becomes `SetProgress` of the old list |
| Lifecycle.QuestApp.DeleteQuest | src/App.tsx:142-144 | the list becomes `Delete` of the old list |
| Lifecycle.QuestApp.SyncToStore | src/App.tsx:86-89 | the store holds the current list and marker; the ledger is untouched |
| Lifecycle.QuestApp.SaveProgress | src/App.tsx:95-98 | the ledger records the current percentage for the logical day of `now` |

## Left out

- Rendering: the JSX, the list, calendar and progress-bar components, and the form and modal state. These are presentation only.
- Effect wiring: the visibility listener, the 60-second timer and its cleanup, and the re-run of effects after state changes. These are host scheduling. The model has the functions they call (`CheckAndResetDaily`, `SyncToStore`, `SaveProgress`), not when they are called.
- The confetti call at 100 percent. It is a UI cue. When it would fire is stated by `ProgressFullIffAllCompleted`.
- The debug footer. It only displays values.
- Storage as text: `localStorage` and `JSON.parse`/`JSON.stringify` are foreign code. The store holds the parsed values directly. A stored text that fails to parse throws in the code, and the model has no such case.
- Storage write failures, for example a full quota. These are host I/O.
- Lifecycle.QuestApp.AddQuest: the random UUID is a parameter. A precondition says it is not in use, which the code only assumes of `crypto.randomUUID`.
- Dates: the time zone and daylight saving. Timestamps are taken to be local-time milliseconds. The date library's limit of ±8.64e15 ms is not modelled.
- Dates: the text of `toDateString` (weekday, month name). A day key is a `Date(year, month, day)` value. Distinct dates print as distinct strings, so comparing keys is the same.
- Quests.Progress: JavaScript floating point. The percentage is an exact `real`.
- Quests: numbers are integers. The input field uses `parseInt`, and the buttons add or subtract 1. Fractional counts are not modelled.
- The blank-text guard of the input form. The form rejects text that is blank after trimming and passes the text on unchanged (src/components/QuestList.tsx:19-20); `Add` accepts any text.
- A JavaScript object key present with value `undefined` is the same here as a missing key (`None`).
- Concurrency: the host runs everything on one thread. The check runs to completion, so it is atomic in the model.

## Findings

| source | as written | input that shows it | evidently intended | confidence | as-written member | corrected member |
|---|---|---|---|---|---|---|
| src/App.tsx:18-54 | The quest initialiser (line 20) and the marker initialiser (line 49) each call `getLogicalDate()` on their own. | Stored marker is yesterday, and a completed quest is stored. The first call happens at 02:59:59.999 and the second at 03:00:00.000. The quests are not reset, but `lastVisit` becomes the new day. Every later check that day then does nothing, so yesterday's completion counts for today. | Both initialisers use one logical day, as the comment on line 51 assumes. The quests are then reset whenever the marker moves to a new day. | not executed; needs the two initialisers to straddle 03:00 | Lifecycle.InitAcrossCutoffKeepsYesterday (about Lifecycle.InitialSessionAsWritten) | Lifecycle.InitialSession (used by Lifecycle.QuestApp.constructor) |
