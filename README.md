# Tasky core, modelled in Dafny

Tasky is an Android task manager. Tasks live in the Firebase Realtime Database and are mirrored into Google Calendar, and the app can predict a task's priority.
The repository also holds a small Python script that finds the first fair value gap after price breaks out of the Asian session range.

This project models, in Dafny:

- the fair value gap detector (`scripts/fvg_detection.py`), as a two-loop method proved equal to a declarative definition;
- the decoding of tasks and calendar event references from database snapshots, and the snapshots Firebase stores for them;
- the search filter over tasks;
- the insert and update use cases with their validation;
- the rule-based parts of priority prediction (the use case and the ML Kit analyzer);
- the free-tier cap of the premium manager;
- the notification scheduler, as a class over a table of alarms keyed by request name;
- the calendar repository's counters, recurrence rule building and multi-format date parsing;
- the calendar view model's sorting, grouping and conflict notes.

Modules follow the source files: `FvgDetection`, `TaskModel`, `CalendarEventRefModel`, `TaskExtensions`, `InsertTaskUseCase`, `UpdateTaskUseCase`, `PredictTaskPriorityUseCase`, `MLKitTaskAnalyzer`, `PremiumManagerModel`, `NotificationSchedulerModel`, `CalendarRepositoryModel` and `CalendarViewModelModel`.
`Snapshots` holds the loosely typed values of a database snapshot. `Text` holds the Kotlin string and number library behaviour the core relies on: case mapping, blank checks, `split`, `toIntOrNull`, `toLongOrNull` and decimal rendering. `Wrappers` holds `Option` and `Result`.

The clock, the platform date parsers, the exact-alarm permission and the trained predictor are parameters of the operations that use them.

## Model

| member | source | states |
|---|---|---|
| FvgDetection.DetectFvgAfterAsiaBreak | scripts/fvg_detection.py:5-80 | The two loops return exactly `Detect` of the bars and the window, the window being 00:00 up to 09:00 when none is given, so every property proved about `Detect` holds of the routine |
| FvgDetection.ScanAsiaSession | scripts/fvg_detection.py:30-42 | The first loop's high, low and end index are the session range that `AsiaSession` folds, or no index when no bar is in the window |
| FvgDetection.ScanBreakoutAndGap | scripts/fvg_detection.py:47-80 | The second loop returns the gap `GapAfterSession` finds: first the breakout bar, then the first gap in its direction after it, at most one result |
| FvgDetection.Detect | scripts/fvg_detection.py:26-80 | The detector reports at most one gap |
| FvgDetection.GapEvent | scripts/fvg_detection.py:62-78 | A gap has the gap bar's time and the breakout direction; up spans (previous high, current low), down spans (current high, previous low), and its lower bound is below its upper bound |
| FvgDetection.RangeFromIsFirstSession | scripts/fvg_detection.py:34-42 | The fold over bars ends on the first session: its last bar is a window bar, its high and low are the extremes of the window bars up to it, and any later window bar comes after a bar at or past the session end |
| FvgDetection.FoldWindowBar | scripts/fvg_detection.py:36-39 | Folding a window bar into the running range (the first one starts it) keeps the range the extremes of the window bars so far |
| FvgDetection.SessionEndsAt | scripts/fvg_detection.py:40-42 | A bar at or after the session end, once a session has started, closes the first session |
| FvgDetection.FoldSkippedBar | scripts/fvg_detection.py:34-42 | A bar outside the window that does not close the session leaves the fold unchanged, so bars before the window are skipped |
| FvgDetection.RangeFromNoneIff | scripts/fvg_detection.py:34-45 | The fold from an empty accumulator finds nothing exactly when no remaining bar is in the window |
| FvgDetection.AsiaSessionNoneIff | scripts/fvg_detection.py:44-45 | No session is found if and only if no bar's time of day is in [start, end) |
| FvgDetection.AsiaSessionIsFirstSession | scripts/fvg_detection.py:29-42 | A session found is the first session of the data, with its true high and low |
| FvgDetection.FirstSessionUnique | scripts/fvg_detection.py:29-42 | The first session with its range is determined by the bars and the window |
| FvgDetection.BreakoutFromSpec | scripts/fvg_detection.py:53-58 | The breakout is the first later bar whose high is above or whose low is below the range; it is up when the high is above, even if the low is also below; none exists exactly when no bar leaves the range |
| FvgDetection.GapFromSpec | scripts/fvg_detection.py:60-78 | The gap search finds nothing exactly when no bar leaves a gap after its predecessor in the breakout direction, and otherwise returns the first such bar |
| FvgDetection.DetectSound | scripts/fvg_detection.py:26-80 | Any reported gap follows the first breakout after the first session and is the first gap in the breakout direction |
| FvgDetection.DetectComplete | scripts/fvg_detection.py:26-80 | The gap described by the declarative definition is exactly what is reported |
| FvgDetection.SessionFound | scripts/fvg_detection.py:29-45 | The declarative first session is the one the fold finds |
| FvgDetection.BreakoutFound | scripts/fvg_detection.py:53-58 | The declarative first breakout bar and its direction are the ones the search finds |
| FvgDetection.GapFound | scripts/fvg_detection.py:60-78 | The declarative first gap bar is the one the search finds |
| FvgDetection.DetectFromPhases | scripts/fvg_detection.py:26-80 | A session, a breakout after it and a gap after the breakout give exactly that gap as the single result |
| FvgDetection.NoSessionNoResult | scripts/fvg_detection.py:44-45 | With no bar in the window the result is empty |
| FvgDetection.EmptyWindowNoResult | scripts/fvg_detection.py:36 | A window whose start is not before its end gives an empty result |
| FvgDetection.NoBreakoutNoResult | scripts/fvg_detection.py:53-58 | When no bar after the session leaves its range the result is empty |
| FvgDetection.NoGapNoResult | scripts/fvg_detection.py:60-80 | When no bar after the breakout leaves a gap in its direction the result is empty |
| TaskModel.StatusOf | app/src/main/java/io/tasky/taskyapp/task/domain/model/TaskStatus.kt:1-8 | A name maps to a state only if that state has the name |
| TaskModel.StatusOfName | app/src/main/java/io/tasky/taskyapp/task/domain/model/TaskStatus.kt:1-8 | Every state is found again from its name, so the four names are distinct |
| TaskModel.DecodeInterval | app/src/main/java/io/tasky/taskyapp/task/domain/model/Task.kt:36-40 | The interval is a number narrowed to `Int` (wrapping for a Long, saturating for a Double), a numeric string, or 1 when missing, non-numeric or of another type; it is always a 32-bit value |
| TaskModel.FromSnapshot | app/src/main/java/io/tasky/taskyapp/task/domain/model/Task.kt:25-43 | Each field is read from its key: text fields default to empty, optional ones stay null, status defaults to PENDING, the recurring flag reads `recurring` as a case-insensitive `true` |
| TaskModel.EmptySnapshotDefaults | app/src/main/java/io/tasky/taskyapp/task/domain/model/Task.kt:25-43 | An empty snapshot decodes to the default task |
| TaskModel.RecurringKeyOnly | app/src/main/java/io/tasky/taskyapp/task/domain/model/Task.kt:34 | A flag stored under `isRecurring` is not read; only `recurring` is |
| TaskModel.IntervalExamples | app/src/main/java/io/tasky/taskyapp/task/domain/model/Task.kt:36-40 | "3" decodes to 3, "weekly" to 1, a Long wraps to 32 bits and a Double truncates |
| TaskModel.FixedFieldsKept | app/src/main/java/io/tasky/taskyapp/task/domain/model/Task.kt:9-21 | Writing the optional fields leaves the always-written fields alone |
| TaskModel.OptionalFieldsRead | app/src/main/java/io/tasky/taskyapp/task/domain/model/Task.kt:29-41 | Every optional field of a stored task reads back as written, null included |
| TaskModel.ToSnapshotDescribes | app/src/main/java/io/tasky/taskyapp/task/domain/model/Task.kt:9-21 | The snapshot stored for a task holds every field under the key Firebase uses |
| TaskModel.DecodeDescribed | app/src/main/java/io/tasky/taskyapp/task/domain/model/Task.kt:25-43 | Any snapshot laid out that way decodes to the task |
| TaskModel.SnapshotRoundTrip | app/src/main/java/io/tasky/taskyapp/task/domain/model/Task.kt:25-43 | Decoding what Firebase stores for a task with a 32-bit interval gives the task back |
| CalendarEventRefModel.Flag | app/src/main/java/io/tasky/taskyapp/calendar/data/CalendarEventRef.kt:32-34 | A Boolean field is its text compared with `true` ignoring case, or the default when missing or null |
| CalendarEventRefModel.DecodeTimestamp | app/src/main/java/io/tasky/taskyapp/calendar/data/CalendarEventRef.kt:27-31 | The timestamp is a Long as is, a Double clamped to 64 bits, a string parsed with the clock as fallback, otherwise the clock |
| CalendarEventRefModel.FromSnapshot | app/src/main/java/io/tasky/taskyapp/calendar/data/CalendarEventRef.kt:23-37 | Each field is read from its key, with the synced flag defaulting to true and the needsUpdate and deleted flags to false; the source reads the two flags under `isSynced` and `isDeleted` (`AsWritten`) |
| CalendarEventRefModel.EmptySnapshotDefaults | app/src/main/java/io/tasky/taskyapp/calendar/data/CalendarEventRef.kt:23-37 | An empty snapshot decodes to the defaults with the clock as timestamp |
| CalendarEventRefModel.FlagTextExamples | app/src/main/java/io/tasky/taskyapp/calendar/data/CalendarEventRef.kt:32-34 | "FALSE" reads false, a stored Boolean true reads true, "yes" reads false |
| CalendarEventRefModel.DeletedFlagLost | app/src/main/java/io/tasky/taskyapp/calendar/data/CalendarEventRef.kt:32-34 | A deleted reference comes back as not deleted and as synced, because the decoder reads keys Firebase does not write |
| CalendarEventRefModel.DeletedFlagLostExample | app/src/main/java/io/tasky/taskyapp/calendar/data/CalendarEventRef.kt:32-34 | A concrete deleted, unsynced reference does not survive the round trip |
| CalendarEventRefModel.ToSnapshotDescribes | app/src/main/java/io/tasky/taskyapp/calendar/data/CalendarEventRef.kt:11-19 | The stored snapshot holds every field under the key Firebase uses |
| CalendarEventRefModel.DecodeDescribed | app/src/main/java/io/tasky/taskyapp/calendar/data/CalendarEventRef.kt:23-37 | Reading the flags under the bean names, the decoder gives back the reference from any snapshot laid out that way |
| CalendarEventRefModel.FixedRoundTrip | app/src/main/java/io/tasky/taskyapp/calendar/data/CalendarEventRef.kt:23-37 | Reading the flags under the bean names, the decoder gives back every stored reference, whatever the clock says |
| TaskExtensions.FilterBy | app/src/main/java/io/tasky/taskyapp/core/util/TaskExtensions.kt:5-9 | Every task kept matches the filter ignoring case in its title or description; the result is no longer than the input |
| TaskExtensions.FilterBySubsequence | app/src/main/java/io/tasky/taskyapp/core/util/TaskExtensions.kt:5-9 | The result keeps the input's order |
| TaskExtensions.FilterByCount | app/src/main/java/io/tasky/taskyapp/core/util/TaskExtensions.kt:5-9 | A matching task is kept as often as it occurs and a non-matching one never |
| TaskExtensions.FilterByMembership | app/src/main/java/io/tasky/taskyapp/core/util/TaskExtensions.kt:5-9 | A task is in the result if and only if it is in the input and matches |
| TaskExtensions.EmptyFilterKeepsAll | app/src/main/java/io/tasky/taskyapp/core/util/TaskExtensions.kt:5-9 | The empty filter keeps every task |
| TaskExtensions.MatchesWhenTitleHolds | app/src/main/java/io/tasky/taskyapp/core/util/TaskExtensions.kt:6-7 | A task whose title contains the filter matches |
| TaskExtensions.FilterByIdempotent | app/src/main/java/io/tasky/taskyapp/core/util/TaskExtensions.kt:5-9 | Filtering twice with the same text is filtering once |
| InsertTaskUseCase.Insert | app/src/main/java/io/tasky/taskyapp/task/domain/use_cases/InsertTaskUseCase.kt:29-63 | A blank title fails first, then a blank type, each with its message; otherwise the task holds the inputs with slashes in the date replaced by dashes and the status stored by name |
| InsertTaskUseCase.InsertWithDefaults | app/src/main/java/io/tasky/taskyapp/task/domain/use_cases/InsertTaskUseCase.kt:37-40 | With the defaulted arguments a new task has an empty description and no recurrence, interval 1 |
| InsertTaskUseCase.InsertedDateNormalised | app/src/main/java/io/tasky/taskyapp/task/domain/use_cases/InsertTaskUseCase.kt:54 | A stored deadline date has no slash, and a date without slashes is kept as given |
| InsertTaskUseCase.InsertChecksExamples | app/src/main/java/io/tasky/taskyapp/task/domain/use_cases/InsertTaskUseCase.kt:42-54 | A whitespace title and a blank type are rejected with their messages; "1/2" is stored as "1-2" |
| InsertTaskUseCase.InsertedTaskRoundTrip | app/src/main/java/io/tasky/taskyapp/task/domain/use_cases/InsertTaskUseCase.kt:50-61 | Every task the use case builds is read back from its stored snapshot unchanged |
| UpdateTaskUseCase.Update | app/src/main/java/io/tasky/taskyapp/task/domain/use_cases/UpdateTaskUseCase.kt:30-62 | Same validation as insert; on success the task keeps its uuid and takes every given field, the date with slashes replaced |
| UpdateTaskUseCase.UpdateWithDefaults | app/src/main/java/io/tasky/taskyapp/task/domain/use_cases/UpdateTaskUseCase.kt:38-42 | The defaulted arguments keep the task's status and recurrence settings |
| UpdateTaskUseCase.UpdateWithOwnFields | app/src/main/java/io/tasky/taskyapp/task/domain/use_cases/UpdateTaskUseCase.kt:30-62 | Updating a valid task with its own fields gives the same task |
| UpdateTaskUseCase.UpdateIdempotent | app/src/main/java/io/tasky/taskyapp/task/domain/use_cases/UpdateTaskUseCase.kt:30-62 | Applying the same update twice is applying it once |
| UpdateTaskUseCase.UpdateOverwritesRecurrence | app/src/main/java/io/tasky/taskyapp/task/domain/use_cases/UpdateTaskUseCase.kt:51-62 | An update turns on recurrence with the given pattern, interval and end date and keeps the uuid |
| PredictTaskPriorityUseCase.FeaturesOf | app/src/main/java/io/tasky/taskyapp/task/domain/use_cases/PredictTaskPriorityUseCase.kt:34-48 | Type flags follow the task type (meeting for business, personal for home and hobbies, work for business and study, unknown treated as home); status flags follow the status name |
| PredictTaskPriorityUseCase.UnknownTypeIsHome | app/src/main/java/io/tasky/taskyapp/task/domain/use_cases/PredictTaskPriorityUseCase.kt:34-39 | An unrecognised type gives only the personal flag |
| PredictTaskPriorityUseCase.TypeFlagsShape | app/src/main/java/io/tasky/taskyapp/task/domain/use_cases/PredictTaskPriorityUseCase.kt:41-45 | Meeting implies work, personal excludes work, and both meeting and work hold exactly for business |
| PredictTaskPriorityUseCase.StatusFlagsExclusive | app/src/main/java/io/tasky/taskyapp/task/domain/use_cases/PredictTaskPriorityUseCase.kt:46-48 | At most one status flag is set, and one is set for a pending, in-progress or completed task |
| PredictTaskPriorityUseCase.DaysUntilDeadline | app/src/main/java/io/tasky/taskyapp/task/domain/use_cases/PredictTaskPriorityUseCase.kt:100-120 | A blank or unparsable deadline is 7 days away; otherwise the whole days from today's midnight, truncated toward zero |
| PredictTaskPriorityUseCase.AnyContained | app/src/main/java/io/tasky/taskyapp/task/domain/use_cases/PredictTaskPriorityUseCase.kt:81-87 | True exactly when some keyword occurs in the text |
| PredictTaskPriorityUseCase.DeadlinePriority | app/src/main/java/io/tasky/taskyapp/task/domain/use_cases/PredictTaskPriorityUseCase.kt:90-94 | 2 for at most one day, 1 for two or three days, 0 beyond |
| PredictTaskPriorityUseCase.DeadlinePriorityMonotone | app/src/main/java/io/tasky/taskyapp/task/domain/use_cases/PredictTaskPriorityUseCase.kt:90-94 | A nearer deadline never lowers the priority |
| PredictTaskPriorityUseCase.PriorityWithRules | app/src/main/java/io/tasky/taskyapp/task/domain/use_cases/PredictTaskPriorityUseCase.kt:74-95 | An urgent keyword gives 2, otherwise an important keyword gives 1, otherwise the deadline decides; always 0 to 2 |
| PredictTaskPriorityUseCase.UrgentTitleWins | app/src/main/java/io/tasky/taskyapp/task/domain/use_cases/PredictTaskPriorityUseCase.kt:81-83 | A title containing "urgent" gives priority 2 whatever the deadline |
| PredictTaskPriorityUseCase.Invoke | app/src/main/java/io/tasky/taskyapp/task/domain/use_cases/PredictTaskPriorityUseCase.kt:28-69 | The predictor's answer is used when it gives one; otherwise the rules decide on the same features |
| PredictTaskPriorityUseCase.NoDeadlineFallback | app/src/main/java/io/tasky/taskyapp/task/domain/use_cases/PredictTaskPriorityUseCase.kt:51-64 | Without a deadline, keywords or predictor the priority is 0 |
| MLKitTaskAnalyzer.ContainsAnyIgnoringCase | app/src/main/java/io/tasky/taskyapp/task/domain/ml/MLKitTaskAnalyzer.kt:92-103 | True exactly when some keyword occurs in the text, both lower-cased |
| MLKitTaskAnalyzer.ContainsUrgentKeywords | app/src/main/java/io/tasky/taskyapp/task/domain/ml/MLKitTaskAnalyzer.kt:92-95 | True exactly when one of the eight urgent keywords occurs in the lower-cased text |
| MLKitTaskAnalyzer.ContainsImportantKeywords | app/src/main/java/io/tasky/taskyapp/task/domain/ml/MLKitTaskAnalyzer.kt:100-103 | True exactly when one of the five important keywords occurs in the lower-cased text |
| MLKitTaskAnalyzer.ParseDeadlineDate | app/src/main/java/io/tasky/taskyapp/task/domain/ml/MLKitTaskAnalyzer.kt:108-125 | Three numeric dash-separated parts give that date with a zero-based month; anything else gives today |
| MLKitTaskAnalyzer.NoDashIsToday | app/src/main/java/io/tasky/taskyapp/task/domain/ml/MLKitTaskAnalyzer.kt:108-125 | A date without a dash is read as today |
| MLKitTaskAnalyzer.DaysUntilDeadline | app/src/main/java/io/tasky/taskyapp/task/domain/ml/MLKitTaskAnalyzer.kt:130-145 | No deadline is `Int.MAX_VALUE` days away; an unreadable one is 0 days away; a readable date is as many days away as the calendar arithmetic gives for it |
| MLKitTaskAnalyzer.AnalyzePrioritySync | app/src/main/java/io/tasky/taskyapp/task/domain/ml/MLKitTaskAnalyzer.kt:67-87 | An urgent keyword in title or description gives 2, else an important one gives 1, else the deadline bands decide; always 0 to 2 |
| MLKitTaskAnalyzer.DeadlineFallbacks | app/src/main/java/io/tasky/taskyapp/task/domain/ml/MLKitTaskAnalyzer.kt:67-87 | Without keywords, no deadline gives 0 and a deadline without dashes gives 2 |
| MLKitTaskAnalyzer.KeywordCaseExample | app/src/main/java/io/tasky/taskyapp/task/domain/ml/MLKitTaskAnalyzer.kt:92-95 | "ASAP" counts as urgent |
| PremiumManagerModel.PremiumManager.constructor | app/src/main/java/io/tasky/taskyapp/core/domain/PremiumManager.kt:19 | A new manager is not premium |
| PremiumManagerModel.PremiumManager.SimulatePremiumPurchase | app/src/main/java/io/tasky/taskyapp/core/domain/PremiumManager.kt:68-70 | After the simulated purchase the user is premium |
| PremiumManagerModel.PremiumManager.CanAddMoreTasks | app/src/main/java/io/tasky/taskyapp/core/domain/PremiumManager.kt:63-65 | A task may be added exactly when the user is premium or has fewer than 10 |
| PremiumManagerModel.CapIsTight | app/src/main/java/io/tasky/taskyapp/core/domain/PremiumManager.kt:23 | A free user may add at 9 tasks and not at 10; a premium user always may |
| PremiumManagerModel.PurchaseLiftsCap | app/src/main/java/io/tasky/taskyapp/core/domain/PremiumManager.kt:63-70 | Before the purchase the cap applies; after it adding is always allowed |
| NotificationSchedulerModel.ParseDeadlineDate | app/src/main/java/io/tasky/taskyapp/core/service/NotificationScheduler.kt:61-88 | The loop over the date formats returns the first format's successful parse, or none |
| NotificationSchedulerModel.DecideAt | app/src/main/java/io/tasky/taskyapp/core/service/NotificationScheduler.kt:105-156 | No time left schedules nothing; up to 15 minutes gives an immediate notice and the deadline alarm; more gives a reminder 15 minutes before and the deadline alarm |
| NotificationSchedulerModel.Decide | app/src/main/java/io/tasky/taskyapp/core/service/NotificationScheduler.kt:32-111 | A task that is not pending or lacks a date or time gets nothing; permission is asked exactly for a pending task with both while exact alarms are not allowed |
| NotificationSchedulerModel.NotificationScheduler.constructor | app/src/main/java/io/tasky/taskyapp/core/service/NotificationScheduler.kt:21-23 | A new scheduler has no alarms and no notices |
| NotificationSchedulerModel.NotificationScheduler.ScheduleNotificationAtTime | app/src/main/java/io/tasky/taskyapp/core/service/NotificationScheduler.kt:174-225 | The alarm under its key is replaced by one with the task's extras, its time, and the 15-minute lead on a reminder |
| NotificationSchedulerModel.NotificationScheduler.CreateNotificationsForTask | app/src/main/java/io/tasky/taskyapp/core/service/NotificationScheduler.kt:32-169 | The new alarms and notices are those `Created` gives for the task and the environment |
| NotificationSchedulerModel.NotificationScheduler.CancelTaskReminder | app/src/main/java/io/tasky/taskyapp/core/service/NotificationScheduler.kt:227-263 | The reminder, deadline and legacy alarms of the task are removed, nothing else |
| NotificationSchedulerModel.NotificationScheduler.RescheduleAllTasks | app/src/main/java/io/tasky/taskyapp/core/service/NotificationScheduler.kt:265-275 | Each pending task in turn is cancelled and scheduled again, as `Rescheduled` gives |
| NotificationSchedulerModel.NothingWithoutPendingDeadline | app/src/main/java/io/tasky/taskyapp/core/service/NotificationScheduler.kt:35-43 | A task that is not pending or has no date or time leaves the state unchanged |
| NotificationSchedulerModel.ReminderAfterNow | app/src/main/java/io/tasky/taskyapp/core/service/NotificationScheduler.kt:134-148 | When more than 15 minutes remain the reminder time is in the future |
| NotificationSchedulerModel.PastDeadlineNothing | app/src/main/java/io/tasky/taskyapp/core/service/NotificationScheduler.kt:105-111 | A deadline less than a minute away, or past, schedules nothing |
| NotificationSchedulerModel.LaterHasReminder | app/src/main/java/io/tasky/taskyapp/core/service/NotificationScheduler.kt:134-148 | A later decision carries the reminder 15 minutes before the deadline, after now |
| NotificationSchedulerModel.ScheduledByMinutes | app/src/main/java/io/tasky/taskyapp/core/service/NotificationScheduler.kt:92-156 | For a schedulable task, the new state by minutes left: unchanged, a notice plus the deadline alarm, or the reminder plus the deadline alarm |
| NotificationSchedulerModel.Created | app/src/main/java/io/tasky/taskyapp/core/service/NotificationScheduler.kt:32-169 | Scheduling a task only adds or replaces alarms, only under the task's reminder and deadline keys, and appends at most one notice |
| NotificationSchedulerModel.CreatedTouchesOwnKeys | app/src/main/java/io/tasky/taskyapp/core/service/NotificationScheduler.kt:32-169 | Scheduling a task leaves every alarm under another key as it was |
| NotificationSchedulerModel.CreatedTwiceSameAlarms | app/src/main/java/io/tasky/taskyapp/core/service/NotificationScheduler.kt:32-169 | Scheduling the same task twice leaves the same alarms as scheduling it once |
| NotificationSchedulerModel.Cleared | app/src/main/java/io/tasky/taskyapp/core/service/NotificationScheduler.kt:227-238 | After cancelling, none of the task's three keys holds an alarm, no alarm is added and no notice is sent |
| NotificationSchedulerModel.ClearedRemovesOwnKeys | app/src/main/java/io/tasky/taskyapp/core/service/NotificationScheduler.kt:227-238 | After cancelling, a key holds an alarm exactly when it did before and is not one of the task's keys, and notices are unchanged |
| NotificationSchedulerModel.RescheduleKeepsOthers | app/src/main/java/io/tasky/taskyapp/core/service/NotificationScheduler.kt:265-275 | Alarms under keys no pending task owns are untouched by rescheduling |
| NotificationSchedulerModel.RescheduleNonePending | app/src/main/java/io/tasky/taskyapp/core/service/NotificationScheduler.kt:267-268 | With no pending task rescheduling changes nothing |
| NotificationSchedulerModel.Rescheduled | app/src/main/java/io/tasky/taskyapp/core/service/NotificationScheduler.kt:265-275 | Rescheduling only appends notices, at most one per task |
| CalendarRepositoryModel.StatusCount | app/src/main/java/io/tasky/taskyapp/calendar/data/CalendarRepository.kt:50-66 | A status counter is zero exactly when no task item has the status, and equals the item count exactly when all do |
| CalendarRepositoryModel.GoogleEventCount | app/src/main/java/io/tasky/taskyapp/calendar/data/CalendarRepository.kt:50-66 | The event counter is zero exactly when no item is a calendar event, and the item count exactly when all are |
| CalendarRepositoryModel.CountersPartition | app/src/main/java/io/tasky/taskyapp/calendar/data/CalendarRepository.kt:45-67 | The four status counters, the event counter and the items with an unknown status add up to the number of items |
| CalendarRepositoryModel.UnknownCountZero | app/src/main/java/io/tasky/taskyapp/calendar/data/CalendarRepository.kt:45-67 | No item is left out of the counters exactly when no task has an unknown status |
| CalendarRepositoryModel.CounterSumBound | app/src/main/java/io/tasky/taskyapp/calendar/data/CalendarRepository.kt:45-67 | The counters sum to at most the number of items, with equality exactly when no task has an unknown status |
| CalendarRepositoryModel.FormatBasicDate | app/src/main/java/io/tasky/taskyapp/calendar/data/CalendarRepository.kt:778-788 | The UNTIL date is all digits, at least eight of them |
| CalendarRepositoryModel.RecurOf | app/src/main/java/io/tasky/taskyapp/calendar/data/CalendarRepository.kt:759-791 | A rule exists exactly for a recurring task whose upper-cased pattern is a known frequency; the interval is given only when positive; UNTIL only when an end date is present |
| CalendarRepositoryModel.RecurrenceRule | app/src/main/java/io/tasky/taskyapp/calendar/data/CalendarRepository.kt:759-791 | The rule is empty for a non-recurring task and exactly when no rule applies |
| CalendarRepositoryModel.BuildRecurrenceRule | app/src/main/java/io/tasky/taskyapp/calendar/data/CalendarRepository.kt:759-791 | The string built step by step is `RecurrenceRule` of the task |
| CalendarRepositoryModel.HeadTextFlat | app/src/main/java/io/tasky/taskyapp/calendar/data/CalendarRepository.kt:773-775 | The frequency and optional interval parts joined by semicolons are the frequency text followed by the interval text |
| CalendarRepositoryModel.RuleTextFlat | app/src/main/java/io/tasky/taskyapp/calendar/data/CalendarRepository.kt:773-788 | The joined rule is the RRULE prefix, the frequency, the interval text and the until text in order |
| CalendarRepositoryModel.FormatBasicDateDecodes | app/src/main/java/io/tasky/taskyapp/calendar/data/CalendarRepository.kt:778-788 | The UNTIL date reads back as the same date |
| CalendarRepositoryModel.RulePartsNoSeparator | app/src/main/java/io/tasky/taskyapp/calendar/data/CalendarRepository.kt:773-788 | No part of a rule contains the semicolon separator |
| CalendarRepositoryModel.DecodePartsOfRule | app/src/main/java/io/tasky/taskyapp/calendar/data/CalendarRepository.kt:773-788 | The parts of a rule decode to the rule |
| CalendarRepositoryModel.RecurrenceRuleRoundTrip | app/src/main/java/io/tasky/taskyapp/calendar/data/CalendarRepository.kt:759-791 | The rule string decodes back to the recurrence it was built from, and an empty string to none |
| CalendarRepositoryModel.RecurrenceRuleStart | app/src/main/java/io/tasky/taskyapp/calendar/data/CalendarRepository.kt:773-775 | Every rule starts with "RRULE:FREQ=" and the upper-cased pattern |
| CalendarRepositoryModel.Disambiguate | app/src/main/java/io/tasky/taskyapp/calendar/data/CalendarRepository.kt:409-423 | A first number above 12 is the day; a second above 12 is the day; with both at most 12 the first is the day; both above 12 is unreadable |
| CalendarRepositoryModel.ByNumbers | app/src/main/java/io/tasky/taskyapp/calendar/data/CalendarRepository.kt:405-423 | A date read from three numbers is valid, has the third as its year and the first two as month and day in some order; both above 12 gives none; both at most 12 gives the first as the day when that date is valid |
| CalendarRepositoryModel.ByParts | app/src/main/java/io/tasky/taskyapp/calendar/data/CalendarRepository.kt:399-428 | Only text splitting, with `/` read as `-`, into three integer parts with a four-character last part yields a date; the date is valid and its year is the last part |
| CalendarRepositoryModel.MultiFormatDate | app/src/main/java/io/tasky/taskyapp/calendar/data/CalendarRepository.kt:390-451 | ISO parses win; then the split-parts reading; then the fallback formats; then today |
| CalendarRepositoryModel.ParseMultiFormatDate | app/src/main/java/io/tasky/taskyapp/calendar/data/CalendarRepository.kt:390-451 | The method with its loop over formats returns `MultiFormatDate` |
| CalendarRepositoryModel.UnreadableIsToday | app/src/main/java/io/tasky/taskyapp/calendar/data/CalendarRepository.kt:440-450 | When neither the ISO layout, the `a-b-yyyy` rule nor any fallback layout reads the text, the result is today |
| CalendarRepositoryModel.MultiFormatDateValid | app/src/main/java/io/tasky/taskyapp/calendar/data/CalendarRepository.kt:390-451 | When the library parsers and the clock give valid dates, so does the parser |
| CalendarRepositoryModel.ByPartsCases | app/src/main/java/io/tasky/taskyapp/calendar/data/CalendarRepository.kt:399-428 | For three numeric parts with a four-digit year the day and month are chosen as the disambiguation rules say, and both above 12 is rejected |
| CalendarViewModelModel.Insert | app/src/main/java/io/tasky/taskyapp/calendar/presentation/CalendarViewModel.kt:495-507 | Inserting an element into a sequence lengthens it by one |
| CalendarViewModelModel.InsertElements | app/src/main/java/io/tasky/taskyapp/calendar/presentation/CalendarViewModel.kt:495-507 | Inserting adds exactly the new element to the multiset of elements |
| CalendarViewModelModel.SortBy | app/src/main/java/io/tasky/taskyapp/calendar/presentation/CalendarViewModel.kt:495-507 | Sorting keeps the length and rearranges the elements, neither adding nor dropping any |
| CalendarViewModelModel.SortBySorted | app/src/main/java/io/tasky/taskyapp/calendar/presentation/CalendarViewModel.kt:495-507 | Sorting by a total preorder gives a sorted sequence |
| CalendarViewModelModel.SortByStable | app/src/main/java/io/tasky/taskyapp/calendar/presentation/CalendarViewModel.kt:495-507 | Elements with equal keys keep their relative order, as Kotlin's stable sort does |
| CalendarViewModelModel.IntLeTotalPreorder | app/src/main/java/io/tasky/taskyapp/calendar/presentation/CalendarViewModel.kt:495-502 | The event key order is a total preorder |
| CalendarViewModelModel.TextLeTotalPreorder | app/src/main/java/io/tasky/taskyapp/calendar/presentation/CalendarViewModel.kt:505-507 | The string order of task keys is a total preorder |
| CalendarViewModelModel.EventKey | app/src/main/java/io/tasky/taskyapp/calendar/presentation/CalendarViewModel.kt:495-502 | An event's key is its start time read as a Long, or `Long.MAX_VALUE` when unreadable, so unreadable events sort last |
| CalendarViewModelModel.IndexOfKey | app/src/main/java/io/tasky/taskyapp/calendar/presentation/CalendarViewModel.kt:510-511 | The group with a key is found exactly when one exists |
| CalendarViewModelModel.GroupBy | app/src/main/java/io/tasky/taskyapp/calendar/presentation/CalendarViewModel.kt:510-512 | Grouping gives distinct keys in first-seen order, one group per key present, each holding exactly the tasks with that key in input order; the groups one after the other hold the input's tasks, none added or lost |
| CalendarViewModelModel.Annotate | app/src/main/java/io/tasky/taskyapp/calendar/presentation/CalendarViewModel.kt:512-526 | In a group of several tasks only the first gets the note naming the number of others, appended to its description; single groups are unchanged |
| CalendarViewModelModel.AnnotateKeepsOtherFields | app/src/main/java/io/tasky/taskyapp/calendar/presentation/CalendarViewModel.kt:512-526 | The note changes only the description |
| CalendarViewModelModel.FlattenAnnotated | app/src/main/java/io/tasky/taskyapp/calendar/presentation/CalendarViewModel.kt:512-526 | Annotating keeps the number of tasks |
| CalendarViewModelModel.ConflictNote | app/src/main/java/io/tasky/taskyapp/calendar/presentation/CalendarViewModel.kt:518-519 | The note starts with the conflict marker and ends with the fixed sentence, and the number between them reads back as the count of other tasks |
| CalendarViewModelModel.SortAndHandleConflicts | app/src/main/java/io/tasky/taskyapp/calendar/presentation/CalendarViewModel.kt:489-530 | The result has as many items as the input, exactly its first block (as long as the input's number of calendar events) being events and the rest tasks |
| CalendarViewModelModel.EventsOrdered | app/src/main/java/io/tasky/taskyapp/calendar/presentation/CalendarViewModel.kt:491-502 | The events are sorted by start time, a permutation of the input's events, stable on equal keys |
| CalendarViewModelModel.TasksOrdered | app/src/main/java/io/tasky/taskyapp/calendar/presentation/CalendarViewModel.kt:491-511 | The tasks are sorted by their deadline time only (a missing time sorting as "23:59"), a permutation of the input's tasks, stable on equal keys, and grouped by deadline time (a missing time grouped as "No time") |
| Text.ParseIntToString | app/src/main/java/io/tasky/taskyapp/task/domain/model/Task.kt:36-40 | Kotlin's integer parser reads back every in-range number's decimal text |
| Text.SplitJoin | app/src/main/java/io/tasky/taskyapp/task/domain/ml/MLKitTaskAnalyzer.kt:110 | Joining the parts of a split gives the string back |
| Text.JoinSplit | app/src/main/java/io/tasky/taskyapp/calendar/data/CalendarRepository.kt:773-788 | Splitting parts free of the separator after joining them gives the parts back |
| Text.TruncDiv | app/src/main/java/io/tasky/taskyapp/task/domain/use_cases/PredictTaskPriorityUseCase.kt:115-116 | Division rounds toward zero, as Kotlin's Long division does |
| Text.StringLeTotal | app/src/main/java/io/tasky/taskyapp/calendar/presentation/CalendarViewModel.kt:505-507 | Any two strings are comparable |
| Text.StringLeTransitive | app/src/main/java/io/tasky/taskyapp/calendar/presentation/CalendarViewModel.kt:505-507 | The string order is transitive |
| Text.StringLeAntisymmetric | app/src/main/java/io/tasky/taskyapp/calendar/presentation/CalendarViewModel.kt:505-507 | Strings ordered both ways are equal |

## Left out

- Asynchronous work (coroutines, flows, the ML Kit and TensorFlow Lite inference in `analyzePriority` and `TaskPriorityPredictor`) is not modelled; the trained predictor is a parameter.
- Logging, toasts, Android intents, pending-intent flags and the UI dialog of `launchPremiumPurchase` are left out; they do not change the modelled state.
- The Python demo under `__main__` is left out; it only prints.
- FvgDetection.DetectFvgAfterAsiaBreak: starts the range from the first window bar instead of from minus and plus infinity, which gives the same range without floating point infinities; prices are reals, not IEEE doubles.
- Text.ParseInt: accepts only the digits '0'-'9', while Kotlin's `toInt`/`toIntOrNull` also accept every other Unicode decimal digit.
- Text.Lower, Text.Upper: map only the ASCII letters and the Latin-1 letters U+00C0-U+00DE and U+00E0-U+00FE (leaving out × and ÷); Kotlin's full Unicode case mapping of other letters ('ı' to 'I', 'ÿ' to 'Ÿ', "ß" upper-cased to "SS") is not modelled. Whitespace is Kotlin's `Char.isWhitespace` in full.
- Text.StringLe: orders by character code; Kotlin compares UTF-16 code units, which differs only above the Basic Multilingual Plane.
- `SimpleDateFormat` parsing, `LocalDate.parse`, `DateTimeFormatter`, `Calendar` and the system clock are parameters of the operations that use them.
- CalendarRepositoryModel.FormatBasicDate: writes the UNTIL date with the ASCII digits '0'-'9', so it assumes a default locale that uses them; under a locale with other native digits (Persian or Arabic-Indic, say) `SimpleDateFormat("yyyyMMdd", Locale.getDefault())` writes those digits instead, which the model and its `AllDigits` ensures do not cover.
- PredictTaskPriorityUseCase.DaysUntilDeadline: the source divides the whole milliseconds by a day's, truncating toward zero as the model does, and then converts the quotient to `Float`; the model keeps the exact integer, which differs from the `Float` only for day counts above 2^24.
- PredictTaskPriorityUseCase.Invoke: the outer catch that returns 1 is not modelled; with every library call a total parameter, nothing in the body can throw.
- TaskType.kt is not part of this model; the type names used by the use cases are modelled as an enumeration.
- UpdateTaskUseCase.Update: the priority field and the call into the predictor after the update are not modelled; the task record here has no priority field.
- NotificationSchedulerModel.NotificationScheduler.ScheduleNotificationAtTime: alarms are keyed by their request name, not by its `hashCode`, so two names with the same hash do not collide here; the `SecurityException` catch is not modelled.
- NotificationSchedulerModel.Decide: an unparsable deadline time becomes the error notice of the outer catch; the source's `?: return` never runs, because `SimpleDateFormat.parse` throws instead of returning null.
- NotificationSchedulerModel.NotificationScheduler.RescheduleAllTasks: one clock reading is used for every task rather than a fresh one per task.
- CalendarRepositoryModel.RecurrenceRule: years above 9999 are written with more than four digits, as the formatter does, outside the date form of RFC 5545.
- MLKitTaskAnalyzer.DaysUntilDeadline: the `Calendar` day arithmetic, including month rollover, is a parameter.
- Google Calendar API calls, Firebase reads and writes, and Gson serialisation in the repository are left out as I/O; only the pure rules around them are modelled.

## Findings

| source | as written | input that shows it | evidently intended | confidence | as-written member | corrected member |
|---|---|---|---|---|---|---|
| app/src/main/java/io/tasky/taskyapp/calendar/data/CalendarEventRef.kt:32-34 | `fromSnapshot` reads `isSynced` and `isDeleted`, but Firebase stores these Kotlin `is` properties as `synced` and `deleted` | a deleted, unsynced reference written and read back (`DeletedFlagLostExample`) returns as synced and not deleted | read the keys Firebase writes, `synced` and `deleted` | medium, not executed | CalendarEventRefModel.DeletedFlagLost | CalendarEventRefModel.FixedRoundTrip |
