# boson-api operations core, modelled in Dafny

boson-api is the backend of an operations app for water-treatment projects. Projects are split into stages, and stages hold tasks. Technicians log daily updates (photos, distance, man-hours) against tasks. Managers review and close the tasks. Notifications go out over WhatsApp.

This project models the parts of that backend that decide things, as Dafny values, functions and classes with proved contracts:

- **Task status.** The automatic status of a task (`determineTaskStatus`, `updateTaskStatusAndSave`), and the explicit transitions `submitForReview`, `resubmitTask` and `markAsDone` with their guards. The `Task` class changes its own fields in place. The wall clock is a parameter.
- **Project status.** The stage analysis (`analyzeProjectStages`), the derived status (`determineProjectStatus`), `updateProjectStatus` with its notification decision, the stage counters of `getProjectById`, and the technician sync of the team (`syncProjectTechnicians`), as the `Project` class.
- **Dates.** Calendar days as whole numbers of days since 1970-01-01, with `new Date(y, m, d)` overflow made explicit. The inclusive day ranges (`getDatesInRange`, `generateDates`) and the repeat-rule expansion of `calculateTaskDates`: daily, weekly and monthly, with its three end conditions and its 10 000-pass cap.
- **Daily-update ledger.** Reconciliation against a task's date range (`updateDailyUpdates`), the wholesale rebuild of `updateTaskTimeline`, and the per-record edits that a task's `Completed` status blocks.
- **Scheduling.** The month calendar of `listTasksForMonth` and the tasks that `createScheduledTasks` builds.
- **Project rules.** Request validation (`validateProjectData`, `validateProjectManagers`), the team-member map merge of `updateProject`, and the client clean-up of `deleteProject`.
- **WhatsApp senders.** Indian phone normalisation, `{{k}}` placeholder substitution and the interactive payload for the Meta Cloud API. For the MessageCentral sender: the phone check, variable sanitising and `encodeURIComponent`, the query string, and the ordinal date text.
- **Small helpers.** The S3 helpers (file validation, folder choice, object keys and the key derived back for deletion), the CORS origin check, the role-permission table with `validateAction`/`restrictTo`, the bearer-token step of `protect`, and `validateEmail`, `secondsToTime`, `getDomainName`.

Loops in the source are Dafny methods with loop invariants. Each method is proved against a specification function, and lemmas state what the source promises about that function. Database reads and the current time are inputs; database writes are state or outputs.

## Model

| member | source | states |
|---|---|---|
| TaskModel.Midnight | utils/functions.js:187-188 | the midnight instant of a day is valid, lies on that day, and its timestamp is the start of that day |
| TaskModel.TimestampOrder | utils/functions.js:168-172 | for valid instants, timestamp order is day order first and time-of-day order second |
| TaskStatusResolver.DetermineTaskStatus | utils/functions.js:161-178 | never a sticky status; `To-do` when a date is missing; otherwise `To-do` exactly before the start, `On-going` exactly from the start to the end inclusive, `Delayed` exactly after the end, on raw timestamps |
| TaskStatusResolver.ResolveStatus | utils/functions.js:180-202 | `To-review` and `Completed` are returned unchanged; with both dates, on day-truncated dates, `To-do` exactly when the start day is after today, `On-going` exactly when today is within the start and end days, `Delayed` exactly after the end day; a missing date makes only its own comparisons false, so a future start alone gives `To-do`, a past end alone gives `Delayed`, and otherwise the status stays |
| TaskStatusResolver.ResolveKeepsStickiness | utils/functions.js:190-202 | resolution gives a sticky status exactly when the current status is sticky |
| TaskStatusResolver.ResolveIdempotent | utils/functions.js:190-202 | resolving the resolved status again on the same instant changes nothing |
| TaskStatusResolver.ResolveIgnoresTimeOfDay | utils/functions.js:181-182 | two instants on the same day give the same resolution |
| TaskStatusResolver.RawAndDayResolutionAgree | utils/functions.js:161-202 | with all three instants at the same time of day, the raw and the day-truncated rules agree on a non-sticky task |
| TaskStatusResolver.RawResolutionDelaysOnEndDay | utils/functions.js:161-202 | on the end day after the stored end time, the raw rule says `Delayed` while the day rule says `On-going` |
| Tasks.Refresh | utils/functions.js:180-202 | the automatic refresh changes only the status, to the one `ResolveStatus` gives for the task's status and dates, and leaves a sticky task unchanged |
| Tasks.Submit | controllers/taskController.js:1525-1552 | fails with the report error exactly when the report names a form and holds no data; fails with the photo error exactly when the report is fine and no daily update has photos; otherwise sets `To-review` and the review date and nothing else, whatever the current status |
| Tasks.Resubmit | controllers/taskController.js:1624-1631 | fails exactly when the task is not `To-review`; otherwise the status is `determineTaskStatus` of the dates (never sticky), the review date is cleared, and nothing else changes |
| Tasks.MarkDone | controllers/taskController.js:1684-1692 | fails exactly when the task is not `To-review`; otherwise sets `Completed` and the completion date and nothing else |
| Tasks.RefreshKeepsSticky | utils/functions.js:190-193 | any sequence of automatic refreshes leaves a `To-review` or `Completed` task unchanged |
| Tasks.RefreshNeverReachesSticky | utils/functions.js:195-202 | no sequence of automatic refreshes takes a task to `To-review` or `Completed` |
| Tasks.SubmitThenMarkDone | controllers/taskController.js:1525-1692 | a submission that passes its checks followed by `markAsDone` completes a task from any status |
| Tasks.CompletedCanBeResubmittedForReview | controllers/taskController.js:1525-1552 | submission does not check the status, so a `Completed` task passing the checks goes back to `To-review` |
| Tasks.CompletedIsFinalForReview | controllers/taskController.js:1624-1692 | a `Completed` task is refused by both `markAsDone` and `resubmitTask` |
| Tasks.Task.constructor | models/taskModel.js:17 | a new task is `To-do` with the given dates and no review or completion date |
| Tasks.Task.UpdateStatus | utils/functions.js:180-202 | the task's fields afterwards are `Refresh` of its fields before: only the status changes, to the resolved one, each date compared on its own even when the other is missing |
| Tasks.Task.SubmitForReview | controllers/taskController.js:1525-1552 | fails exactly when `Submit` fails, with its error and no change; otherwise the fields become `Submit`'s result |
| Tasks.Task.ResubmitTask | controllers/taskController.js:1624-1631 | fails exactly when `Resubmit` fails, with its error and no change; otherwise the fields become `Resubmit`'s result |
| Tasks.Task.MarkAsDone | controllers/taskController.js:1684-1692 | fails exactly when `MarkDone` fails, with its error and no change; otherwise the fields become `MarkDone`'s result |
| DailyUpdates.Kept | controllers/taskController.js:44-47 | the records kept are exactly those whose day is in the desired range |
| DailyUpdates.StaleIds | controllers/taskController.js:44-51 | the ids deleted are exactly those of records whose day is outside the desired range |
| DailyUpdates.MissingDates | controllers/taskController.js:53-55 | the days inserted are exactly the desired days that no existing record has |
| DailyUpdates.FreshRecords | controllers/taskController.js:56-59 | one new record per missing day, in order, holding only its date |
| DailyUpdates.ReconciledCoversExactly | controllers/taskController.js:30-62 | after reconciliation the ledger has a record for a day exactly when the day is in `[startDate, endDate]`: no gap and no extra day |
| DailyUpdates.ReconciledPreservesOverlap | controllers/taskController.js:44-62 | an existing record is still present, unchanged, exactly when its day is in the new range |
| DailyUpdates.ReconcileIdempotent | controllers/taskController.js:44-62 | reconciling a reconciled ledger against the same range deletes nothing and inserts nothing |
| DailyUpdates.Find | controllers/taskController.js:1415-1419 | the index found holds the record with that id, and there is none when no record has it |
| DailyUpdates.Without | controllers/taskController.js:1275-1277 | the remaining photos are exactly the original ones not requested, in their order |
| DailyUpdates.Matching | controllers/taskController.js:1265-1267 | the files to delete are exactly the requested urls the record holds |
| DailyUpdates.WithoutMatching | controllers/taskController.js:1265-1277 | removing the matching urls leaves the same photos as removing all requested urls |
| DailyUpdates.Ledger.constructor | models/dailyUpdateModel.js:1-36 | a new ledger is empty |
| DailyUpdates.Ledger.Reconcile | controllers/taskController.js:27-66 | a no-op when a date is missing; otherwise deletes exactly the stale ids, inserts exactly the missing days, and the ledger becomes the kept records followed by the new ones, with unique ids |
| DailyUpdates.Ledger.ResetTimeline | controllers/taskController.js:1077-1122 | fails without change, in this order, when the start date-time is after the end, when the task's project is missing, and when the start is before the project's start; otherwise every record is replaced by one new record per date `generateDates` emits, from the start's day to the last day its cursor reaches |
| DailyUpdates.ResetTimelineDays | utils/functions.js:389-404 | for an accepted range the records cover every day from the start's to the end's, except the end's own day exactly when the start's time of day is later than the end's; there is at least one record |
| DailyUpdates.ResetTimelineLosesEndDay | utils/functions.js:389-404 | from 10:00 on day 1 to 09:00 on day 3 the records are for days 1 and 2 only |
| DailyUpdates.Ledger.UpdateDistance | controllers/taskController.js:1410-1437 | fails without change when the record or its task is missing or the task is `Completed`; otherwise only that record's distance changes, to the given number, fractions included |
| DailyUpdates.Ledger.UpdateManHours | controllers/taskController.js:1451-1482 | the same guards; otherwise only that record's man-hours change, to the two given numbers with `totalHours` their product |
| DailyUpdates.Ledger.DeletePhotos | controllers/taskController.js:1245-1290 | fails without change when the record or task is missing, or exactly when no requested url is among the photos; otherwise returns the matching urls and the record keeps the others in order |
| DailyUpdates.ResetTimelineDropsPhotos | controllers/taskController.js:1111-1122 | every record made by the timeline reset is blank: photos, distance and man-hours are lost even on days that stay in range |
| DateRanges.DayRange | utils/functions.js:356-366 | the range from `s` to `e` has `e - s + 1` days, the `i`-th being `s + i`, and is empty when `s` is after `e` |
| DateRanges.DayRangeShape | utils/functions.js:389-404 | a non-empty range starts at `s`, ends at `e`, steps one day at a time and repeats no day |
| DateRanges.InDayRange | utils/functions.js:356-366 | a day is in the range exactly when it lies between the bounds |
| DateRanges.SingleDayRange | utils/functions.js:356-366 | the range of one day is that day alone |
| DateRanges.GetDatesInRange | utils/functions.js:356-366 | the loop's output is `DayRange(start, end)`, so `[]` when the start is after the end |
| DateRanges.GenerateDates | utils/functions.js:389-404 | fails exactly when the start is after the end; otherwise the inclusive range, of length the day difference plus one |
| Calendar.Weekday | utils/functions.js:263 | the weekday of a day, numbered as `getDay()` with Sunday 0, lies in 0..6 |
| Calendar.WeekdayShift | utils/functions.js:263-264 | moving `k` days moves the weekday by `k` modulo 7 |
| Calendar.DateOf | utils/functions.js:213-214 | the calendar triple of a day is a real date naming that day |
| Calendar.DateOfDayOf | utils/functions.js:213-214 | a real date read back from its day is the same date |
| Calendar.DayOfInjective | utils/functions.js:213-214 | two real dates naming the same day are equal |
| Calendar.DayOrderIsLexicographic | utils/functions.js:244 | comparing days is comparing (year, month, day) lexicographically |
| Calendar.JsDateInRange | utils/functions.js:314-318 | `new Date(y, m, d)` with an in-range day names that date, the month index carrying into the year |
| Calendar.Feb29Overflows | utils/functions.js:225-226 | 29 February of a common year overflows to 1 March |
| Calendar.FirstOfMonthDate | utils/functions.js:314-318 | the first of a day's month is that month's day 1 and not after the day |
| Calendar.LastOfMonthDate | utils/functions.js:292-298 | the `lastDay` of a month is the last day of that month, not before the day |
| Calendar.LastOfMonthIs | utils/functions.js:292-298 | the day before the first of the following month is the last day of month number `m` |
| Calendar.FirstOfNextMonthDate | utils/functions.js:277-281 | day 1 of the next month is the first of the following month, after the day |
| Calendar.FirstOfNextMonthIs | utils/functions.js:277-281 | `new Date(y, m, 1)` with month number `m` is the first of the following month |
| Recurrence.JsRem7 | utils/functions.js:263 | JavaScript's `% 7`: the remainder lies strictly between -7 and 7, differs from the dividend by a multiple of 7 and has the dividend's sign |
| Recurrence.MaxEnd | utils/functions.js:222-233 | an end bound exists exactly for `oneYear` and for a parsed `endDate`; it is the end date itself, or the start moved one year on |
| Recurrence.MaxEndOneYear | utils/functions.js:223-226 | a year after the start is the same day next year, and 29 February rolls over to 1 March |
| Recurrence.MaxOccurrences | utils/functions.js:235-236 | the occurrence bound exists exactly for the `occurrences` end condition and is its count |
| Recurrence.DailyDistinct | utils/functions.js:252-254 | with a non-zero interval the daily days `start + i * interval` are pairwise distinct |
| Recurrence.WeeklyCandidateShape | utils/functions.js:262-264 | the day chosen for a weekday 0-6 is the first day on that weekday from the pass's day on, 0 to 6 days later |
| Recurrence.WeeklyFoldAppends | utils/functions.js:261-272 | a weekly pass only appends, at most one day per listed weekday, each a candidate not present before and within the end bound, and keeps the days duplicate-free |
| Recurrence.WeeklyFoldComplete | utils/functions.js:261-272 | every candidate of the pass that is within the end bound is present afterwards |
| Recurrence.WeeklyFollowsListOrder | utils/functions.js:261-272 | days come out in the order of `daysOfWeek`, so a later weekday listed first is emitted first |
| Recurrence.WeeklyPass | utils/functions.js:261-272 | the `forEach` loop computes the weekly pass |
| Recurrence.WeeklyDateShape | utils/functions.js:261-273 | every weekly day falls on a listed weekday, 0 to 6 days after the day of some pass |
| Recurrence.NormalizeDay | utils/functions.js:241 | a Monday-based weekday 0-6 becomes the `getDay()` number `(day + 1) % 7` |
| Recurrence.NthOrDefault | utils/functions.js:312 | a missing (zero) occurrence number means the first; a given one is kept; the result is never zero |
| Recurrence.NthWeekdayIsNth | utils/functions.js:312-328 | the corrected `nthDay` day falls on the target weekday in the `nth` block of seven days from the first of the month |
| Recurrence.NthWeekdayDayOfMonth | utils/functions.js:312-331 | a corrected `nthDay` day that stays in its month is between days `7(nth-1)+1` and `7 nth` of the month |
| Recurrence.NthWeekdayAsWrittenWeekday | utils/functions.js:319-328 | the day the source computes falls on the target weekday |
| Recurrence.NthWeekdayAsWrittenOvershoots | utils/functions.js:319-328 | the source's day is exactly one week late when the month starts on the target weekday and `nth` > 1, and correct otherwise |
| Recurrence.SecondMondayOfJune1970 | utils/functions.js:319-328 | the second Monday of June 1970 is the 8th, while the source schedules the 15th |
| Recurrence.MonthsLaterKeepsDay | utils/functions.js:345 | `setUTCMonth(month + interval)` keeps a day of the month that exists in the target month, carrying the month into the year |
| Recurrence.MonthsLaterOverflows | utils/functions.js:345 | a day that does not exist in the target month overflows: 31 January 1972 plus one month is 2 March |
| Recurrence.MonthlyPass | utils/functions.js:274-343 | one monthly pass appends `MonthlyPick`'s day, as written, when it is within the end bound and new, and nothing else: `firstDay` exactly the first of the next month, `lastDay` exactly the last of this month, `nthDay` exactly the source's day when it stays in this month; an unknown option is reported as unsupported and appends nothing |
| Recurrence.Pass | utils/functions.js:251-350 | one pass is `PassStep` of the code as written: the daily day, the weekly fold or the monthly pass, with the cursor moved by the interval in days, weeks or months; an unknown frequency, a weekly rule without days or an unsupported monthly option stops without adding a day |
| Recurrence.CalculateTaskDates | utils/functions.js:209-354 | the days are exactly `TaskDates` of the rule as written, the loop run as a function; no days for an unparsed start or end date or an unsupported rule; the days are distinct, within the end bound, at most 10000 passes' worth, at most one pass beyond the occurrence count, each of the shape its frequency promises; a daily run stops only at the iteration cap, the count or the end bound |
| Recurrence.TurnsExtend | utils/functions.js:243-350 | once passes only append, each turn of the loop only appends to the days it has |
| Recurrence.PassesAppend | utils/functions.js:251-350 | every daily, weekly and monthly pass, as written or corrected, only appends |
| Recurrence.TurnsCount | utils/functions.js:243-248 | while the loop runs, its iteration count is the number of turns taken |
| Recurrence.LoopEnds | utils/functions.js:243-248 | the loop has ended after 10001 turns, and further turns change nothing |
| Recurrence.TurnHalts | utils/functions.js:244-250 | a turn that exceeds the iteration cap or finds the cursor past the end bound ends the loop with the days unchanged |
| Recurrence.ExitSettles | utils/functions.js:243 | once the occurrence count is reached, no further day is added |
| Recurrence.ReachedSettles | utils/functions.js:243-350 | a state at which the loop breaks or exits holds the final days |
| Recurrence.PassKept | utils/functions.js:243-350 | every day a performed pass has appended is in the final days |
| Recurrence.TurnsCursor | utils/functions.js:254-345 | while the loop runs, its cursor is the start moved once per turn by the pass's step |
| Recurrence.PassesMove | utils/functions.js:254-345 | a weekly pass moves the cursor 7 times the interval, a monthly pass by `setUTCMonth` with the interval |
| Recurrence.WeekMoves | utils/functions.js:270 | the weekly cursor after `k` moves is the start plus `k` weeks of the interval |
| Recurrence.WeeklyRunComplete | utils/functions.js:243-273 | for every pass the loop performs, each listed weekday's day within the end bound is among the final days |
| Recurrence.PickSupported | utils/functions.js:274-341 | a monthly rule that picks a day is supported |
| Recurrence.MonthlyRunComplete | utils/functions.js:243-345 | for every pass the loop performs, the month's pick within the end bound is among the final days, as written and corrected alike |
| Recurrence.CorrectedPickIsNth | utils/functions.js:312-331 | with the corrected offset, an `nthDay` pick in the same year falls on the target weekday and is the `nth` such day of the month, between days `7(nth-1)+1` and `7 nth` |
| Scheduling.CursorDates | utils/functions.js:356-366 | on date-times the range keeps the start's time of day, one instant per day from the start's day to the last day the cursor reaches |
| Scheduling.CursorDatesMaximal | utils/functions.js:356-366 | the emitted instants are exactly the daily steps from the start that are not after the end: each is, the next one is not |
| Scheduling.GetDateTimesInRange | utils/functions.js:356-366 | the loop on date-times emits `CursorDates(start, end)` |
| Scheduling.AddStatusHas | controllers/taskController.js:900-903 | adding a status under a day creates the key, lists the status, keeps every other listing and repeats no status |
| Scheduling.AddDaysHas | controllers/taskController.js:897-904 | after a task's days are added, a day lists a status exactly when it did before or it is one of the task's days and the status is the task's |
| Scheduling.MonthViewHas | controllers/taskController.js:885-905 | under key `k` appear exactly the statuses of the tasks spanning day `k` of the range |
| Scheduling.MonthViewDistinct | controllers/taskController.js:900-903 | no status is listed twice under a day |
| Scheduling.DayOfMonthInMonth | controllers/taskController.js:854-855 | for a month number 1-12 every day between the first and the last of the month has `getDate()` equal to its key, in the year `new Date` uses (a year 0-99 read as 1900-1999) |
| Scheduling.TwoDigitYear | controllers/taskController.js:854-855 | a year from 0 to 99 asks for that month of 1900 to 1999: the first day is the 1st of that month, and the last day lies in the same year |
| Scheduling.MonthViewMeaning | controllers/taskController.js:843-915 | the intended calendar lists, under each day 1..days-in-month, exactly the statuses of the tasks spanning that day, each once, and no other keys; a year 0-99 is read as 1900-1999 |
| Scheduling.LastDayOfMonthDropped | controllers/taskController.js:855-895 | a task starting at 10:00 on 30 June 1970 is missing from the June calendar as written, while the intended view lists it under day 30 |
| Scheduling.ListTasksForMonth | controllers/taskController.js:843-915 | a missing month or year is an error; otherwise the result is the month view as written: the tasks the store query finds, on raw date-times against the two midnights, each clipped to the month and listed under the days the cursor reaches |
| Scheduling.AddDaysKeys | controllers/taskController.js:897-904 | after a task's days are added, the keys are the old ones and exactly those of the task's days |
| Scheduling.AsWrittenTaskDaysSound | controllers/taskController.js:855-895 | for stored instants, a task the store's filter finds is listed as written only under days of the month that the task spans |
| Scheduling.MonthViewAsWrittenWithin | controllers/taskController.js:855-905 | for stored instants, every key of the calendar as written is a day from the month's first to its last, and each status under it is that of a task spanning that day |
| Scheduling.MonthViewAsWrittenSound | controllers/taskController.js:843-915 | for stored instants, the calendar as written has only keys 1..days-in-month, and each status listed under day `k` is that of a task spanning day `k` of the month |
| Scheduling.AsWrittenAtMidnight | controllers/taskController.js:855-905 | when every task starts and ends at midnight, the view as written is the intended month view |
| Scheduling.AddEachDay | controllers/taskController.js:897-904 | the inner loop adds the task's status under each of its days |
| Scheduling.RequestError | controllers/taskController.js:1809-1838 | the checks come in order: project id, then title, then a non-empty date list, then stage, then an existing project; no error exactly when all pass |
| Scheduling.TaskFor | controllers/taskController.js:1841-1853 | a created task ends at its date, starts one day earlier at the same time, is `To-do` and has the request's title and stage |
| Scheduling.TwoDailyUpdates | controllers/taskController.js:1872 | the daily updates of a created task are its start and its end |
| Scheduling.Schedule | controllers/taskController.js:1805-1882 | a failed check inserts nothing; otherwise one task per date is inserted, and the stage-not-found error comes exactly when the stage is missing; when the stage is found each inserted task's daily updates are exactly its start and its end date |
| Scheduling.CreateScheduledTasks | controllers/taskController.js:1805-1882 | the handler leaves behind what `Schedule` says |
| Team.Users | controllers/projectController.js:497-499 | the keys of the map are exactly the users with an entry, one per entry |
| Team.UniqueKeysDistinct | controllers/projectController.js:497-499 | a member list is a map exactly when no user appears twice |
| Team.MapSet | controllers/projectController.js:531-538 | `set` gives the key the new role, leaves every other key alone and keeps the keys distinct |
| Team.MapDelete | controllers/projectController.js:545 | `delete` removes the key, leaves every other key alone and keeps the keys distinct |
| Team.FromMembers | controllers/projectController.js:497-499 | the map built from the stored members has distinct keys, each holding the last role listed for that user |
| Team.ManagerKey | controllers/projectController.js:501-511 | the key found for a role is a member with that role, and there is none exactly when no member has it |
| Team.ApplyRequest | controllers/projectController.js:518-540 | after the request, a user the request gives a valid-id role has that role and every other user keeps theirs; keys stay distinct |
| Team.NewManager | controllers/projectController.js:518-529 | the new manager for a role is a requested member with a valid id and that role, and there is none exactly when no such member exists |
| Team.DeleteIf | controllers/projectController.js:543-559 | a guarded delete removes the key exactly when the guard holds and the key is truthy |
| Team.MergeTeamAsWritten | controllers/projectController.js:496-561 | the merged team has distinct keys; a user the request names who is not an old manager gets the requested role; a user the request does not mention who is not an old manager keeps their role |
| Team.AsWrittenRemovesOldManagers | controllers/projectController.js:542-559 | as written, the old primary is removed whenever another primary is named, and the old secondary whenever another or no secondary is named |
| Team.ManagerSwap | controllers/projectController.js:542-559 | swapping the two managers in one request leaves an empty team as written, while the intended merge keeps both in their new roles |
| Team.MergeTeam | controllers/projectController.js:496-561 | the intended merge has distinct keys, gives every requested user the requested role, and leaves unmentioned non-managers alone |
| Team.MergeTeamRemovesOldManagers | controllers/projectController.js:542-559 | in the intended merge an old manager the request does not mention is removed when replaced, and an old secondary also when none is named |
| Team.BuildTeamMap | controllers/projectController.js:497-499 | building the map from the stored members computes `FromMembers` |
| Team.FindManagerKeys | controllers/projectController.js:501-511 | the loop over the map leaves the key of the last entry with each manager role |
| Team.ApplyRequestMembers | controllers/projectController.js:513-540 | the loop over the request computes the merged map, both new managers, and `hasSecondaryPM` exactly when a new secondary was named |
| Team.RemoveOldManagers | controllers/projectController.js:542-559 | the three guarded deletions as written: the old primary when another primary is named, the old secondary when another or no secondary is named, each only for a truthy key |
| Projects.TaskCount | utils/functions.js:104-109 | the task count is zero exactly when no stage has a task |
| Projects.Analyze | utils/functions.js:101-128 | the analysis has an `On-going` flag exactly when some stage has an `On-going` task, a pending flag exactly when some non-Maintenance stage has a `To-do` or `On-going` task, and the total task count |
| Projects.AnalyzeProjectStages | utils/functions.js:101-128 | the loop over the stages computes `Analyze` |
| Projects.DetermineProjectStatus | utils/functions.js:130-146 | no tasks gives `To-start`; with tasks, `Maintenance` exactly when nothing is pending or in progress, `On-going` exactly when a task is in progress; never `Archive` |
| Projects.MaintenanceExactly | utils/functions.js:101-146 | a project is in maintenance exactly when it has tasks, none is `On-going` and none outside the Maintenance stage is `To-do` |
| Projects.SettledProjectIsInMaintenance | utils/functions.js:114-141 | a project whose tasks are all `Delayed`, `To-review` or `Completed` is in maintenance |
| Projects.OnGoingTaskMakesProjectOnGoing | utils/functions.js:111-144 | any `On-going` task makes the project `On-going` |
| Projects.CountCompleted | controllers/projectController.js:410-412 | the completed count is at most the task count, equals it exactly when every task is completed, and is zero exactly when none is |
| Projects.Counted | controllers/projectController.js:408-413 | a counted stage keeps its name and tasks, with `totalTasks` its task count and `0 <= completedTasks <= totalTasks` |
| Projects.CountingKeepsStatus | controllers/projectController.js:408-413 | refreshing the counters does not change the project's status |
| Projects.OwnerIds | controllers/taskController.js:72-81 | the collected ids are distinct and are exactly the users owning some task |
| Projects.NonTechniciansMembers | controllers/taskController.js:88-90 | the first filter keeps exactly the members that are not technicians |
| Projects.SyncedTeamIsConcat | controllers/taskController.js:88-107 | the final de-duplication changes nothing: the team is the non-technicians followed by one technician entry per owner |
| Projects.SyncedTeamShape | controllers/taskController.js:68-111 | after the sync the non-technicians are the old ones in their old order, and the technicians are exactly the tasks' distinct owners, each once |
| Projects.NonTechniciansIdempotent | controllers/taskController.js:88-90 | removing the technicians twice is removing them once |
| Projects.CollectOwnerIds | controllers/taskController.js:72-81 | the first loop gathers `OwnerIds` |
| Projects.AppendTechnicians | controllers/taskController.js:92-97 | the second loop appends one technician entry per id, in order |
| Projects.DropRepeatedTechnicians | controllers/taskController.js:99-107 | the last filter keeps the first entry of each technician user and every other member |
| Projects.Project.constructor | models/projectModel.js:30-35 | a new project is `To-start` with the given stages and team |
| Projects.Project.UpdateStatus | utils/functions.js:70-99 | the stored status becomes the computed one, never `Archive`, even over an archived project; the maintenance notice goes out exactly when the project newly enters maintenance |
| Projects.Project.UpdateTeamMembers | controllers/projectController.js:496-561 | the stored team becomes the merge of the old team and the request as written, old managers removed even when the request gives them the other role; status and stages are unchanged |
| Projects.Project.RefreshStageCounts | controllers/projectController.js:408-413 | every stage gets its counters set from its task list; nothing else changes |
| Projects.Project.SyncTechnicians | controllers/taskController.js:68-111 | the stored team becomes `SyncedTeam` of the old team and the task owners |
| ProjectRules.ProjectDataErrors | controllers/projectController.js:60-86 | each of the three errors is present exactly when its condition holds, in the order checked |
| ProjectRules.ProjectDataErrorsShape | controllers/projectController.js:60-86 | the errors never repeat, there are at most three, and a capacity of 0 is accepted |
| ProjectRules.ValidateProjectData | controllers/projectController.js:60-86 | the checks accumulate `ProjectDataErrors` rather than stopping at the first |
| ProjectRules.FirstUserWithRole | controllers/projectController.js:89-90 | the user found is non-empty and belongs to a member with the role, and there is none when no member has the role |
| ProjectRules.ValidManagerIds | controllers/projectController.js:93-99 | the valid ids are exactly the named managers whose id is well formed and stored |
| ProjectRules.KeepUsers | controllers/projectController.js:113-115 | the filter keeps exactly the members whose user is a valid manager id |
| ProjectRules.KeepUsersCons | controllers/projectController.js:113-115 | the first member is kept exactly when its user is a valid id, ahead of the filtered rest |
| ProjectRules.KeepUsersAppend | controllers/projectController.js:113-115 | the filter keeps order: it distributes over concatenation, and a single member is kept exactly when its user is a valid id |
| ProjectRules.ValidateProjectManagers | controllers/projectController.js:88-116 | it fails exactly on a missing or unknown primary, then on a primary equal to the surviving secondary; otherwise it keeps exactly the members who are a valid manager |
| ProjectRules.InvalidSecondaryIsDropped | controllers/projectController.js:106-115 | an invalid or unknown secondary does not fail the check; only the primary's entries survive |
| ProjectRules.AcceptedTeamKeepsManagers | controllers/projectController.js:101-115 | on success the primary's entry survives, and so does a valid secondary's |
| ProjectRules.ClientsToDelete | controllers/projectController.js:859-864 | the clients deleted are exactly the project's clients that no other project lists |
| ProjectRules.ClientsToDeleteCons | controllers/projectController.js:859-864 | the first client is deleted exactly when no other project lists it, ahead of the filtered rest |
| ProjectRules.ClientsToDeleteAppend | controllers/projectController.js:859-864 | the filter keeps order: it distributes over concatenation, and a single client is kept exactly when no other project lists it |
| ProjectRules.OtherProjectsKeepClients | controllers/projectController.js:853-868 | deleting a project never deletes a client another project lists |
| TextUtils.IndexOf | utils/functions.js:33 | the first position holding the character |
| TextUtils.EmailShapeMatches | utils/functions.js:33 | the one-pass scan accepts exactly the texts the address pattern matches |
| TextUtils.LowerCaseKeepsPattern | utils/functions.js:34 | lower-casing never changes whether the pattern matches |
| TextUtils.ValidateEmail | utils/functions.js:31-35 | an address is valid exactly when it is non-empty and matches `part@part.part`, with no white space or `@` in a part |
| TextUtils.RealMod | utils/functions.js:41-42 | JavaScript's `%` on a non-negative duration lies in `[0, m)` |
| TextUtils.SecondsFieldReachesSixty | utils/functions.js:42 | 59.5 and 3599.5 seconds get a seconds field of 60 |
| TextUtils.SecondsToTimeShowsSixty | utils/functions.js:37-46 | 59.5 seconds is shown as `00:00:60` |
| TextUtils.Fields | utils/functions.js:40-42 | the fields of a whole number of seconds have minutes and seconds below 60 and add back up to the total |
| TextUtils.SecondsToTime | utils/functions.js:37-46 | corrected: non-positive durations give `00:00:00`; otherwise the clock of fields with minutes and seconds below 60 that add up to the duration rounded up |
| TextUtils.ClockReadsBack | utils/functions.js:44-45 | the clock text splits at its last two colons into digit fields whose values are the hours, minutes and seconds |
| TextUtils.WholeSecondsAgree | utils/functions.js:40-42 | on whole seconds the written fields and the corrected ones agree |
| TextUtils.GetDomainName | utils/functions.js:48-59 | nothing for an empty name, a one-label name unchanged, otherwise the last two labels, or three when the name contains `.co.uk` and has more than two labels |
| TextUtils.DomainIsSuffix | utils/functions.js:48-59 | the domain is the host name itself or a label-aligned suffix of it |
| TextUtils.SplitJoin | utils/functions.js:51-56 | splitting labels joined with a separator they do not contain gives them back |
| TextUtils.DomainLabelCount | utils/functions.js:51-57 | the domain has two labels, or three for a `.co.uk` name |
| MetaWhatsapp.DigitsOnly | utils/metaWhatsappService.js:20 | removing the non-digits leaves only digits, and a string of digits unchanged |
| MetaWhatsapp.StripLeadingZeros | utils/metaWhatsappService.js:23 | what remains is a suffix that does not start with `0`, and everything removed was `0` |
| MetaWhatsapp.NormalizeAsWritten | utils/metaWhatsappService.js:14-54 | as written: an absent or empty number is required; an accepted number is `91` followed by the last ten of its cleaned digits, which start with 6-9 |
| MetaWhatsapp.AsWrittenAccepts | utils/metaWhatsappService.js:26-53 | as written, a number is accepted exactly when its cleaned digits are `91` and a mobile number, or a mobile number not starting with `91` |
| MetaWhatsapp.AsWrittenRejectsNineOne | utils/metaWhatsappService.js:26-40 | every ten-digit mobile number starting with `91` is rejected as too short after the country code |
| MetaWhatsapp.NineOneExample | utils/metaWhatsappService.js:26-46 | `9123456789` is rejected as written and becomes `919123456789` once corrected |
| MetaWhatsapp.Normalize | utils/metaWhatsappService.js:14-54 | corrected: ten cleaned digits are judged as a mobile number first; an accepted number is `91` and the last ten cleaned digits |
| MetaWhatsapp.NormalizeAccepts | utils/metaWhatsappService.js:14-54 | the corrected check accepts exactly a mobile number, with or without `91`, once non-digits and leading zeros are removed |
| MetaWhatsapp.TenDigitMobileAccepted | utils/metaWhatsappService.js:43-46 | every ten-digit mobile number gains the country code |
| MetaWhatsapp.NormalizeIdempotent | utils/metaWhatsappService.js:14-54 | a normalised number normalises to itself |
| MetaWhatsapp.AsWrittenIdempotent | utils/metaWhatsappService.js:14-54 | as written, too, a normalised number normalises to itself |
| MetaWhatsapp.FormattingIgnored | utils/metaWhatsappService.js:20-23 | two inputs with the same digits after leading zeros normalise alike |
| MetaWhatsapp.Placeholder | utils/metaWhatsappService.js:106 | a placeholder is at least five characters and starts with `{{` |
| MetaWhatsapp.ReplacePlaceholders | utils/metaWhatsappService.js:103-112 | the loop replaces every `{{k}}` by the `k`-th parameter's text, for `k` from 1 to the number of parameters |
| MetaWhatsapp.PlaceholderPrefix | utils/metaWhatsappService.js:106-109 | no placeholder starts with a differently numbered placeholder |
| MetaWhatsapp.PassFillsSlot | utils/metaWhatsappService.js:105-110 | pass `n` fills slot `n` and leaves every other slot and all literal text alone |
| MetaWhatsapp.SubstitutionFills | utils/metaWhatsappService.js:103-112 | on a body whose text and parameters contain no `{`, substitution fills exactly the slots numbered 1 to the number of parameters and leaves the others |
| MetaWhatsapp.BuildInteractivePayload | utils/metaWhatsappService.js:117-168 | an unknown template fails; otherwise the configured header and footer, the substituted body, and a button exactly when the template has one and the call-to-action is truthy, its URL the pattern with `{{1}}` replaced |
| MetaWhatsapp.ButtonUrl | utils/metaWhatsappService.js:57-98 | every configured button links to the task or project detail page followed by the id |
| MetaWhatsapp.SendWhatsAppTemplate | utils/metaWhatsappService.js:170-196 | an invalid phone fails before the template is looked up; success exactly when both pass, with the payload addressed to the number as normalised as written, so a ten-digit number starting with `91` fails |
| Whatsapp.ValidPhoneNormalizes | utils/whatsappService.js:23 | a number this sender accepts is one the corrected Meta normalisation accepts, gaining the `91` code |
| Whatsapp.ValidPhoneRejectedAsWritten | utils/whatsappService.js:23 | a valid number starting with `91` is refused by the Meta normalisation as written |
| Whatsapp.CollapsedKept | utils/whatsappService.js:37 | collapsing white-space runs of kept characters leaves kept characters, single-spaced |
| Whatsapp.TrimGivesClean | utils/whatsappService.js:37 | trimming single-spaced kept text leaves clean text |
| Whatsapp.SanitizeIsClean | utils/whatsappService.js:37 | a sanitised variable has no white space at its ends, only word characters, `.` and single spaces |
| Whatsapp.CleanIsFixed | utils/whatsappService.js:37 | sanitising clean text changes nothing |
| Whatsapp.SanitizeIdempotent | utils/whatsappService.js:37 | sanitising twice is sanitising once |
| Whatsapp.FilterDropsHead | utils/whatsappService.js:37 | removing the characters that are not kept drops a leading punctuation mark and keeps the space after it |
| Whatsapp.LeadingSpace | utils/whatsappService.js:37 | a leading single space survives the collapse and is removed by a trim |
| Whatsapp.AsWrittenLeadingSpace | utils/whatsappService.js:37 | a punctuation mark and a space before a word leave a leading space as written, which is not clean; the corrected order gives the word |
| Whatsapp.HexDigit | utils/whatsappService.js:50 | the hexadecimal digit of a value below 16 reads back as that value |
| Whatsapp.Utf8 | utils/whatsappService.js:50 | a character takes one to four bytes, one exactly when it is ASCII, and then the byte is the character |
| Whatsapp.PercentByte | utils/whatsappService.js:50 | a byte is escaped as `%` and two hexadecimal digits that read back as the byte |
| Whatsapp.EncodedIsUriSafe | utils/whatsappService.js:50 | encoded text holds only unreserved characters, `%` and hexadecimal digits |
| Whatsapp.DecodeEncode | utils/whatsappService.js:50 | decoding undoes the encoding of ASCII text |
| Whatsapp.CleanIsAscii | utils/whatsappService.js:37 | single-spaced text of kept characters, such as a sanitised value, is ASCII |
| Whatsapp.EncodeAll | utils/whatsappService.js:50 | each value is encoded, in order |
| Whatsapp.SanitizeAll | utils/whatsappService.js:36-38 | each value is sanitised as written, trim first, in order |
| Whatsapp.AsWrittenKept | utils/whatsappService.js:37 | a value sanitised as written is single-spaced and holds only word characters, `.` and spaces |
| Whatsapp.SendWhatsAppMessage | utils/whatsappService.js:25-66 | it sends exactly when there is a token, the phone is valid and there are variables, failing on these in that order; the query carries the variables sanitised as written and encoded, and the encoded call-to-action values |
| Whatsapp.JoinUriSafe | utils/whatsappService.js:50 | joining URL-safe values with the `%2C%20` separator stays URL-safe |
| Whatsapp.VariablesUriSafe | utils/whatsappService.js:50-58 | the `variables` value cannot add query parameters, whatever the variables are |
| Whatsapp.VariableReadsBack | utils/whatsappService.js:37-50 | each variable in the query decodes back to its text as sanitised as written |
| Whatsapp.NoCtaNoCtaPart | utils/whatsappService.js:53-58 | without call-to-action values the query ends with the variables |
| Whatsapp.SuffixIsOrdinal | utils/whatsappService.js:189-197 | the suffix is the English ordinal suffix for every day up to 110 (every day of a month), and is wrong at 111 |
| Whatsapp.FormatDateFields | utils/whatsappService.js:179-200 | a formatted date is three space-separated fields: the day with its suffix, the month name and the year |
| AwsBucket.ValidateFile | utils/awsbucket.js:51-63 | a file passes exactly when it is at most 50 MiB and of an allowed type; the size is checked first, then the type |
| AwsBucket.FileFilter | utils/awsbucket.js:92-104 | the upload filter accepts exactly the allowed types and otherwise reports an invalid type |
| AwsBucket.FilterAgreesWithValidate | utils/awsbucket.js:51-104 | within the size limit the filter and the validation agree, and a file the filter refuses fails validation for its type |
| AwsBucket.GetFileFolder | utils/awsbucket.js:65-69 | `images` exactly for a type containing `image`, `videos` exactly for one containing `video` but not `image`, otherwise `docs` |
| AwsBucket.ImageTypesToImages | utils/awsbucket.js:15-20 | the allowed image types go to `images` |
| AwsBucket.VideoTypesToVideos | utils/awsbucket.js:32-37 | the allowed video types go to `videos` |
| AwsBucket.DocTypesToDocs | utils/awsbucket.js:22-30 | every allowed document type goes to `docs` |
| AwsBucket.FolderMatchesList | utils/awsbucket.js:14-69 | for an allowed type the folder is exactly the one of the list the type is in |
| AwsBucket.CleanName | utils/awsbucket.js:72 | the name part of a generated file name has no white space, and no `/` when the original name has none |
| AwsBucket.FileNameParts | utils/awsbucket.js:71-72 | a generated name splits at `/` into the folder and the timestamp, `_` and the name with its white space runs made `_`, for a name without `/` |
| AwsBucket.TimestampReadsBack | utils/awsbucket.js:71-72 | the timestamp reads back from a generated name as the digits before the first `_` |
| AwsBucket.LastTwo | utils/awsbucket.js:111 | `slice(-2)` keeps the last two elements, or all when there are fewer |
| AwsBucket.DeleteFileFromS3 | utils/awsbucket.js:107-122 | a falsy URL deletes nothing; otherwise the key is the last two `/`-separated segments joined by `/` |
| AwsBucket.DeleteKeyIsSuffix | utils/awsbucket.js:111 | the derived key is a suffix of the URL |
| AwsBucket.DeleteFindsUploadedKey | utils/awsbucket.js:79-111 | deleting by the URL of an upload deletes the key the upload generated, under any bucket base URL, for a name without `/` |
| Cors.CheckOrigin | middleware.js:16-27 | the callback allows an origin exactly when it is absent or empty, one of the two frontends, or `http://localhost` with an optional numeric port; otherwise it reports `Not allowed by CORS` |
| Cors.LocalhostAnyPort | middleware.js:20 | every numeric port on plain-HTTP localhost is allowed |
| Cors.AllowedOtherOriginIsLocalhost | middleware.js:17-22 | an allowed non-empty origin that is not a frontend starts with `http://localhost` and ends there or continues `:` and ends in a digit |
| Cors.RejectedOrigins | middleware.js:17-26 | HTTPS localhost and a frontend with a trailing `/` are refused |
| Cors.RejectedLocalhostLookalikes | middleware.js:20-26 | `http://localhost` followed by an empty port, a named port or a look-alike host name is refused |
| Cors.AllowedOriginsPass | middleware.js:10-22 | no origin, the empty origin and the two frontends are allowed |
| Auth.ValidateAction | middlewares/authMiddleware.js:46-51 | an action name is accepted exactly when some role lists it; otherwise the error names the action |
| Auth.RestrictTo | middlewares/authMiddleware.js:53-65 | building the guard fails exactly for an unknown action; the guard passes a role exactly when the table lists the action for it and otherwise answers 403 with the access-denied message |
| Auth.PermissionsNest | config/permissions.js:2-4 | every Technician action is a ProjectManager action and every ProjectManager action an Admin action |
| Auth.KnownActionsAreAdmin | config/permissions.js:1-5 | a name is a known action exactly when Admin's list holds it |
| Auth.PermitsByName | config/permissions.js:1-5 | a role permits an action's name exactly when its list holds that action: no two actions share a name |
| Auth.NamesDistinct | config/permissions.js:2 | distinct actions have distinct names |
| Auth.TableRoles | config/permissions.js:1-5 | the table has entries for Admin, ProjectManager and Technician only; User and Operations Manager are permitted nothing |
| Auth.AdminOnlyActions | config/permissions.js:2-4 | deleting a project and adding a product or a form are granted to Admin alone |
| Auth.TechnicianLimits | config/permissions.js:4 | a Technician may submit for review but not mark done, assign, create or delete tasks |
| Auth.BearerToken | middlewares/authMiddleware.js:7-13 | a token is found only in a header starting with `Bearer`, and is a non-empty word without spaces |
| Auth.BearerTokenOf | middlewares/authMiddleware.js:8-13 | the token is the word after the first space, whatever follows it |
| Auth.NoBearerToken | middlewares/authMiddleware.js:8-19 | a header with one word, or with two spaces after the scheme, has no token |
| Auth.Protect | middlewares/authMiddleware.js:6-44 | no token is 401 before verification, and a token that fails verification is 401 too; a verified id of an unknown or soft-deleted user is 404; the request passes exactly when the token verifies to the id of a user that is not soft-deleted, and the passing user is that stored record |
| Auth.ProtectNeverReportsDeactivated | middlewares/authMiddleware.js:24-34 | the deactivated-account 403 is never answered, since the lookup already leaves out deleted users |

## Left out

- Persistence: the Mongoose queries, saves, `populate` calls, sessions and transactions are not modelled. Stores are sequences, maps and sets passed in; writes are the new state or an output.
- Concurrency: the `Promise.all` fan-outs are not modelled. Each unit is modelled as if run one after another.
- Outbound network: the axios posts of both WhatsApp senders, the MessageCentral `generateToken` request, e-mail and the admin/manager lookup behind the maintenance notice are foreign calls. The token is a parameter, and the notice is the `notify` result of `Projects.Project.UpdateStatus`.
- Crypto: `jwt.verify` is the parameter `verify` of `Auth.Protect`, and bcrypt is not modelled.
- S3 and multer: the S3 client, the multer storage wiring and its `limits.fileSize` are library configuration. Only the decisions they delegate to are modelled.
- Time zones: India Standard Time, daylight saving, and the mixing of local-time constructors with `setUTCHours` in `calculateTaskDates` are not modelled. `firstDay` and `lastDay` are modelled by their calendar intent: the first day of the next month and the last day of the current month.
- DailyUpdates.Ledger.ResetTimeline: a record keeps only the day of its generated date, not the start's time of day that the source stores. The missing-field, invalid-date and task-not-found answers come before the ledger is reached and are not modelled.
- DailyUpdates.Ledger.UpdateDistance: the distance is taken as an exact real number. A body value that is not a number, an absent value, `NaN` and the infinities are not modelled.
- DailyUpdates.Ledger.UpdateManHours: the product `totalHours` is exact here, where JavaScript rounds it to a double. Values that are not numbers are not modelled.
- Recurrence.CalculateTaskDates: the formatting of the result dates and the validity of a raw date string are modelled on days; an unparsable start or end date is `None`.
- Scheduling.CreateScheduledTasks: the update of the stage's task list and `totalTasks`, and the final re-fetch, are not modelled. `generateDates` is modelled by the same day range as `getDatesInRange`, because its start is never after its end there.
- Tasks.Refresh: a date stored as `null` becomes `new Date(null)`, 1 January 1970, in the source. The model has only present and absent dates, and an absent date is the invalid `Date` of an `undefined` field.
- Scheduling.ListTasksForMonth: times of day of stored instants are milliseconds within the day; `AsWrittenTaskDaysSound` and the lemmas above it assume such instants.
- Recurrence.CalculateTaskDates: `Calendar.JsDate` does not read a year 0-99 as 1900-1999, as the `new Date(year, month, day)` calls of the monthly branch do (utils/functions.js:277-318). Those years come from earlier dates, so this differs from the source only for dates before the year 100.
- User and project identifiers are strings checked by `IsObjectId`. Mongoose's other id forms are not modelled.
- Strings: `toLowerCase` is modelled for ASCII letters only. `$` patterns in the replacement text of `String.prototype.replace` are not modelled. `String()` is not modelled for values that are not strings.
- MetaWhatsapp.ReplacePlaceholders: the slot-by-slot meaning is proved only for texts and parameters without `{`. A parameter containing `{{k}}` could be filled by a later pass; this is not modelled. The configured template bodies contain no `{`, but no lemma states this.
- MetaWhatsapp.BuildInteractivePayload: templates are looked up in a Dafny map. Prototype keys of a JavaScript object, such as `toString`, cannot be looked up.
- Whatsapp.DecodeEncode: the read-back is proved for ASCII text, which is what the sanitiser leaves. A full UTF-8 decoder is not modelled. Dafny characters are Unicode scalar values, so the lone surrogates that make `encodeURIComponent` throw cannot arise.
- Whatsapp.FormatDateFields: date parsing and the locale's month names are not modelled. The input is the parsed local day, and the month names are fixed English.
- Whatsapp.SendWhatsAppMessage: CTA variables are joined as given, without sanitising, as in the source. The HTTP response handling is not modelled.
- The response wrapper (`res.handler`, `STATUS_CODES`) is modelled only as a status number and message.
- Not modelled as outside the core: `getCityAndStateFromPinCode`, `updateAllProjectsStatus`, `getProjectHistory`, the `listTasks` sort, the cron jobs, `randomString`, and the CRUD controllers and routes.

## Findings

The members that model a handler follow the code as written. Each corrected member is a separate definition, and the intended property is proved about it.

| source | as written | input that shows it | evidently intended | confidence | as-written member | corrected member |
|---|---|---|---|---|---|---|
| utils/functions.js:319-328 | when the month starts on the target weekday and the occurrence is past the first, the `nthDay` offset gains 7 days on top of the `(n-1)*7`, so the day lands one week late | June 1970, second Monday: 1 June 1970 is a Monday, and the as-written day is the 15th | the n-th such weekday of the month (the 8th) | not executed | Recurrence.NthWeekdayAsWrittenOvershoots | Recurrence.CorrectedPickIsNth |
| utils/metaWhatsappService.js:26-40 | a cleaned number starting with `91` is judged only on what follows `91` | `9123456789`, a valid 10-digit mobile, is rejected | a 10-digit mobile starting 6-9 is accepted whatever its first two digits | not executed | MetaWhatsapp.AsWrittenRejectsNineOne | MetaWhatsapp.TenDigitMobileAccepted |
| utils/functions.js:42 | the seconds field is the remainder rounded up on its own | 59.5 seconds gives `00:00:60` | rounding applied to the whole duration, so every field stays below 60 | not executed | TextUtils.SecondsToTimeShowsSixty | TextUtils.SecondsToTime |
| controllers/projectController.js:542-559 | an old manager's entry is deleted whenever the request names a different manager for that role, even when the same request gives that user the other manager role | existing primary `a` and secondary `b`; the request makes `b` primary and `a` secondary | both managers stay, with their swapped roles | not executed | Team.ManagerSwap | Team.MergeTeam |
| controllers/taskController.js:855-895 | the month ends at midnight of its last day, so a task starting later that day is not found, and the clipped range can lose its last day | a task from 10:00 on 30 June 1970 to 2 July 1970 is missing from June 1970 | every day of the month that a task spans lists its status | not executed | Scheduling.LastDayOfMonthDropped | Scheduling.MonthViewMeaning |
| utils/whatsappService.js:37 | the value is trimmed before characters are removed, so a removed character can leave a space at either end | `- Pump` becomes ` Pump` | removal and collapsing first, then trimming, giving `Pump` | not executed | Whatsapp.AsWrittenLeadingSpace | Whatsapp.SanitizeIsClean |
