# Claudex backend core in Dafny

A Dafny model of the server-side core of the Claudex chat backend:

- **The per-chat message queue.** A bounded FIFO Redis list per chat that holds the messages a user sends while the agent is busy (`QueueService`). The record schema it returns goes with it.
- **The queue injector's pure parts.** The injector pops the head of the queue and feeds it to the running agent as a new user turn. The model covers the prompt text it builds, the message wrapping that prompt, and the event test that decides when to try.
- **The task scheduler.**
  - The recurrence calculator (ONCE / DAILY / WEEKLY / MONTHLY on the proleptic Gregorian calendar, Monday = 0).
  - Bookkeeping after a run, and due-task selection and advancement.
  - The service operations: the limit of 10 active tasks per user, create, update, toggle, delete, and paginated execution history.
  - The human-readable schedule description.
- **Two small utilities.** The provider/API-key validator and the opaque pagination cursor (base64url of `"<isoformat>|<uuid>"`).

Module layout, one module per source file plus shared pieces:

| file | module | models |
|---|---|---|
| common.dfy | `Common` | `Option`, `Result` (an `Err` is a raised exception), JSON values with Python truthiness, `str(n)`, `int(s)`, `str.split`/`str.join` |
| calendar.dfy | `Calendar` | civil dates from 0001-01-01 to 9999-12-31 (`date.min`..`date.max`), `calendar.monthrange`, `date.weekday()`, `timedelta(days=k)`, aware UTC datetimes on one microsecond line |
| text_formats.dfy | `TextFormats` | `datetime.isoformat()` / `fromisoformat`, `str(UUID)` / `UUID(s)` |
| base64url.dfy | `Base64Url` | `base64.urlsafe_b64encode` / `urlsafe_b64decode` (section 5 of RFC 4648, padded) |
| cursor.dfy | `Cursor` | `backend/app/utils/cursor.py` |
| sorting.dfy | `Sorting` | `ORDER BY`: a stable insertion sort by an integer key |
| tasks.dfy | `Tasks` | the `ScheduledTask` / `TaskExecution` rows and the database session as a class `TaskStore` |
| recurrence.dfy | `Recurrence` | `backend/app/services/scheduler/recurrence.py` |
| execution.dfy | `Execution` | `backend/app/services/scheduler/execution.py` |
| service.dfy | `Scheduler` | `backend/app/services/scheduler/service.py` |
| formatting.dfy | `Formatting` | `backend/app/services/scheduler/formatting.py` |
| validators.dfy | `Validators` | `backend/app/utils/validators.py` |
| queue_schema.dfy | `QueueSchema` | `backend/app/models/schemas/queue.py` |
| queue_service.dfy | `MessageQueue` | `backend/app/services/queue.py` |
| queue_injector.dfy | `QueueInjection` | `backend/app/services/streaming/queue_injector.py` |

Stateful code keeps its form.

- `QueueService` is a class whose `queues` field (chat id → list of entries) its methods reassign.
- The scheduler's database session is a class `TaskStore` with a `tasks` and an `executions` table.
- The `enumerate` loops of the queue and the `setattr` loop of `update_task` are `while` loops with invariants.
- The loops of `check_due_tasks` are `while` loops too. Each method is proved against a specification function.
- An exception raised before `commit()` leaves the store as it was.
- The wall clock (`datetime.now`), `uuid4()` and the value of `MAX_QUEUE_SIZE` are parameters.

## Model

| member | source | states |
|---|---|---|
| Recurrence.ParseScheduledTime | backend/app/services/scheduler/recurrence.py:49-52 | errors are only ValueError (bad number) or IndexError (fewer than two parts); success needs at least two parts; seconds are 0 unless there are exactly three parts |
| Recurrence.ParseHourMinute | backend/app/services/scheduler/recurrence.py:49-52 | `"H:M"` written in decimal parses back to (H, M, 0) |
| Recurrence.ParseHourMinuteSecond | backend/app/services/scheduler/recurrence.py:49-52 | `"H:M:S"` written in decimal parses back to (H, M, S) |
| Recurrence.ParseNeedsColon | backend/app/services/scheduler/recurrence.py:49-51 | a time string without `:` is always rejected |
| Recurrence.DailyExecution | backend/app/services/scheduler/recurrence.py:10-34 | OverflowError exactly when today's candidate is not after `from` and today is 9999-12-31; otherwise the result is at the given clock time and strictly after `from`, at most one day after it; it is today exactly when today's candidate is after `from`, otherwise tomorrow |
| Recurrence.DaysAhead | backend/app/services/scheduler/recurrence.py:70-83 | days ahead are in 0..7 and land on the target weekday mod 7; 0 exactly when today is the day and the time has not passed, 7 exactly when today is the day and it has |
| Recurrence.WeeklyExecution | backend/app/services/scheduler/recurrence.py:62-96 | OverflowError exactly when the target date would lie past 9999-12-31, which happens only in year 9999; otherwise the result falls on the target weekday (Monday = 0) at the clock time, strictly after `from` and at most 7 days ahead; 7 days only when today is the day and today's time has passed |
| Recurrence.MonthlyExecution | backend/app/services/scheduler/recurrence.py:98-124 | ValueError exactly when the month must roll over from December 9999 (`datetime(10000, …)`); otherwise the result's day is min(day, days in its month) at the clock time, strictly after `from`; same month exactly when this month's candidate is after `from`, otherwise the next month, with December rolling over to January of the next year |
| Recurrence.NextFromClock | backend/app/services/scheduler/recurrence.py:54-124 | ONCE without `allow_once` gives None and nothing else does; every datetime returned is after `from` at the clock time; WEEKLY/MONTHLY raise SchedulerException exactly when the day is missing or out of range |
| Recurrence.NextFromClockErrors | backend/app/services/scheduler/recurrence.py:54-124 | any error other than SchedulerException is either the ValueError of a bad clock time, or, in year 9999 only, the overflow at the end of the calendar (ValueError for MONTHLY, OverflowError otherwise); a WEEKLY task off its weekday can overflow even with a bad clock time, since the date step at line 85 comes before any datetime is built |
| Recurrence.WeeklyOverflowBeforeClock | backend/app/services/scheduler/recurrence.py:70-86 | a weekly task for Saturday read from Friday 9999-12-31 raises OverflowError even though its hour is 25 |
| Recurrence.CalculateNextDatetime | backend/app/services/scheduler/recurrence.py:37-124 | parse errors propagate; None exactly for ONCE without `allow_once`; results are after `from` at the parsed time; the day-range exception exactly when the day is not allowed |
| Recurrence.NextDaily | backend/app/services/scheduler/recurrence.py:54-60 | DAILY (and ONCE with `allow_once`) is the daily computation, its error included |
| Recurrence.NextWeekly | backend/app/services/scheduler/recurrence.py:62-96 | a weekly task with a valid day is the weekly computation, its error included |
| Recurrence.NextMonthly | backend/app/services/scheduler/recurrence.py:98-124 | a monthly task with a valid day is the monthly computation, its error included |
| Recurrence.CalculateNextExecution | backend/app/services/scheduler/recurrence.py:129-141 | a ONCE task never gets a next run; other types never give None; any next run is after `from` |
| Recurrence.CalculateInitialNextExecution | backend/app/services/scheduler/recurrence.py:144-160 | fails exactly when the calculation with `allow_once` fails, with the same error (the None branch is dead for all four types); the result is after `now` |
| Recurrence.ValidateRecurrenceConstraints | backend/app/services/scheduler/recurrence.py:163-175 | only SchedulerException is raised |
| Recurrence.ValidationAgreesWithCalculation | backend/app/services/scheduler/recurrence.py:163-175 | validation passes exactly when the day is allowed (0..6 weekly, 1..31 monthly, anything otherwise), which is exactly when the calculation with `allow_once` does not raise SchedulerException; before year 9999, exactly when that calculation succeeds |
| Execution.RecordOutcome | backend/app/services/scheduler/execution.py:91-97 | success: execution count +1, last execution = start, error cleared, failures unchanged; failure: failure count +1, error recorded, execution count and last execution unchanged; nothing else changes |
| Execution.AfterExecution | backend/app/services/scheduler/execution.py:91-106 | fails exactly when the next-run calculation fails; ONCE ends disabled, COMPLETED, with no next run; other types keep enabled and status and get exactly `calculate_next_execution(task, start)` as their next run, which is after the start |
| Execution.UpdateTaskAfterExecution | backend/app/services/scheduler/execution.py:77-108 | a missing id changes nothing; an exception changes nothing; otherwise only that row is replaced by the updated task |
| Execution.SelectDue | backend/app/services/scheduler/execution.py:119-129 | at most 100 rows are selected (`.limit(100)`); the lemmas below give which |
| Execution.DueIndices | backend/app/services/scheduler/execution.py:119-126 | exactly the enabled ACTIVE rows with a next run at or before `now`, in increasing row order |
| Execution.SelectDueAreDue | backend/app/services/scheduler/execution.py:119-129 | every selected row is due |
| Execution.SelectDueOnce | backend/app/services/scheduler/execution.py:119-132 | no row is selected twice |
| Execution.SelectDueOrdered | backend/app/services/scheduler/execution.py:127-128 | min(100, number due) rows are selected, in ascending next-run order |
| Execution.SelectDueEarliest | backend/app/services/scheduler/execution.py:127-128 | a due row left out runs no earlier than any selected row |
| Execution.Advance | backend/app/services/scheduler/execution.py:135-141 | ONCE: next run cleared and status PENDING; otherwise only the next run changes, to exactly `calculate_next_execution(task, now)`, which is after `now` |
| Execution.AdvancedNotDue | backend/app/services/scheduler/execution.py:134-143 | an advanced task is no longer due at `now` |
| Execution.AdvancedRows | backend/app/services/scheduler/execution.py:134-143 | after a successful check each selected row is that row advanced and every other row is unchanged |
| Execution.PatchIsApplied | backend/app/services/scheduler/execution.py:134-143 | replacing the selected rows one at a time, as the loop does, gives the same rows as replacing them all at once |
| Execution.AdvanceSelected | backend/app/services/scheduler/execution.py:134-143 | succeeds exactly when every selected task advances, and then yields the advanced table |
| Execution.TriggerSelected | backend/app/services/scheduler/execution.py:147-148 | one trigger per selected task, in selection order, with the task's id text, up to the call that raises; it raises exactly when a raising call is among the selected |
| Execution.CheckDueTasks | backend/app/services/scheduler/execution.py:111-154 | an exception while advancing: nothing committed, nothing triggered; otherwise the selected rows are committed advanced and the others unchanged, then ids are triggered in selection order; success with the count selected exactly when no trigger raises, and a raising trigger leaves the commit and the triggers before it |
| Execution.CountRecentRuns | backend/app/services/scheduler/execution.py:27-35 | zero exactly when no execution of the task is RUNNING or SUCCESS at or after start − 2 minutes |
| Execution.CheckDuplicateAsWritten | backend/app/services/scheduler/execution.py:24-36 | as written: raises MultipleResultsFound when two or more executions match, otherwise reports whether one matches |
| Execution.IsDuplicate | backend/app/services/scheduler/execution.py:24-36 | a duplicate is reported exactly when a RUNNING or SUCCESS execution of the task exists at or after start − 2 minutes |
| Execution.DuplicateAgreesOnOneMatch | backend/app/services/scheduler/execution.py:24-36 | with at most one match, the as-written check and the corrected predicate agree |
| Execution.DuplicateRaisesOnTwoMatches | backend/app/services/scheduler/execution.py:36 | a RUNNING and a SUCCESS execution inside the window make the as-written check raise |
| Tasks.FindTask | backend/app/services/scheduler/execution.py:84-89 | the first row with the id, or none exactly when no row has it |
| Tasks.FindUserTask | backend/app/services/scheduler/service.py:57-65 | the first row matching both task id and user id (no earlier row matches both), or none exactly when no row matches both |
| Scheduler.ActiveTaskCount | backend/app/services/scheduler/service.py:37-55 | zero exactly when none of the user's tasks (minus the excluded id) is enabled and ACTIVE or PENDING |
| Scheduler.WithinTaskLimit | backend/app/services/scheduler/service.py:37-55 | leaving a task out of the count never turns a pass into a failure; a table of fewer than 10 rows always passes |
| Scheduler.GetTask | backend/app/services/scheduler/service.py:156-162 | "Scheduled task not found" exactly when no row matches id and user |
| Scheduler.EnableTask | backend/app/services/scheduler/service.py:67-103 | without skip, a validation error propagates and reaching the limit (excluding the task itself) fails with its message; past those checks it succeeds exactly when no next run is needed or `calculate_initial_next_execution` succeeds; on success the task is enabled, ACTIVE, error cleared, nothing else changed, and the next run is that calculation's value exactly when it was missing or the recurrence, time or day changed |
| Scheduler.NewTask | backend/app/services/scheduler/service.py:105-144 | fails at the limit with its message, then with the validation error; succeeds exactly when the limit, the validation and `calculate_initial_next_execution` all pass; a new task is enabled, ACTIVE, mode "auto", thinking "ultra", counters 0, copies the draft, and its next run is the calculated one |
| Scheduler.CreateTask | backend/app/services/scheduler/service.py:105-144 | on success the new task is appended; on failure the table is unchanged |
| Scheduler.ApplyAllKeeps | backend/app/services/scheduler/service.py:184-192 | the `setattr` loop changes only updatable fields, and none that the update does not name |
| Scheduler.ApplyAllSets | backend/app/services/scheduler/service.py:184-192 | every named field ends with its given value |
| Scheduler.AfterFields | backend/app/services/scheduler/service.py:194-200 | without a schedule change the task is returned as it is; with one, it succeeds exactly when validation and `calculate_initial_next_execution` pass, a validation error propagates, and only the next run changes, to the calculated value |
| Scheduler.ApplyEnabled | backend/app/services/scheduler/service.py:202-218 | absent: no change; a non-boolean: "enabled must be a boolean value"; False: disabled and PAUSED; True: enable, skipping validation exactly when already enabled |
| Scheduler.UpdatedTask | backend/app/services/scheduler/service.py:164-218 | an update naming no schedule field and no `enabled` is exactly the `setattr` loop |
| Scheduler.UpdateKeepsIdentity | backend/app/services/scheduler/service.py:164-218 | an update never changes the id, the owner, the modes, the counters or the last run |
| Scheduler.UpdateWithoutEnabled | backend/app/services/scheduler/service.py:164-200 | without `enabled`, the named fields are set, the rest kept, and the next run is `calculate_initial_next_execution`'s value exactly when the schedule changed, otherwise kept |
| Scheduler.UpdateEnabled | backend/app/services/scheduler/service.py:202-218 | the three outcomes of an `enabled` entry, including the limit check when enabling a disabled task |
| Scheduler.UpdateTask | backend/app/services/scheduler/service.py:164-224 | not found: unchanged; error: unchanged; success: only the found row is replaced by the updated task |
| Scheduler.ToggledTask | backend/app/services/scheduler/service.py:234-264 | flips `enabled`; disabling gives PAUSED; enabling succeeds exactly when validation, the limit and `calculate_initial_next_execution` pass, with each failure's error, and gives the task enabled, ACTIVE, error cleared and the calculated next run, nothing else changed |
| Scheduler.ToggleTask | backend/app/services/scheduler/service.py:234-264 | the response carries the id, the new flag and "Task enabled/disabled successfully"; only that row changes |
| Scheduler.DeleteTask | backend/app/services/scheduler/service.py:226-232 | not found: unchanged; otherwise exactly that row is removed, order kept |
| Scheduler.PageCount | backend/app/services/scheduler/service.py:300 | 0 for no rows, otherwise the integer ceiling: (pages−1)·per_page < total ≤ pages·per_page |
| Scheduler.NewestFirstOrdered | backend/app/services/scheduler/service.py:285-291 | the task's executions, newest first |
| Scheduler.ExecutionHistory | backend/app/services/scheduler/service.py:266-301 | "Scheduled task not found" for a miss; otherwise page and per_page as asked, the task's execution count as total, its page count, and exactly min(per_page, total − offset) items (none past the end), so with the next rows the page is pinned |
| Scheduler.PageItemsAt | backend/app/services/scheduler/service.py:283-289 | offset/limit: item j of the list is on any page whose range (page−1)·per_page ≤ j < page·per_page holds it, at offset j − (page−1)·per_page, and that page is within the page count |
| Scheduler.EveryExecutionOnOnePage | backend/app/services/scheduler/service.py:283-300 | the history of such a page contains the execution at position j of the newest-first list at that offset, and the page number is at most `pages` |
| Scheduler.PageOf | backend/app/services/scheduler/service.py:283 | every position j lies in the range of page j // per_page + 1 |
| Scheduler.OnePageOnly | backend/app/services/scheduler/service.py:283 | no position lies in the ranges of two different pages |
| Scheduler.CreateKeepsConsistent | backend/app/services/scheduler/service.py:105-144 | creating keeps ids unique, enabled tasks live, and no user above 10 counted tasks |
| Scheduler.ToggleKeepsConsistent | backend/app/services/scheduler/service.py:234-264 | toggling keeps the same invariant, the cap included |
| Scheduler.UpdateKeepsConsistent | backend/app/services/scheduler/service.py:164-224 | updating keeps the same invariant: an already-enabled task that skips the check already counted |
| Scheduler.DeleteKeepsConsistent | backend/app/services/scheduler/service.py:226-232 | deleting keeps the same invariant |
| Scheduler.AfterExecutionKeepsConsistent | backend/app/services/scheduler/execution.py:77-108 | the update after a run keeps the same invariant: a ONCE task is disabled, others keep their flag and status |
| Scheduler.CheckDueKeepsConsistent | backend/app/services/scheduler/execution.py:133-145 | advancing the due tasks keeps the same invariant: each selected row stays enabled and ACTIVE or PENDING |
| Formatting.DayName | backend/app/services/scheduler/formatting.py:5-19 | "Unknown" exactly when the day is missing or outside 0..6, otherwise one of the seven names |
| Formatting.DayNameInjective | backend/app/services/scheduler/formatting.py:6-16 | different weekday numbers have different names |
| Formatting.Suffix | backend/app/services/scheduler/formatting.py:23-30 | always one of st, nd, rd, th |
| Formatting.SuffixIsEnglish | backend/app/services/scheduler/formatting.py:23-30 | for days 1..31 the suffix is the English ordinal (11th, 12th, 13th included) |
| Formatting.FormatWeekly | backend/app/services/scheduler/formatting.py:5-20 | the day name (or "Unknown") sits between "Weekly on " and " at " and the time |
| Formatting.FormatMonthly | backend/app/services/scheduler/formatting.py:23-31 | a day 1..31 is written with its English ordinal suffix; a missing day reads "Noneth" |
| Formatting.Describe | backend/app/services/scheduler/formatting.py:34-43 | every description starts with the recurrence word and ends with " at " and the scheduled time |
| Formatting.DescribeLead | backend/app/services/scheduler/formatting.py:34-42 | a description's first letter is O, D, W or M according to the recurrence type |
| Formatting.DescribeDeterminesType | backend/app/services/scheduler/formatting.py:34-42 | equal descriptions have the same recurrence type |
| Formatting.WeeklyDescribesDay | backend/app/services/scheduler/formatting.py:5-20 | weekly tasks at one time with different valid days are described differently |
| Formatting.MonthlyDescribesDay | backend/app/services/scheduler/formatting.py:23-31 | monthly tasks at one time with different days are described differently |
| Formatting.WeeklyNamesNextRun | backend/app/services/scheduler/formatting.py:15-20 | the day a weekly description names is the weekday of the next run the calculator gives |
| Formatting.MonthlyNamesNextRun | backend/app/services/scheduler/formatting.py:23-31 | the day a monthly description shows is the next run's day, clamped to the month's length |
| Validators.NormalizeJsonList | backend/app/utils/validators.py:16-21 | null → [], a list unchanged, anything else a ValueError naming its type |
| Validators.NormalizeIdempotent | backend/app/utils/validators.py:16-21 | normalising a normalised list changes nothing |
| Validators.ValidateModelApiKeys | backend/app/utils/validators.py:24-52 | passes exactly when a provider exists, is enabled (default true), and has a truthy base_url when custom (the default type) or a truthy auth_token otherwise; each failure is reported exactly when the checks before it passed |
| Validators.CredentialsIndependent | backend/app/utils/validators.py:42-52 | a custom provider's auth_token and a hosted provider's base_url never affect the outcome |
| Cursor.EncodeCursor | backend/app/utils/cursor.py:10-11 | output length is a multiple of 4 and uses only the base64url alphabet and "=" |
| Cursor.DecodeCursor | backend/app/utils/cursor.py:14-20 | every failure is InvalidCursorError carrying the cursor; success yields a valid datetime and UUID |
| Cursor.CursorRoundTrip | backend/app/utils/cursor.py:10-18 | decoding an encoded cursor gives back the timestamp and the id |
| Cursor.PartsRoundTrip | backend/app/utils/cursor.py:10-20 | for any two `|`-free ASCII parts, decoding the cursor built from them gives what the two parts parse to, and InvalidCursorError when either does not parse |
| Cursor.CursorNeedsOneSeparator | backend/app/utils/cursor.py:17 | text that does not split into exactly two parts is rejected |
| Base64Url.Encode | backend/app/utils/cursor.py:11 | four characters for every started group of three bytes |
| Base64Url.EncodeAlphabet | backend/app/utils/cursor.py:11 | the encoding uses only the URL-safe alphabet and `=` |
| Base64Url.DecodeNeedsPadding | backend/app/utils/cursor.py:16 | only text of a length divisible by 4 decodes (padding required) |
| Base64Url.RoundTrip | backend/app/utils/cursor.py:11-16 | base64url decoding undoes encoding |
| TextFormats.IsoFormat | backend/app/utils/cursor.py:11 | 25 characters, or 32 with microseconds, none of them a vertical bar |
| TextFormats.ParseIso | backend/app/utils/cursor.py:18 | whatever parses is a valid UTC datetime |
| TextFormats.FormatUuid | backend/app/utils/cursor.py:11 | 36 characters, none of them a vertical bar |
| TextFormats.ParseUuid | backend/app/utils/cursor.py:18 | whatever parses is a 32-digit UUID |
| TextFormats.IsoRoundTrip | backend/app/utils/cursor.py:11-18 | `fromisoformat(isoformat(t)) == t` |
| TextFormats.UuidRoundTrip | backend/app/utils/cursor.py:11-18 | `UUID(str(u)) == u` |
| Calendar.DaysInMonth | backend/app/services/scheduler/recurrence.py:107 | 28..31; February has 29 days exactly in leap years; the 30- and 31-day months |
| Calendar.NextDay | backend/app/services/scheduler/recurrence.py:24 | for any date but 9999-12-31, a valid date exactly one day later |
| Calendar.WeekBeforeEnd | backend/app/services/scheduler/recurrence.py:85 | only a date of year 9999 has fewer than 7 days left before 9999-12-31 |
| Calendar.Weekday | backend/app/services/scheduler/recurrence.py:68 | a number in 0..6, 0 for 0001-01-01 (a Monday) |
| Calendar.WeekdayAddDays | backend/app/services/scheduler/recurrence.py:68-85 | adding k days (staying within 9999-12-31) moves the weekday by k mod 7 |
| Sorting.SortBySorted | backend/app/services/scheduler/execution.py:127 | the sort orders by the key |
| Sorting.SortBy | backend/app/services/scheduler/execution.py:127 | the sort is a permutation of its input |
| QueueSchema.ParsePermissionMode | backend/app/models/schemas/queue.py:11 | accepted exactly for "plan", "ask" and "auto" |
| QueueSchema.ModeRoundTrip | backend/app/models/schemas/queue.py:11 | every mode's name parses back to it |
| QueueSchema.MakeQueuedMessage | backend/app/models/schemas/queue.py:8-23 | a listed message builds exactly when the content is 1..100000 characters, the model id 1..100 and the mode a literal; it then carries the given fields |
| QueueSchema.BaseBuilds | backend/app/models/schemas/queue.py:8-23 | a valid `QueuedMessageBase` always builds a `QueuedMessage` |
| MessageQueue.FindMessage | backend/app/services/queue.py:109-111 | the first entry with the id, or none exactly when no entry has it |
| MessageQueue.MatchesIdText | backend/app/services/queue.py:111 | comparing the id texts is comparing the ids |
| MessageQueue.View | backend/app/services/queue.py:88-98 | builds exactly when the entry passes validation, at the given position, with permission mode defaulting to "auto" |
| MessageQueue.ListQueue | backend/app/services/queue.py:81-101 | one item per entry in list order, item i built from entry i at position i, count = number of entries; fails when some entry does not validate |
| MessageQueue.ListedInOrder | backend/app/services/queue.py:86-95 | item i has position i and entry i's id |
| MessageQueue.Appended | backend/app/services/queue.py:140-144 | content becomes old + "\n" + new; attachments become (old or []) + new only when new ones are given; nothing else changes |
| MessageQueue.RemoveFirstAt | backend/app/services/queue.py:164-168 | `LREM 1` of the raw entry found by id removes exactly that index |
| MessageQueue.QueueService.AddMessage | backend/app/services/queue.py:49-79 | full: "Queue is full (max N messages)" and nothing changes; otherwise one entry appended at the tail and the old length returned as position; capacity is never exceeded |
| MessageQueue.QueueService.GetQueue | backend/app/services/queue.py:81-101 | returns the listing of the chat's entries |
| MessageQueue.QueueService.Locate | backend/app/services/queue.py:109-111 | the `enumerate` search finds the first entry with the id |
| MessageQueue.QueueService.UpdateMessage | backend/app/services/queue.py:103-125 | a missing id gives None and changes nothing; otherwise only that entry's content changes, in place, and the response is built at its index |
| MessageQueue.QueueService.AppendToMessage | backend/app/services/queue.py:127-158 | as written: a missing id gives None and changes nothing; otherwise the appended entry is written back at its index before the response is validated |
| MessageQueue.QueueService.AppendToMessageChecked | backend/app/services/queue.py:127-158 | an append whose result would not validate is refused with the list unchanged, so every list stays listable |
| MessageQueue.AppendBreaksListing | backend/app/services/queue.py:140-156 | a 100000-character entry plus a valid one-character append leaves an entry that `get_queue` cannot list |
| MessageQueue.QueueService.RemoveMessage | backend/app/services/queue.py:160-170 | a missing id returns false and changes nothing; otherwise exactly that entry is removed, order kept, and true returned |
| MessageQueue.QueueService.PopNextMessage | backend/app/services/queue.py:172-179 | an empty list gives None; otherwise the head is returned and removed (FIFO) |
| MessageQueue.QueueService.HasMessages | backend/app/services/queue.py:181-184 | true exactly when the chat's list is non-empty |
| MessageQueue.SerializeMessageAttachments | backend/app/services/queue.py:22-39 | None exactly when the queued entry or the message has no attachments; otherwise one descriptor per message attachment, in order |
| MessageQueue.Descriptor | backend/app/services/queue.py:30-37 | exactly the six keys id, message_id, file_url, file_type, filename, created_at |
| MessageQueue.DescriptorRoundTrip | backend/app/services/queue.py:29-37 | a descriptor's id, message id and timestamp texts parse back to the attachment's values; the other fields are copied |
| QueueInjection.LastSegment | backend/app/services/streaming/queue_injector.py:144 | the segment has no "/" and is the whole path when there is none |
| QueueInjection.LastSegmentSuffix | backend/app/services/streaming/queue_injector.py:144 | the segment is the path's suffix after its last "/" |
| QueueInjection.FileLines | backend/app/services/streaming/queue_injector.py:143-146 | one line "- /home/user/<name>" per attachment, in order; a missing `file_path` raises |
| QueueInjection.PrepareUserPrompt | backend/app/services/streaming/queue_injector.py:135-150 | no attachments: exactly `<user_prompt>content</user_prompt>`; otherwise the attachments block with its lines joined by newlines, a blank line, then the prompt block |
| QueueInjection.PromptEndsWithContent | backend/app/services/streaming/queue_injector.py:147-150 | every prompt ends with the user's text in its block |
| QueueInjection.FilesListReadsBack | backend/app/services/streaming/queue_injector.py:143-146 | with newline-free paths, the block splits back into one line per attachment |
| QueueInjection.BuildInjectionMessage | backend/app/services/streaming/queue_injector.py:118-133 | type "user", role "user", the prepared prompt as content, no parent tool use, the session id passed through |
| QueueInjection.ShouldTryInjection | backend/app/services/streaming/queue_injector.py:152-161 | true exactly for a "tool_completed" event whose tool (default {}) has no truthy parent_id; false for any other type; AttributeError exactly when a "tool_completed" event's tool is not a dict |
| QueueInjection.CheckAndInject | backend/app/services/streaming/queue_injector.py:33-54 | an empty queue gives false and nothing is popped; otherwise exactly the head is popped and the message built from it is sent |

## Findings

| source | as written | input that shows it | evidently intended | confidence | as-written member | corrected member |
|---|---|---|---|---|---|---|
| backend/app/services/scheduler/execution.py:36 | `scalar_one_or_none()` raises MultipleResultsFound when more than one execution matches | a RUNNING and a SUCCESS execution of the task, both within two minutes of the start | report a duplicate whenever at least one matching execution exists | high; not executed | Execution.CheckDuplicateAsWritten (Execution.DuplicateRaisesOnTwoMatches) | Execution.IsDuplicate |
| backend/app/services/queue.py:140-156 | the joined content is written back with `LSET` before the `QueuedMessage` is built, so an entry longer than the 100000-character bound is stored, the call raises ValidationError, and every later `get_queue` for that chat raises too, until that entry is removed or replaced | an entry of 100000 characters and an append of "b" | refuse an append whose result breaks the content bound, leaving the list unchanged | medium (the calling route is not part of this model); not executed | MessageQueue.QueueService.AppendToMessage (MessageQueue.AppendBreaksListing) | MessageQueue.QueueService.AppendToMessageChecked |

## Left out

- Redis itself is not modelled. This covers the key template `REDIS_KEY_CHAT_QUEUE`, whose value is not shown (each chat id is taken to have its own list). It also covers the TTL set on every add (queue.py:76) and the asynchronous client.
- Queue entries are kept as typed records, so `json.dumps`/`json.loads` of entries is not modelled. The `UUID(...)` and `fromisoformat` parses in `get_queue` therefore cannot fail in the model.
- `MAX_QUEUE_SIZE` is a parameter of `QueueService` because `app.constants` is not shown.
- The generated ids (`uuid4`) and every `datetime.now` are parameters (queue.py:64,71; recurrence.py:133,149; execution.py:117). One `now` stands for both reads in `update_task`: the schedule recompute (service.py:195) and `_enable_task`'s recompute (service.py:97-100), whose later value is the one kept when both run.
- MessageQueue.QueueService.AddMessage does not validate its arguments, as in the source. Listability is proved preserved only when the arguments satisfy the schema, which the calling route (not shown) is expected to check.
- In `get_queue`, `update_message` and `append_to_message`, a failing validation reports the pydantic ValidationError without its field details.
- The I/O steps of `check_and_inject` are not modelled: creating the two chat messages, publishing the injection event, looking up the session id (a parameter here) and writing to the transport. Its dead `if not messages` branch is left out, since `_create_queue_messages` always returns a pair.
- `_publish_injection_event` only publishes. Its descriptor list is the same as the one in `serialize_message_attachments`, which is modelled.
- In the scheduler, the database is the class `TaskStore` and the SQL queries are filters over its tables.
  - An exception before `commit()` leaves the tables as they were.
  - `refresh()` and ORM identity are not modelled: a row is replaced by its updated value.
- The ORM models, `ScheduledTaskUpdate` and `PaginationParams` are not part of this model.
  - Task rows carry the fields the core reads and writes.
  - An update may name task name, prompt, recurrence type, time, day and model id, plus `enabled`.
  - History pages require page ≥ 1 and per_page ≥ 1.
- `get_tasks` (service.py:146-154), `load_task_and_user` (execution.py:39-53) and `complete_task_execution` (execution.py:56-74) are left out. They are single queries and writes with no logic of their own, and the last one computes a float `duration_ms`.
- In `check_due_tasks`, the session setup and the logging are left out. The trigger callback is foreign code: it is modelled as the returned list of id texts, and which call raises, if any, is an input. The error is kept as the exception value rather than `str(e)`.
- Scheduler.NewestFirst: `order_by(executed_at.desc())` leaves the order of equal timestamps to the database. The model keeps table order among them, so Scheduler.ExecutionHistory's exact page is stated for that one of the orders SQL allows.
- Execution.SelectDue: `order_by(next_execution)` leaves the order of equal next runs to the database. The model breaks ties by table order, so when the 100-row cut falls inside a tie it picks one of the selections SQL allows, and Execution.CheckDueTasks is stated for that one.
- Recurrence.ParseScheduledTime: `int()` is modelled on ASCII digits with an optional sign. The whitespace, underscores and non-ASCII digits that Python also accepts are not modelled.
- Recurrence.ValidationAgreesWithCalculation: in year 9999 a valid day can still fail the calculation, at the end of the calendar, so agreement with success is stated only for earlier years.
- The final `raise SchedulerException` of `calculate_next_datetime` (recurrence.py:126) and of `format_recurrence_description` (formatting.py:43) cannot be reached, because the recurrence type has exactly four members.
- Recurrence.CalculateInitialNextExecution: its "Could not calculate next execution" branch is proved dead, so the exact message text does not matter.
- Scheduler.PageCount: `math.ceil(total / per_page)` on floats is modelled as the exact integer ceiling.
- Validators.ValidateModelApiKeys: `ProviderService.get_provider_for_model` is not shown, so its provider result is an input and the actual model id it returns is unused.
- Validators.Message: a provider name that is a JSON list or object is rendered as a placeholder rather than as Python's `str()` of it.
- Cursor.DecodeCursor is the strict reading of the decoders:
  - base64 decoding does not discard stray characters as Python's non-validating decoder does;
  - UTF-8 decoding is limited to ASCII;
  - `fromisoformat` accepts only the shapes `isoformat` writes in UTC;
  - `UUID()` does not accept braces or a `urn:uuid:` prefix.
- MessageQueue.MessageAttachment: the attachment rows of a chat message come from ORM models that are not shown, so their fields are typed as used.
