# Task Buddy: the recurring-task engine and the task page, in Dafny

Task Buddy is a to-do application. It has an Express/SQLite server (`server.js`) and a browser page (`script.js`). This project models and proves two parts of it.

**The recurring-task engine of the server.**
- The date helpers `addDays`, `addWeeks`, `addMonths` and `addYears` (module `Calendar`). They work on calendar day numbers and follow the `Date` overflow rule: the 31st carried into a 30-day month becomes the 1st of the next month.
- `calculateNextOccurrence` is a method with its `while` loop, proved equal to the function `NextOccurrence` (module `Recurrence`).
- `generateRecurringTasks` is a method of the `Store` class, whose `tasks` table is a map from id to row plus the AUTOINCREMENT counter. It is proved equal to a pass function, and the pass's outcome is proved: which rows are retired, advanced or left alone, how many instances are inserted, and what each one holds. A second pass on the same day finds only the templates whose insert failed (module `TaskStore`).
- The PATCH `/api/tasks/:id` handler. Its SET list is built one `if` at a time and proved to give the declarative `Patched` row. The `completed_at` rule and the 404 and 400 answers are modelled (modules `TaskPatch` and `TaskStore`).

**The task page.**
- Load-time normalisation, the task list with its main task, and the steps of the main task with progress counting and auto-completion (module `TaskBoard`, class `Board` over `Task` objects; the main task is one of the list's objects).
- The right-hand panel's filter.
- The Pomodoro timer as a class with the page's three variables, and `formatTime` (module `Pomodoro`).

Dates are day numbers counted from 1970-01-01. A missing value (`null`) is `None`.

## Model

| member | source | states |
|---|---|---|
| Calendar.AddDays | server.js:43-47 | adding `days` through the `Date` setter is exactly `d + days` |
| Calendar.AddWeeks | server.js:49-53 | adding weeks moves exactly `7 * weeks` days |
| Calendar.AddMonths | server.js:55-59 | adding one month or more gives a later date |
| Calendar.AddYears | server.js:61-65 | adding one year or more gives a later date |
| Calendar.MakeDayCarries | server.js:55-65 | a day that fits the target month is kept; a day that does not spills into the following month by the excess, never clamped |
| Calendar.AddMonthsCivil | server.js:55-59 | `addMonths` keeps the day of the month or rolls the excess into the next month |
| Calendar.AddYearsCivil | server.js:61-65 | `addYears` keeps month and day, or rolls the excess forward |
| Calendar.JanuaryThirtyFirstPlusOneMonth | server.js:55-59 | 31 January plus one month is 2 or 3 March, never 28/29 February |
| Calendar.LeapDayPlusOneYear | server.js:61-65 | 29 February plus one year is 1 March |
| Calendar.FromDayToDay | server.js:43-65 | reading the civil fields of a date and rebuilding it gives the same date |
| Recurrence.EffectiveInterval | server.js:88-99 | the interval used is at least 1, and equals the stored interval whenever that is at least 1 (0 counts as 1) |
| Recurrence.Advance | server.js:86-104 | one step of a recognised rule always moves the date forward |
| Recurrence.Roll | server.js:84-111 | stepping ends after today and not before the start |
| Recurrence.RollIsFirstPastToday | server.js:84-111 | for every kind, stepping from a start not after today ends exactly one step past a date `p` between the start and today, and `p` is a date of that same stepping (the start, or where stepping from the start ends past the day before `p`), so the loop never steps past today twice |
| Recurrence.CalculateNextOccurrence | server.js:68-123 | the loop with its `switch` and the end-date check returns exactly `NextOccurrence` |
| Recurrence.UnrecognisedHasNoNext | server.js:100-102 | 'none', 'custom' and any kind without a case give `null` |
| Recurrence.NextIsAfterToday | server.js:84-120 | a non-null result is strictly after today and not after the end date |
| Recurrence.EndDateCutOff | server.js:113-120 | the result is `null` exactly when the date is strictly after the end date; a date equal to it is returned |
| Recurrence.IntervalZeroIsOne | server.js:88-99 | an interval of 0 gives the same result as an interval of 1, for every kind |
| Recurrence.RollIsLeastMultiple | server.js:84-111 | daily and weekly results are `base + k * step` for the least `k >= 1` past today, so result minus step is not after today |
| Recurrence.DailyCatchUpIsTomorrow | server.js:84-90 | a daily rule with interval 1, however far behind, gives tomorrow |
| TaskPatch.PatchKeepsSchedule | server.js:497-548 | a PATCH never changes the next date, the creation date, the original id or the links |
| TaskPatch.CompletedAtRule | server.js:504-518 | `completed_at` changes only when `completed` changes: set to now on false to true, cleared on true to false |
| TaskPatch.PatchKeepsEndDate | server.js:545-548 | a null or absent end date is "not given", so a PATCH whose end date is a date or null never clears a stored end date |
| TaskPatch.PushTitle | server.js:498-501 | the title check: the row's title becomes the given title, when one is given |
| TaskPatch.PushCompleted | server.js:504-518 | the completed check pushes `completed` and, on a change, the new `completed_at` |
| TaskPatch.PushIsMainTask | server.js:521-524 | the isMainTask check |
| TaskPatch.PushSubtasks | server.js:527-530 | the subtasks check |
| TaskPatch.PushKind | server.js:533-536 | the recurrence_type check |
| TaskPatch.PushInterval | server.js:537-540 | the recurrence_interval check |
| TaskPatch.PushDetails | server.js:541-544 | the recurrence_details check |
| TaskPatch.PushEndDate | server.js:545-548 | the end_recurrence_date check |
| TaskPatch.BuildUpdate | server.js:494-552 | the SET list applied to the old row gives `Patched`; it is empty exactly when no field is given; each column appears at most once, in the handler's order |
| TaskStore.NextDatesAfterToday | server.js:243-244 | every next date the pass computes is after today |
| TaskStore.InstanceIsNeverDue | server.js:256-263 | an instance is not completed, points back at its template, keeps the title, and has recurrence 'none', so no pass selects it |
| TaskStore.ProcessedIsNotDue | server.js:231-278 | a template that was retired or advanced is not selected again on the same day |
| TaskStore.FailedInsertIsRetried | server.js:265-269 | a template whose insert failed is unchanged and still due |
| TaskStore.ProcessedAdvances | server.js:271-276 | an advanced template's next date moves past its old date and past today, and nothing else about it changes |
| TaskStore.RunKeys | server.js:243-279 | the pass adds exactly the ids between the old and the new counter and removes none |
| TaskStore.RunKeepsOthers | server.js:243-279 | rows the pass does not select are untouched |
| TaskStore.RunHandlesTemplates | server.js:243-279 | each selected template is retired, advanced or left, according to its next date and its insert |
| TaskStore.RunInsertsInstances | server.js:256-263 | one instance per inserted template, in the pass's order, under consecutive ids |
| TaskStore.InsertedListIsInserted | server.js:243-279 | the templates that get an instance are exactly the due ones with a next date whose insert succeeds, each once |
| TaskStore.PassProcessesRows | server.js:243-279 | after the pass every old row is retired, advanced or untouched as `Processed` says |
| TaskStore.PassInsertsInstances | server.js:256-263 | the counter grows by the number of instances, and the new rows are the instances |
| TaskStore.PassLeavesFailedDue | server.js:231-279 | after the pass the due templates are exactly those whose insert failed |
| TaskStore.PassOutcome | server.js:227-281 | the table stays counted, old rows are processed, the counter grows by the number of inserted templates, only failed inserts stay due |
| TaskStore.Store.Generate | server.js:227-281 | the loop over the selected templates gives the pass and its whole outcome, using the computed next occurrences |
| TaskStore.Store.HandleTemplate | server.js:244-278 | the loop body: retire, or insert and then advance; an UPDATE of a missing row does nothing |
| TaskStore.Store.Patch | server.js:478-557 | 404 exactly for a missing row, 400 exactly for a body with no field, otherwise the row becomes `Patched` and nothing else changes |
| Pomodoro.TransitionsKeepRange | script.js:491-534 | start, tick and reset keep `1 <= timer <=` the session's length, so at most 1500 |
| Pomodoro.SessionEndsOnTime | script.js:495-518 | a running session with `n` seconds left runs through `n - 1` ticks and then stops with the other session loaded in full |
| Pomodoro.Timer.constructor | script.js:66-71 | the page starts with 1500 seconds, stopped, in focus |
| Pomodoro.Timer.Start | script.js:491-494 | `startTimer` does nothing while running, otherwise it starts |
| Pomodoro.Timer.Tick | script.js:495-518 | one second off; at zero or below the timer stops, flips the session and loads 300 or 1500 |
| Pomodoro.Timer.Pause | script.js:522-525 | the timer stops and keeps its countdown |
| Pomodoro.Timer.Reset | script.js:527-534 | back to 1500 seconds, focus, stopped |
| Pomodoro.Decimal | script.js:481-485 | `toString` of a whole number is one or more digits, and one digit exactly below 10 |
| Pomodoro.DecimalValue | script.js:481-485 | the digits of `toString` read back as the number |
| Pomodoro.Pad2Value | script.js:481-485 | `padStart(2, '0')` keeps the digits and the value |
| Pomodoro.FormatTimeReadsBack | script.js:481-485 | `formatTime(s)` reads back as minutes `s / 60` and two-digit seconds `s % 60`, and is exactly `MM:SS` below 100 minutes |
| TaskBoard.TrimStart | script.js:113 | leading white space is removed and no more, and the result starts with non-space |
| TaskBoard.TrimEnd | script.js:113 | trailing white space is removed and no more, and the result ends with non-space |
| TaskBoard.TrimEmptyIffBlank | script.js:113-114 | a title is refused exactly when it is empty or all white space |
| TaskBoard.TrimIdempotent | script.js:113 | trimming a trimmed text changes nothing |
| TaskBoard.CompletedSteps | script.js:456-457 | the completed count is at most the total, and equals it exactly when every step is done |
| TaskBoard.ToggleCounts | script.js:427-429 | ticking a step raises the count by one, unticking lowers it by one |
| TaskBoard.DeleteCounts | script.js:436-438 | deleting a step lowers the count by one when that step was done, otherwise not |
| TaskBoard.FindIndex | script.js:180 | `findIndex` is -1 exactly when no task has the id, otherwise the first task with it |
| TaskBoard.NormalizeSteps | script.js:43-50 | a string step becomes `{text, done: false}`, an object step is kept, one for one |
| TaskBoard.LoadAfterSave | script.js:39-58 | loading what was saved gives every task back unchanged |
| TaskBoard.NormalizeIdempotent | script.js:39-58 | normalising again after a save changes nothing |
| TaskBoard.FirstActiveMain | script.js:58 | `find` gives the first task that is main and not done, or nothing when there is none |
| TaskBoard.DrawnIff | script.js:137-151 | the panel draws a task exactly when it is (not main and not done) or (main and done) |
| TaskBoard.BlankPanelAsWritten | script.js:141-151 | a list holding only a finished regular task shows neither the message nor a task |
| TaskBoard.PanelViewMessage | script.js:141-151 | the message shows exactly when no task is drawn, and a drawn list is never empty |
| TaskBoard.Board.Load | script.js:35-58 | one new normalised task per stored task, in order; the main task is the first main task that is not done |
| TaskBoard.Board.AddTask | script.js:111-131 | a blank title changes nothing; otherwise a new open regular task goes in front and the old list is the tail |
| TaskBoard.Board.RemoveTask | script.js:178-186 | the first task with the id leaves the list, the rest keep their order; an unknown id changes nothing; the timer is reset when no main task is active |
| TaskBoard.Board.AddMainTask | script.js:317-342 | a blank title, or an open main task, changes nothing; a done main task is demoted; a new open main task goes in front and becomes the main task |
| TaskBoard.Board.SubmitStep | script.js:395-410 | with a main task and a non-blank text, `{text, done: false}` is appended to its steps |
| TaskBoard.Board.MarkMainTaskDone | script.js:412-423 | the main task is marked done and released, and the timer is reset |
| TaskBoard.Board.ToggleSubtaskDone | script.js:427-434 | only step `index` flips; the main task is completed when that leaves it with steps, all done; no-op without a main task or with a bad index |
| TaskBoard.Board.DeleteSubtask | script.js:436-441 | only step `index` is removed; no-op without a main task or with a bad index |
| TaskBoard.PanelAsWrittenMessage | script.js:137-151 | as written, the message shows exactly when no task passes the filter; otherwise the drawn tasks are exactly those to be shown, possibly none |
| TaskBoard.Board.RightPanel | script.js:133-151 | the panel as written: the message exactly when no task passes the filter, otherwise exactly the tasks that are (not main and not done) or (main and done), which may be none |

## Left out

- The calls into the database are asynchronous and their callbacks interleave. The pass is modelled as sequential steps, one template at a time, in the order of the query result (`selected`).
- The query result is an input of `Generate`. It holds each due template once, and the pass lemmas take that as a premise.
- Which inserts fail is an input set. A failed retire or advance UPDATE is not modelled.
- `today` is a parameter. The clock and the 24-hour `setInterval` scheduler are not modelled. All dates are whole calendar days.
- The mismatch between local midnight (`setHours(0, 0, 0, 0)`, server.js:70-73, 106-107) and the UTC date of `toISOString()` (server.js:46) is not modelled, so the model describes a host whose time zone is UTC. On any other host a daily step of one day is read back as the same local day (`new Date("YYYY-MM-DD")` is UTC midnight, then `setHours` returns to the local midnight it started from), so the source's loop never moves forward; the termination of `Recurrence.Roll` and `Recurrence.DailyCatchUpIsTomorrow` hold only for a UTC host.
- Dates before 1970 are not modelled. Day numbers are natural numbers.
- The `recurrence_interval` column is a natural number. A negative interval would keep the source's loop from ending.
- Three behaviours of the engine are modelled as the code has them:
  - End date. The end date is compared with `>` (server.js:117): a date equal to the end date is kept.
  - Month lengths. A monthly or yearly date whose day the target month lacks is carried into the following month, not clamped (server.js:55-65).
  - Instance steps. An instance copies the template's `subtasks` JSON text, `'[]'` when empty (server.js:258, 264).
- JSON parsing, `JSON.stringify` and `recurrence_details` are taken as opaque text.
- The weekday-set rules hinted at in comments for weekly and custom recurrences do not exist in the code and are not modelled. 'custom' gives no next occurrence.
- Express routing, sessions, authentication, the tunes routes, table creation and the SQL text are not modelled. The GET routes and task creation are not modelled.
- TaskPatch.PushCompleted: the timestamp `new Date().toISOString()` is the parameter `now`. The body's `completed` is taken as a boolean: the handler stores and compares it by JavaScript truthiness, so a string `"false"` marks a task done and `0` clears it, and that truthiness of other JSON values is not modelled.
- TaskPatch.PatchKeepsEndDate: the body's `end_recurrence_date` is taken to be a date or null. The handler stores any non-null value (server.js:545-548), so a falsy non-null value such as `""` is stored and then read as "no end date" by `if (task.end_recurrence_date)` (server.js:114); such a PATCH does clear the end date in effect, which the model does not capture.
- TaskPatch.PushIsMainTask: the body's `isMainTask` is taken as a boolean; the truthiness of other JSON values (server.js:521-523) is not modelled.
- On the page, all DOM work, `alert`, the sound, themes, tips and `localStorage` are not modelled. A stored list is given as parsed values (`StoredTask`); `Saved` is what `saveTasks` writes.
- TaskBoard.Board.Load: a stored `done` or `isMainTask` that is truthy but not a boolean is not modelled. A missing value and `false` both become `false`.
- TaskBoard.Board.ToggleSubtaskDone: the 300 ms `setTimeout` before the main task is marked done is modelled as immediate.
- The progress percentage and its rounding (floating point) are not modelled. Only the integer counts are.
- The step form of the task detail view (script.js:233-240) is not part of this model.
- The board's operations keep the invariant that a set main task is open. So `addMainTask` never reaches its demotion branch. The branch is modelled as written.
- Pomodoro.Timer.Tick: ticks are modelled only while the timer runs, as the interval fires only then.
- Pomodoro.FormatTime: negative inputs are not modelled. The timer never shows one.

## Findings

| source | as written | input that shows it | evidently intended | confidence | as-written member | corrected member |
|---|---|---|---|---|---|---|
| script.js:141-151 | the "No task selected yet." message is chosen from the filtered list, before the loop skips finished regular tasks | a list holding only one finished regular task | the message whenever no task is drawn | not executed | TaskBoard.BlankPanelAsWritten | TaskBoard.PanelViewMessage |
