# Study task tracker — verified model of its task list, statistics and focus timer

The tracker keeps an ordered list of study tasks (name, due date-time, optional
difficulty, a completion flag and the day of completion), re-sorts it before every
render by the selected order, shows progress counts and percentages, and runs one
focus countdown timer at a time. This project models that logic from `script.js`
with the page, storage and clock taken out:

- `tasks.dfy` (`Tasks`): the task record, the invariant "a completion date is present
  exactly when the task is completed", and the per-task and per-list changes
  (toggle, wipe of completion history, removal with shift).
- `sorting.dfy` (`Sorting`): the render-time sort as a stable sort by one integer key
  (due ascending, difficulty descending, difficulty ascending, absent difficulty = 0),
  proved a sorted, stable permutation.
- `store.dfy` (`Store`): class `TaskStore` with the list and the pending edit position
  as fields; one method per handler.
- `stats.dfy` (`Stats`): the progress panel and the statistics window as counts over
  the list, with `Math.round` as round-half-up on the exact ratio.
- `timer.dfy` (`Focus`): class `FocusTimer` with the three timer variables, the
  transition functions its methods are proved against, and lemmas about whole runs.
- `clock.dfy` (`Clock`): the `M:SS` text of the timer.
- `deadline.dfy` (`Deadline`): the "time remaining" label.

Units: instants (`due`, "now") are integer milliseconds; a completion date is a day
number and day `d` starts at `d * 86400000`. "Today", "now" and the answer of each
confirmation dialog are parameters. The minutes field and the difficulty field are
given already parsed (`None` when empty or not a number).

The model follows the code where it differs from the intended design:
`TogglePause` flips the pause flag even when no session runs; a start with 0 or
unparsable minutes uses 25 minutes and a negative value is accepted (the session then
ends on its first tick and the display shows a negative time); stopping keeps the
time left; `DeleteTask` leaves the pending edit position unchanged, so a later save
can overwrite the task that moved into that position, or fail when the position is
past the end (`EditTargetMissing`, no change). Re-sorting by due after a difficulty
sort restores the sequence of due instants but not necessarily the order of tasks
with equal due instants (`ResortRestoresKeys`, `ResortMayReorderTies`). A task less
than a minute from due is labelled "0m left", and at the due instant itself it is
labelled overdue while the overdue count still excludes it. With 200 or more tasks
the percentage can read 100 while a task is still open (`PercentFull`).

## Model

| member | source | states |
|---|---|---|
| Store.TaskStore.constructor | script.js:4-5 | the list is the stored snapshot or empty; no edit pending |
| Store.TaskStore.AddTask | script.js:29-52 | empty name or due: no change; no edit pending: a new uncompleted task is appended and earlier tasks are unchanged; edit pending at a valid position: only that task is replaced, keeping its completion flag and date, and the edit ends; stale position: nothing changes; the date/flag invariant is preserved |
| Store.TaskStore.BeginEdit | script.js:217-222 | the edit position becomes `i` and the form receives the task's name, due and difficulty (0 shown as empty) |
| Store.TaskStore.ClearAllTasks | script.js:61-69 | an empty list asks nothing and changes nothing; otherwise confirmation empties the list and ends any edit, refusal changes nothing |
| Store.TaskStore.ToggleTask | script.js:203-206 | only task `i` changes: its flag flips, its date is today exactly when it becomes completed, absent otherwise; a celebration is requested exactly on completion; the invariant is preserved |
| Store.TaskStore.DeleteTask | script.js:211-212 | the list loses exactly element `i`, later elements shift down; an index past the end changes nothing; the invariant is preserved |
| Store.TaskStore.ResetStats | script.js:274-276 | on confirmation every task is uncompleted with no date, count and order and other fields unchanged; otherwise nothing changes |
| Store.TaskStore.SortForRender | script.js:169-175 | the new list is the stable sort of the old one by the selected order: a permutation, ordered by key, invariant preserved |
| Store.SortKeepsConsistent | script.js:170-175 | any permutation of a consistent list is consistent |
| Store.ToggleThenRenderKeepsPositions | script.js:203-208 | toggling a task of an ordered list and re-rendering leaves every task at its position |
| Tasks.ResetAll | script.js:276 | same length, every task wiped of its completion, the result satisfies the invariant |
| Tasks.RemoveAt | script.js:212 | elements before `i` unchanged, later ones shifted down by one, exactly one occurrence of element `i` removed |
| Tasks.ToggledIsConsistent | script.js:204-205 | a toggled task always satisfies the date/flag invariant and has the opposite flag |
| Tasks.ToggleTwice | script.js:204-205 | two toggles restore the flag; the date is then the second toggle's day (or absent) |
| Tasks.ConsistentUpdate | script.js:41-46 | replacing a task by one that satisfies the invariant keeps the list consistent |
| Sorting.OrderOf | script.js:169 | an empty selector value or "due" means by due; "diffHigh" and "diffLow" their orders; anything else compares all as equal |
| Sorting.InsertPermutes | script.js:170 | inserting adds exactly the element, once; the new head is the element or the old head |
| Sorting.InsertSorted | script.js:170 | inserting into an ordered list keeps it ordered |
| Sorting.SortByPermutes | script.js:170-175 | the sorted list holds the same tasks, each as often as before |
| Sorting.SortBySorted | script.js:170-175 | the sorted list is ordered by the comparator's key |
| Sorting.SortIsStable | script.js:170-175 | tasks with equal keys keep their relative order |
| Sorting.SortOfSorted | script.js:170-175 | an ordered list is left unchanged |
| Sorting.SortIdempotent | script.js:170-175 | sorting twice by one order equals sorting once |
| Sorting.UnknownSelectorKeepsOrder | script.js:174 | an unrecognised order moves nothing |
| Sorting.ResortRestoresKeys | script.js:170-175 | sorting by any order and then by `o` gives the same key sequence as sorting by `o` alone |
| Sorting.ResortMayReorderTies | script.js:171-172 | two tasks with the same due instant swapped by the difficulty sort stay swapped after sorting by due again |
| Stats.Count | script.js:231 | a count never exceeds the list length |
| Stats.CountExtremes | script.js:231 | the count is 0 when no task qualifies and the length when all do |
| Stats.Percent | script.js:233 | 0 for an empty whole; otherwise the nearest integer to 100·part/whole with halves upwards; at most 100 when part ≤ whole |
| Stats.PercentFull | script.js:233 | the percentage is 100 exactly when the open share is at most half a percent |
| Stats.PercentOfNothing | script.js:233 | nothing completed gives 0 percent |
| Stats.ProgressOf | script.js:229-241 | completed, done-today and overdue are the counts of completed tasks, tasks completed today and open tasks due before now; percent is completed/total ·100 rounded half up; done-today ≤ completed ≤ total; overdue + completed ≤ total; percent in [0,100], 0 for no tasks, 100 exactly when at most half a percent is open |
| Stats.DetailedStatsOf | script.js:263-271 | all-time and today counts are the completed tasks and those completed today; today ≤ all-time completions; the on-time rate is in [0,100], 0 with no completions, and the rounded share of on-time completions |
| Stats.StatsIgnoreOrder | script.js:169-175 | sorting changes neither the progress panel nor the statistics window |
| Stats.ProgressAfterAppend | script.js:51 | appending a new task adds one to the total and to overdue exactly when its due instant is past; completions unchanged |
| Stats.ProgressAfterToggle | script.js:204-205 | a toggle moves the completed count by one in its direction; a completion adds one to done-today |
| Stats.ProgressAfterRemove | script.js:212 | a deletion removes the task's contribution from the total, completed and overdue counts |
| Stats.StatsAfterReset | script.js:276 | after a reset completions, done-today and both percentages are 0 and overdue counts every task due in the past |
| Stats.LateCompletionIsNotOnTime | script.js:269-270 | a task completed on a day that starts after its due instant gives an on-time rate of 0 |
| Focus.SessionMinutes | script.js:84 | empty, unparsable or 0 minutes give 25; any other value is used as given |
| Focus.FocusTimer.constructor | script.js:7-9 | the timer starts idle, unpaused, with 0 seconds |
| Focus.FocusTimer.StartTimer | script.js:75-87 | refused without change while running; otherwise running, unpaused, with minutes·60 seconds |
| Focus.FocusTimer.Tick | script.js:100-113 | paused or idle: no change; otherwise one second less, and when that reaches 0 or below the session ends, unpaused, with the end signal |
| Focus.FocusTimer.TogglePause | script.js:124-126 | the pause flag flips, whether or not a session runs |
| Focus.FocusTimer.StopTimer | script.js:131-134 | not running and not paused; time left kept |
| Focus.StopIdempotent | script.js:131-134 | stopping twice is stopping once |
| Focus.TimeLeftNeverGrows | script.js:103 | while running, a tick, a pause toggle, a stop or a (refused) start never increases the time left |
| Focus.TicksWhileHeld | script.js:102 | any number of ticks of a paused or idle timer change nothing and signal nothing |
| Focus.SessionRunsOut | script.js:100-111 | with n seconds left and unpaused, the session runs n−1 ticks, ends on tick n with exactly one signal, then stays idle |
| Focus.StartedSessionLength | script.js:84-87 | a start with m > 0 minutes ends after exactly m·60 ticks with one signal, and is still running one tick earlier |
| Focus.NegativeSessionEndsAtOnce | script.js:84-85 | negative minutes start a session that ends on its first tick with a signal |
| Focus.StartResetsPause | script.js:86 | a pause toggled while idle does not affect the next session |
| Clock.NatText | script.js:121 | the decimal text is non-empty, all digits, without leading zero, and denotes the number |
| Clock.SecondsTextIsTwoDigits | script.js:121 | seconds in [0,60) are written as exactly two digits denoting them |
| Clock.ClockTextReadsBack | script.js:119-121 | for t ≥ 0 the text is minutes, a colon, two digits below 60, and 60·minutes + seconds = t |
| Clock.NegativeClockIsOffByAMinute | script.js:119-120 | for negative t not a whole minute the parts add up to t − 60 and the seconds are negative |
| Clock.NegativeClockExample | script.js:119-121 | −301 seconds display as "-6:0-1" |
| Deadline.TimeRemaining | script.js:143-153 | overdue exactly when due ≤ now; otherwise whole days when ≥ 1, else whole hours in [1,24), else whole minutes in [0,60), each the floor of the difference |
| Deadline.NestedDivision | script.js:148-150 | flooring by minutes, then hours, then days equals flooring by the larger unit |
| Deadline.LabelMonotone | script.js:147-153 | as now advances the label never moves away from overdue |
| Deadline.LabelAndCountDisagreeAtDueInstant | script.js:147 | at the due instant an open task is labelled overdue but not counted overdue |

## Left out

- Page rendering: element lookups, list markup, button texts and colours, scrolling, dark mode, the statistics modal and its outside-click close; the counts are modelled, not how they are shown.
- Persistence: the save after each handler and the JSON encoding; the constructor takes the loaded snapshot as a value.
- Celebrations and dialogs: confetti and alerts are returned as flags (`celebrate`, `finished`, `MissingInput`) and the confirmation dialog's answer is a parameter.
- Timer scheduling: the repeating one-second callback is modelled by calling `Tick`; a tick of an idle timer does nothing because no callback is scheduled then. The "Focusing on" label is display only.
- Dates: parsing of date strings, the default due time, and the difference between the UTC day used for completion dates and the local time of due dates; all are integers on one time line.
- Number parsing: `parseInt` of the minutes and difficulty fields (prefixes, hexadecimal, NaN) is reduced to an already parsed optional integer.
- Floating point: `Math.round` of a floating quotient is modelled as exact round-half-up, which can differ at exact halves.
- Quoting of task names inside button markup.
- Store.TaskStore.DeleteTask: positions are natural numbers, since they come from the rendered list; `splice` with a negative position is not modelled.
- Number width: minutes, seconds left and instants are unbounded integers. The source stores them as doubles, which are exact only up to 2^53 and print in exponent form from 1e21.
- Focus.StartedSessionLength: the "exactly m·60 ticks" count holds in the source only while m·60 stays below 2^53. Above that, subtracting one second rounds back to the same double, so the session never ends.
- Clock.NatText: produces plain decimal digits for every n, while the source's template prints values from 1e21 upward in exponent form.
