# TaskBell task engine in Dafny

TaskBell is a browser to-do list with due-date reminders. This project models its task engine, the part of `script.js` between the storage key and the demo/clear buttons:

- **Status normaliser.** It upgrades legacy records that only carry `done`.
- **Form parsers.** They read the comma-separated tags and the one-per-line subtasks.
- **View pipeline.** It runs the status, priority and category filters, then the case-insensitive search, then a stable sort by the chosen key.
- **Status state machine.** Cycling and toggling move a task's status and can re-arm its reminder.
- **Reminder scanner.** A reminder fires once inside a two-minute window that opens `reminderMin` minutes before the deadline.
- **Store mutations.** Add, delete, clear-all, clear-completed, demo seeding and the toolbar setters.
- **Progress counters.**

Modules, one per file:

- `Wrappers`: the `Option` type.
- `Seqs`: `map` and `filter`.
- `Text`: JavaScript `trim`, one-character `split`, `join` and `includes`.
- `Parsers`: the tag and subtask parsers.
- `Tasks`: the record, the normaliser, the sort keys and the status transitions.
- `View`: `applyView`.
- `Reminders`: the firing rule and the scan, as functions.
- `Progress`: `updateProgress`.
- `Store`: the class `TaskBell`.

`TaskBell` holds the saved list (`tasks`) and the page's view state (`selectedId`, `filters`, `search`, `sort`). It has one method per handler. `CheckReminders` is the scan loop, proved equal to the `Reminders.Scan` function.

Some inputs are passed in as parameters:

- the current time;
- the new ids;
- the lower-casing function;
- the parsed due date, as `Due`: empty, unparseable, or an instant in milliseconds.

Four behaviours of the code are easy to misread, and the model keeps each of them as written:

- **Loading.** A missing entry and stored text that fails to parse both load as an empty list (`Store.Load`). Text that parses to something other than an array does not; that case is listed under "Left out".
- **Re-arming.** `remindedAt` is cleared whenever the new status is not done, `reminderMin > 0` and `due` is set. That includes todo→pending, and unticking a todo task (`Tasks.Cycle`, `Tasks.Toggle`).
- **Lead time.** The scanner treats any non-zero `reminderMin` as a reminder, while re-arming requires `reminderMin > 0`.
- **Normalisation in the view.** `applyView` normalises the loaded records in place through a shallow copy. Those records are never saved afterwards, so the model treats `applyView` as a pure function of the list.

## Model

| member | source | states |
|---|---|---|
| Seqs.Map | script.js:317 | `map`: same length, element `i` is `f` of input element `i` |
| Seqs.Filter | script.js:319-321 | `filter`: keeps exactly the elements that pass, and never adds or duplicates one |
| Seqs.FilterCount | script.js:319-321 | `filter` keeps every passing element as many times as it occurs, and no other element |
| Seqs.FilterTwice | script.js:319-328 | two filters in a row are one filter by the conjunction |
| Text.Trim | script.js:179 | `trim`: the result has no white space at either end; it is a slice of the input with only white space cut off; it is empty iff the input is all white space |
| Text.TrimPadded | script.js:179 | trimming undoes padding a trimmed string with white space |
| Text.TrimTrimmed | script.js:179 | a trimmed string is left alone (trim is idempotent) |
| Text.JoinHasParts | script.js:326 | every piece can be found in the string `Join` builds |
| Text.ContainsSuffix | script.js:327 | text found in a string is found in any longer string ending with it |
| Text.Split | script.js:179-180 | `split` on one character: at least one piece, and no piece contains the separator |
| Text.JoinSplit | script.js:179-180 | joining the pieces of a split gives back the input |
| Text.SplitJoin | script.js:179-180 | splitting a join of separator-free pieces gives back the pieces |
| Text.ContainsAt | script.js:327 | `includes` holds iff the query occurs at some position |
| Text.ContainsOccurs | script.js:327 | where `includes` holds, the query occurs at some position |
| Text.OccursContains | script.js:327 | an occurrence of the query at any position makes `includes` hold |
| Parsers.Words | script.js:179 | the comma pieces kept by `parseTags` before truncation are exactly the non-empty trimmed pieces of the split, each non-empty and trimmed |
| Parsers.Lines | script.js:180 | the lines kept by `parseSubtasks` before truncation are exactly the non-empty cleaned lines of the split, each non-empty and trimmed |
| Parsers.Take | script.js:179-180 | `slice(0, n)`: a prefix of length `n`, or the whole list when shorter |
| Parsers.ParseTags | script.js:179 | at most 10 tags, each non-empty and trimmed, a prefix of all the comma pieces in order; shorter than 10 only if none were dropped |
| Parsers.StripBullet | script.js:180 | a line that does not start with `-` is kept; otherwise the whole leading run of dashes is removed, and then one white-space character if one follows |
| Parsers.ParseSubtasks | script.js:180 | at most 15 subtasks, each a line cleaned by `StripBullet` and `Trim`, non-empty, a prefix of all the lines in order; shorter than 15 only if none were dropped |
| Parsers.TagsRoundTrip | script.js:179 | well-formed tags joined by commas parse back to the first ten of them |
| Parsers.CleanBulleted | script.js:180 | a line `- x` cleans back to `x` |
| Parsers.SubtasksRoundTrip | script.js:180 | well-formed items written one per line as `- x` parse back to the first fifteen of them |
| Tasks.Normalize | script.js:182-187 | a missing status becomes done or todo as `done` says; afterwards done forces `done`, todo clears it, pending keeps it; nothing else changes |
| Tasks.NormalizeIdempotent | script.js:182-187 | normalising twice is normalising once |
| Tasks.NormalizeConsistent | script.js:182-187 | a record whose status and `done` agree is already normal |
| Tasks.DueMs | script.js:204-208 | a valid due date gives its instant; no deadline and an unparseable date both give plus infinity |
| Tasks.PriorityRank | script.js:210-216 | Urgente ranks 4, Haute 3, Normale 2, Basse 1, and every other value 0 |
| Tasks.PriorityOrder | script.js:210-216 | Urgente outranks Haute, which outranks Normale, which outranks Basse, which outranks any other value |
| Tasks.Cycle | script.js:541-553 | the status moves todo→pending→done→todo from the normalised status; `done` matches the new status; `remindedAt` is cleared iff the new status is not done, `reminderMin > 0` and a due value exists; nothing else changes |
| Tasks.CycleThrice | script.js:545-550 | three cycles bring the status back, and a consistent record back whole apart from its reminder stamp |
| Tasks.Toggle | script.js:560-569 | the new status is done or todo as the checkbox says, never pending; `done` agrees; the re-arm rule as for cycling; nothing else changes |
| Tasks.FindIndex | script.js:543 | `find`: the position of the first task with the id, or none iff no task has it |
| Tasks.NewTask | script.js:500-514 | the new record has the given id, the trimmed title and note, the form's due value and lead time, the parsed tags and subtasks (at most 10 and 15), the form's category and priority or the defaults "Études" and "Normale" for empty choices; it is todo, not done, created at `now` and never reminded |
| Tasks.KeepOpen | script.js:715-716 | clear-completed keeps exactly the normalised tasks that are not done |
| Tasks.FilterUniqueIds | script.js:534 | removing tasks keeps ids unique |
| Tasks.FilterHasId | script.js:534 | a filtered list has no id the list lacked |
| Tasks.AppendUniqueIds | script.js:516-517 | appending a task with a fresh id keeps ids unique |
| Tasks.DeleteCount | script.js:532-534 | with unique ids, deleting an id removes exactly one task when it is present and none otherwise |
| View.ChoiceOf | script.js:632-640 | a priority or category select value of "all" switches the filter off; any other value must match exactly |
| View.StatusChoiceOf | script.js:627-630 | a status select value selects one of the three statuses, "all", or a status no task has |
| View.Compare | script.js:332-339 | ascending keys put the smaller key first, descending keys the larger, with every date before plus infinity; the comparator ties exactly on equal keys |
| View.CompareSigns | script.js:332-339 | the comparator is antisymmetric in sign, and it ties exactly on equal keys (`Infinity - Infinity` counts as a tie) |
| View.CompareTransitive | script.js:332-339 | the comparator is transitive for every sort key |
| View.Insert | script.js:332 | insertion into a sorted list stays sorted and adds exactly the one task |
| View.SortBy | script.js:332-339 | the sort returns a sorted permutation of its input |
| View.InsertStable | script.js:332 | insertion puts the task first among the tasks with its key and keeps every key's order |
| View.SortStable | script.js:332-339 | the sort is stable: the tasks with any one key keep their input order |
| View.Narrow | script.js:319-329 | the filter chain as written keeps exactly the tasks that pass every filter and the search, and never grows the list |
| View.HaystackFields | script.js:326 | the search haystack `Haystack` contains the title, the note and every tag |
| View.QueryTrimmed | script.js:323 | white space around the search text does not change the query `Query` |
| View.NarrowSelects | script.js:319-329 | the chain of filters is a single filter by the match predicate, so nothing is dropped that passes and nothing is reordered |
| View.ApplyView | script.js:316-342 | the result is a permutation of exactly the normalised tasks that pass every filter that is not "all" and contain the trimmed, lower-cased query; it is sorted by the chosen key; tasks with equal keys keep their stored order |
| View.ViewOrder | script.js:332-339 | what sorted means for each key: `createdAt` (missing counts as 0) ascending or descending; by due date, dated before undated and earlier first, or the reverse; by priority rank, highest first |
| View.UnknownSortIsCreatedDesc | script.js:338 | an unrecognised sort value sorts like `created_desc` |
| View.UnknownStatusSelectsNothing | script.js:319 | a status filter naming no status matches no normalised task |
| View.UnknownStatusShowsNothing | script.js:319 | a status filter naming no status shows nothing |
| Reminders.FiresOnlyWhenArmed | script.js:472-477 | the reminder rule `Fires` never holds for a task that is done, has no parseable due date, has no lead time or was already reminded |
| Reminders.FiringWindow | script.js:479-481 | any other task fires exactly when `due - reminderMin·60000 <= now <= due - reminderMin·60000 + 120000`, both ends included |
| Reminders.FiringTenMinutes | script.js:479-481 | a ten-minute reminder fires ten minutes before the deadline and two minutes after that, and not one millisecond outside |
| Reminders.LegacyDoneNeverFires | script.js:470-472 | `Firing` reads the normalised record: a legacy record with only `done: true` never fires |
| Reminders.Visit | script.js:469-486 | one task of the scan is normal afterwards; it differs from the normalised task at most in `remindedAt`, which becomes `now` iff the task fires and is kept otherwise; a stamped task does not fire again at the same instant |
| Reminders.Visits | script.js:469-486 | the loop body applied to every task, in order |
| Reminders.FiredIds | script.js:483 | no more ids are announced than there are tasks |
| Reminders.FiredIdsNone | script.js:483-489 | nothing is announced iff no task fires |
| Reminders.Scan | script.js:464-489 | the scan keeps length and ids, and leaves the list untouched when nothing fires |
| Reminders.ScanEffect | script.js:469-486 | exactly the firing tasks get `remindedAt = now`; every other task reads the same after normalisation |
| Reminders.ScanWritesIffFired | script.js:489 | the list is written iff some task fires |
| Reminders.FiresOnce | script.js:474-484 | a task that fired does not fire at any later scan |
| Reminders.ScanIdempotent | script.js:464-489 | a second scan at the same instant fires nothing and changes nothing |
| Reminders.ScanUniqueIds | script.js:464-489 | a scan keeps ids unique |
| Reminders.AppendScanUniqueIds | script.js:516-524 | adding a task with a fresh id, then scanning, keeps ids unique |
| Reminders.FiredIdsCons | script.js:483 | the announcements for a list with one more task in front: its id first if it fires, then those of the rest |
| Reminders.FiredIdsSnoc | script.js:483 | the announcements for a longer list are those of the shorter list, plus the new task's id if it fires |
| Progress.CountsPartition | script.js:300-303 | todo, done and pending counts add up to the total |
| Progress.Percent | script.js:308 | `Math.round(done / total * 100)`: between 0 and 100, 0 when nothing is done, and the nearest integer with halves rounded up |
| Progress.ComputeStats | script.js:294-309 | `updateProgress`: total, the three counts on normalised statuses, `todo = total - done - pending` never negative, and the rounded percentage |
| Progress.ScanKeepsStats | script.js:464-489 | a reminder scan changes no counter |
| Progress.ClearCompletedStats | script.js:713-718 | after clear-completed nothing is done, the percentage is 0, and the open counts are unchanged |
| Progress.AppendStats | script.js:516-517 | appending a task adds one to the total and one to the count of its status |
| Progress.DemoStats | script.js:659-695 | the demo button adds one todo task and one pending task |
| Store.Load | script.js:166-169 | a parsed list loads as is; a missing or unparseable entry loads as the empty list |
| Store.AddedLast | script.js:495-524 | after adding, the old tasks keep their places and ids, and the new task is last, possibly stamped by the scan |
| Store.TaskBell.constructor | script.js:156-169 | the page starts from the loaded list (empty if absent or unparseable), no selection, filters "all", no search, newest first |
| Store.TaskBell.VisitRecord | script.js:470-486 | one turn of the scan loop computes the visited record and whether it fires |
| Store.TaskBell.CheckReminders | script.js:464-490 | the loop announces exactly the firing ids in list order and leaves the store equal to `Scan` of the old store |
| Store.TaskBell.AddRecord | script.js:516-524 | the built record is appended, selected and scanned; ids stay unique when its id is fresh |
| Store.TaskBell.AddTask | script.js:495-524 | a blank title changes nothing; otherwise the new task is appended, selected and scanned; ids stay unique when the new id is fresh |
| Store.TaskBell.AddDemo | script.js:659-698 | the two demo tasks are appended and the first is selected; ids stay unique when both are fresh and distinct |
| Store.TaskBell.DeleteTask | script.js:532-536 | keeps exactly the other tasks in order; clears the selection only if it was that id; ids stay unique |
| Store.TaskBell.CycleStatus | script.js:541-555 | the first task with the id is cycled and the others are unchanged; an unknown id is a no-op |
| Store.TaskBell.ToggleDone | script.js:560-569 | the first task with the id is toggled and the others are unchanged; an unknown id is a no-op |
| Store.TaskBell.ClearAll | script.js:704-709 | the store is empty and nothing is selected |
| Store.TaskBell.ClearCompleted | script.js:713-719 | the kept list is `KeepOpen`; a non-empty selection is dropped iff no kept task has its id |
| Store.TaskBell.Select | script.js:605-612 | a click selects the item's id; an item without an id is ignored |
| Store.TaskBell.SetStatusFilter | script.js:627-630 | only the status filter changes |
| Store.TaskBell.SetPriorityFilter | script.js:632-635 | only the priority filter changes |
| Store.TaskBell.SetCategoryFilter | script.js:637-640 | only the category filter changes |
| Store.TaskBell.SetSearch | script.js:647-655 | the search text is the box's value |
| Store.TaskBell.SetSort | script.js:642-645 | the sort key is the select's value |

## Left out

- **Presentation.** DOM rendering, details panel, status labels and badges, `escapeHTML`, `formatDue`, toasts, audio and the focus mode are not modelled. `CheckReminders` returns the announced ids in place of the toasts and sounds.
- **The "remind" and "play task sound" buttons.** They only toast and play a sound, and change no state.
- **Storage and JSON.** `localStorage` and JSON are not modelled: the saved list is the `tasks` field. A stored value that parses to something other than an array is not modelled. Nor are unknown extra fields on records.
- **Dates.** `new Date(due)` is not modelled: `due` arrives parsed as `Due`. The clock (`Date.now()`) is a parameter.
- **Ids.** `crypto.randomUUID` is not modelled: ids are parameters.
- **Lower-casing.** Unicode `toLowerCase` is the parameter `lower`.
- Progress.Percent: `Math.round(done / total * 100)` is computed exactly in integers, not in floating point. A floating-point product that lands a hair below a half would round differently.
- **Numbers.** `Number(reminder)` yielding `NaN`, and non-numeric `createdAt` values, are not modelled. Integers are unbounded, whereas JavaScript numbers are doubles.
- **Statuses.** A stored `status` string other than todo, pending or done is not modelled.
- **Time zero.** The `now != 0` requirement of `ScanIdempotent`, `FiresOnce` and `ScanWritesIffFired` reflects JavaScript truthiness: a stamp of 0 reads as "never reminded". The clock never reads 0.
- **Scheduling.** `setInterval`, the 120 ms search debounce and event ordering are not modelled. Each scan, each handler and each search update is an explicit call.
- **UI glue.** The contact form, theme toggle, tabs, footer year and navigation highlighting are outside the task engine.
