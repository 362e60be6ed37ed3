# Task manager store, modelled in Dafny

This project models the task-list store of the desktop to-do application in
`main.py`: the `TaskManager` window keeps an ordered list of task records
(text, status, priority). Its controls change that list in place:

- the Add button appends a task;
- a row's status dropdown sets the task's status;
- a row's Delete button removes the task;
- the Save button of the edit window replaces the task's text.

On every redraw the window computes the counters (total, done, open), the
progress percentage and the rows that pass the status filter.

Modules, one file each:

- `Text` (`text.dfy`): Python's `str.strip()` and the whitespace it removes. It decides whether an entry is blank.
- `Tasks` (`tasks.dfy`): the `Task` record with its `Status` and `Priority`, the status names used in the dropdowns, and the "trimmed, non-empty text" invariant.
- `Display` (`display.dfy`): the counters, the percentage and the filtered rows as functions, with lemmas about them.
- `Persistence` (`persistence.dfy`): the fallback rules for reading the task file when the window opens.
- `Manager` (`manager.dfy`): the class `TaskManager`. Its fields are `tasks`, `filterStatus` and `saved`, and its methods are the window's operations. The file also holds two client sessions, verified against the method contracts alone.

The methods take the position that a row's control passes, as a `nat`. A
position past the end of the list gives `Failed(IndexError)` and leaves the
state unchanged, as Python's `IndexError` would. This can really happen: the
edit window keeps the position it was opened for, and the list can shrink
while the window is open. `StaleEditSession` shows the other side of
addressing tasks by position. Suppose the edit window is opened for a task
and an earlier task is then deleted. Saving the edit then overwrites the task
that moved into that position.

Each successful change is followed by a save of the whole list. The model
records this as `saved == Some(tasks)`. A refused change saves nothing.

Two modelling choices worth knowing:

- The percentage is modelled as an integer floor (see Left out).
- The priority is optional, as in the code: a task read from the file may lack one, and the list shows it as Medium (`RowOf`). Add always stores the chosen priority.

## Model

| member | source | states |
|---|---|---|
| `Text.IsSpace` | main.py:89 | the whitespace that `str.strip()` removes and `str.isspace()` accepts: space, tab, newline and carriage return are whitespace; letters and digits are not; every whitespace character lies between U+0009 and U+3000 |
| `Text.SkipSpaces` | main.py:89 | the scan forward from a position passes only whitespace and stops at the first non-whitespace character or the end |
| `Text.SkipSpacesBack` | main.py:89 | the scan backward from a position, not below a bound, passes only whitespace and stops after the last non-whitespace character or at the bound |
| `Text.Strip` | main.py:89 | the stripped entry is empty exactly when the entry is blank (only whitespace); a non-empty result has no whitespace at either end |
| `Text.StripIsSlice` | main.py:89 | the stripped entry is a contiguous slice of the entry, and everything before and after it is whitespace |
| `Text.StripIdempotent` | main.py:123 | stripping text that was already stripped changes nothing |
| `Text.StripOfTrimmed` | main.py:123 | text with no whitespace at either end is left unchanged by stripping |
| `Tasks.TrimmedTextIsStripFixpoint` | main.py:89-92 | a task text as stored by Add or Save is non-empty with no whitespace at either end, which is exactly a non-empty text that `strip()` leaves unchanged |
| `Tasks.WellFormedReplace` | main.py:125 | replacing one task by a task with trimmed text keeps every text in the list trimmed and non-empty |
| `Tasks.StatusLabel` | main.py:13-15 | each status has a non-empty name ("Open", "In Progress", "Done") that is one of the filter dropdown's entries and is not "All" |
| `Tasks.StatusLabelInjective` | main.py:168 | different statuses have different names |
| `Tasks.ParseStatus` | main.py:59-62 | a dropdown entry names a status exactly when it is that status's label ("Open", "In Progress", "Done"); other entries name none |
| `Display.CountStatus` | main.py:138 | the number of tasks with a status is at most the list length; it is zero exactly when no task has it and equals the length exactly when every task has it |
| `Display.CountConcat` | main.py:138 | the count over two lists joined is the sum of the counts over each |
| `Display.CountAppend` | main.py:93 | appending a task raises only the count of that task's own status, by one |
| `Display.CountRemove` | main.py:110 | deleting the task at a position lowers only the count of that task's status, by one |
| `Display.CountReplace` | main.py:105 | changing a task moves one unit of count from its old status to its new one |
| `Display.CountPartition` | main.py:137-141 | the Open, In Progress and Done counts add up to the total |
| `Display.Percent` | main.py:142-148 | the percentage is 0 for an empty list, otherwise the share of Done tasks in hundredths rounded down, always between 0 and 100, and 100 exactly when every task is Done |
| `Display.PercentBounds` | main.py:145 | `done * 100 / total` is the floor of the share, at most 100, and equals 100 exactly when done equals total |
| `Display.Summarize` | main.py:137-149 | total is the list length and done the number of Done tasks; open is total minus done, which counts Open and In Progress tasks; the percentage is the share of Done tasks in hundredths rounded down, at most 100, and 100 exactly when the list is non-empty and all Done; an empty list gives 0, 0, 0, 0 |
| `Display.RowOf` | main.py:159-165 | a row carries the task's position, text and status, and its stored priority, or Medium when the task has none |
| `Display.Passes` | main.py:152 | a task is shown exactly when there is no filter or the filter is the task's own status |
| `Display.Shown` | main.py:151-165 | each shown row is a task that passes the filter, in list order, carrying that task's position in the full list and its stored priority (Medium when absent) |
| `Display.ShownComplete` | main.py:151-153 | every task that passes the filter is shown |
| `Display.ShownAll` | main.py:100-101 | under "All" (no filter) every task is shown, in order, at its own position |
| `Display.ShownCount` | main.py:151-153 | filtering on a status shows exactly as many rows as there are tasks with that status |
| `Persistence.LoadTasks` | main.py:180-191 | a missing, unreadable or blank file and a file that does not decode all give the empty list; otherwise the list is what the stripped content decodes to |
| `Manager.TaskManager.constructor` | main.py:31-32 | the window starts with the loaded list, no filter and nothing saved |
| `Manager.TaskManager.AddTask` | main.py:88-98 | a blank entry is refused and changes nothing. Otherwise the list grows by exactly one. The earlier tasks are unchanged. The new last task has the stripped text, status Open and the chosen priority. The list is saved. A list of trimmed texts stays so |
| `Manager.TaskManager.OnFilterChange` | main.py:100-101 | "All" clears the filter; any other entry filters on the status it names |
| `Manager.TaskManager.UpdateStatus` | main.py:104-107 | an out-of-range position changes nothing. Otherwise only the status of the task at that position changes: same length, same text and priority, all other tasks unchanged. The list is saved |
| `Manager.TaskManager.DeleteTask` | main.py:109-112 | an out-of-range position changes nothing. Otherwise the list shrinks by one. Earlier tasks keep their positions. The task formerly at position j after the deleted one is now at j - 1. The list is saved |
| `Manager.TaskManager.SaveEdit` | main.py:122-128 | a blank entry changes nothing, even for a stale position. Otherwise an out-of-range position changes nothing. In range, only the text of the task at that position changes, to the stripped entry; status, priority and all other tasks stay. The list is saved |
| `Manager.TaskManager.DisplayTasks` | main.py:133-153 | the loop over the list yields exactly the filtered rows of `Shown`, and the counters are those of `Summarize` |

## Left out

- Widgets, layout, colours (`STATUS_COLORS`, `PRIORITY_COLORS`), the warning dialog and the redraw after each change are presentation only. For Add, the `Failed(BlankText)` outcome stands for the warning dialog. For SaveEdit, which shows no warning, it stands for no visible effect: the edit window simply stays open.
- `update_time` reads the wall clock and reschedules itself through the event loop; it is not modelled.
- `save_tasks` writes the file with `json.dump`. The model records only what was written (`saved`); the JSON encoding and the file write are not modelled.
- `load_tasks` is modelled only by its fallback rules. JSON decoding is a parameter (`parse`), and so is the state of the file on disk. A file that decodes to something other than a list of task records is not modelled. A read error other than an I/O error (a bad text encoding) is not modelled either.
- `edit_task` itself only builds the edit window and fills it with the task's current text. Only its `save_edit` closure is modelled.
- Display.Percent: models `int(done / total * 100)` as the integer floor of `done * 100 / total`. The floating-point product can come out one lower: 29 of 100 shows 28. The bounds, the 0 for an empty list and the 100 exactly when all tasks are Done hold for both.
- Positions are non-negative, because every caller passes an `enumerate` index. Python's negative indexing is therefore not modelled.
- The priority and filter dropdowns are editable comboboxes, and typed free text is not modelled. Add takes one of Low, Medium and High. The filter callback, which fires only on a list selection, takes one of its four entries.
- Each task is a separate record with no sharing, so updating one task in place is modelled as replacing that element of the sequence.
