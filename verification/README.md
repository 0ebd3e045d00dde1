# YATL todo store, modelled in Dafny

This project models the task store of YATL ("Yet Another Todo List"): the
`Todo` class in `yatl/todo.py`. The store keeps a table of tasks in memory.
Each task has these columns:

- `datetime`: the creation stamp.
- `description`.
- `importance`.
- `cost`.
- `priority`: importance divided by cost.
- `completed`: `False` or a completion stamp. An empty cell in a hand-edited
  file reads back as a missing value.

The store keeps the table in a canonical order: priority descending, then
importance descending, then creation datetime ascending. It writes the table
to a file after each change.

Modules, one concern each:

- `Timestamps` (timestamps.dfy): creation and completion stamps are text. The
  sort uses the creation `datetime` as its last key and orders it the way
  Python orders strings (`LexLe`). Lemmas prove that this ordering is a total
  order.
- `Tasks` (tasks.dfy): a row's columns, the `completed` cell, and building a
  new row (`NewTask`), which fails on a zero cost.
- `Table` (table.dfy): rows with their index labels. A label is a name, not a
  position. Also: the file image (`Strip`), a fresh table labelled 0 to n-1
  (`Labelled`), and lookup by label (`PositionOf`).
- `Sorting` (sorting.dfy): the canonical order (`Before`, `Sorted`) and the
  stable sort `SortRows`. Lemmas prove that it sorts, that it permutes the
  rows, that rows keep their labels, and that it leaves a sorted table
  unchanged.
- `TodoList` (todo.dfy): specification functions for loading, adding and
  completing, and the lemmas about them. The class `Todo` holds the table
  (`rows`), a ghost image of the file (`persisted`) and the value range with
  its split. Its methods are `ReadList`, `SortList`, `Save`, `AddTask` and
  `MarkComplete`.

The file is modelled by its contents. `None` means no file exists at the
store's path. `Some(tasks)` means the file holds those rows, in file order.
A save writes the rows without their index labels. A load gives the rows
labels 0 to n-1 in file order and then sorts them. `add_task` appends the new
row in a way that renumbers the labels 0 to n in the current order, then it
sorts. The sort moves each label with its row. `mark_complete(i)` finds the
row whose label is `i`, not the row at position `i`.

The `completed` cell has three states, based on what the timestamp parse in
`mark_complete` does with it:

- `Incomplete`: the cell holds `False`, or the text `"False"` after a reload.
  The parse raises.
- `Blank`: the cell is empty and is read back as a missing value. The parse
  succeeds and yields "not a time".
- `CompletedAt(t)`: the cell holds a stamp.

Only `Incomplete` gets stamped.

Behaviour of the code that the model keeps as written:

- An empty `completed` cell counts as already completed: the parse returns
  "not a time" instead of raising, so `mark_complete` never stamps it.
- Marking an already-completed task prints a message and returns normally;
  there is no error. This model returns `AlreadyCompleted`.
- `add_task` checks nothing about importance and cost. A zero cost fails only
  because the division at `yatl/todo.py:40` raises by itself.
- Tasks are addressed by index labels, not by stable ids, and `add_task`
  renumbers those labels.

## Model

| member | source | states |
|---|---|---|
| Timestamps.LexLe | yatl/todo.py:27-28 | Python's str order on the datetime key: a prefix, the empty string included, comes first, and a string ordered after a non-empty one is non-empty with a first character no smaller |
| Table.Labelled | yatl/todo.py:20 | a freshly labelled table (as after reading the file, or after an append that ignores the old labels) holds the given tasks in order with labels 0 to n-1 |
| Sorting.Before | yatl/todo.py:27-28 | the three-key order: a task that may stand first has priority at least as high, and a strictly higher priority always stands first |
| Timestamps.LexLeReflexive | yatl/todo.py:27-28 | the datetime order used by the sort is reflexive |
| Timestamps.LexLeTransitive | yatl/todo.py:27-28 | the datetime order is transitive |
| Timestamps.LexLeTotal | yatl/todo.py:27-28 | any two datetimes are comparable |
| Timestamps.LexLeAntisymmetric | yatl/todo.py:27-28 | two datetimes ordered both ways are equal, so the datetime tie-break is a total order |
| Tasks.NewTask | yatl/todo.py:35-42 | the new row fails with a division error exactly when cost is zero; otherwise its priority times its cost equals its importance, it carries the given stamp, description, importance and cost, and its completed cell is False (not parseable) |
| Table.Strip | yatl/todo.py:31-32 | the saved file holds the tasks in table order, one per row, without their index labels |
| Table.InLabelled | yatl/todo.py:20 | a row of a freshly read table carries, as its label, the position its task has in the file |
| Table.PositionOf | yatl/todo.py:50-52 | a lookup by label finds a row that has that label, and finds nothing exactly when no row has it |
| Sorting.BeforeReflexive | yatl/todo.py:27-28 | every task may stand before itself in the canonical order |
| Sorting.BeforeTotal | yatl/todo.py:27-28 | of any two tasks, one may stand before the other |
| Sorting.BeforeTransitive | yatl/todo.py:27-28 | the canonical order is transitive |
| Sorting.BeforeAntisymmetric | yatl/todo.py:27-28 | two tasks that may each stand before the other tie on priority, importance and datetime |
| Sorting.Insert | yatl/todo.py:27-29 | inserting a row adds exactly that row: one more row, the multiset grows by that row |
| Sorting.SortRows | yatl/todo.py:27-29 | the sort keeps the table's length and is a permutation of its rows |
| Sorting.SortRowsSorted | yatl/todo.py:27-29 | after the sort, rows run by priority descending, then importance descending, then datetime ascending |
| Sorting.SortRowsStrip | yatl/todo.py:27-29 | the sort keeps the multiset of tasks |
| Sorting.SortRowsIdempotent | yatl/todo.py:27-29 | sorting a table that is already in canonical order leaves it exactly as it was |
| Sorting.SortRowsRangeIndex | yatl/todo.py:27-29 | the sort keeps each label with its row, so the labels remain distinct and below the row count |
| TodoList.Midpoint | yatl/todo.py:15 | the value split is equidistant from both ends of the value range and lies inside it |
| TodoList.Load | yatl/todo.py:18-24 | with no file the table is empty; otherwise it holds exactly the file's rows, each labelled by its file position, sorted; labels are 0 to n-1 |
| TodoList.SortRowsLabels | yatl/todo.py:20-24 | after the sort that follows a read, each row's label still points to its task's line in the file |
| TodoList.AddRows | yatl/todo.py:43-44 | appending and sorting adds exactly one row, the new task, labelled n; each old row is still present, relabelled with its former position; the table is sorted with labels 0 to n |
| TodoList.CompleteOutcome | yatl/todo.py:47-56 | mark_complete fails with a key error exactly when no row has the label, reports already-completed exactly when that row's cell parses (`Parses`: a stamp or an empty cell, where the timestamp parse returns; not False, where it raises), and stamps exactly when it does not |
| TodoList.CompleteRows | yatl/todo.py:49-53 | completion changes only the completed cell of the labelled row, and only if that cell does not parse; order, labels and every other row and column are unchanged |
| TodoList.CompleteKeepsOrder | yatl/todo.py:52 | stamping a completion keeps the table sorted and its labels 0 to n-1, so no re-sort is needed |
| TodoList.CompleteIsFinal | yatl/todo.py:50-56 | once a row is stamped, marking it again reports already-completed and changes nothing: completion is never overwritten |
| TodoList.ReloadAfterSave | yatl/todo.py:18-32 | loading a saved table gives back the same tasks in the same order, labelled by position |
| TodoList.AddKeepsPriorities | yatl/todo.py:40-44 | if every row's priority equals its importance over its cost, that still holds after add_task |
| TodoList.CompleteKeepsPriorities | yatl/todo.py:49-53 | stamping a completion keeps every row's priority equal to its importance over its cost |
| TodoList.LoadKeepsPriorities | yatl/todo.py:20-24 | loading a file whose rows have derived priorities gives a table whose rows do too |
| TodoList.Todo.constructor | yatl/todo.py:12-16 | opening the store loads the file and sets the value split to the midpoint of the value range |
| TodoList.Todo.ReadList | yatl/todo.py:18-24 | reading the store's own file (the persisted contents), the table becomes the loaded file: empty if missing, else the file's rows sorted |
| TodoList.Todo.SortList | yatl/todo.py:26-29 | sorts in place into canonical order, as a permutation that keeps labels with rows |
| TodoList.Todo.Save | yatl/todo.py:31-32 | the file then holds the table's tasks in table order, without labels |
| TodoList.Todo.AddTask | yatl/todo.py:34-45 | on zero cost: fails and changes neither table nor file; otherwise the table is the sorted table plus the new incomplete row labelled n with priority importance/cost, and the file equals the table |
| TodoList.Todo.MarkComplete | yatl/todo.py:47-56 | stamps the labelled row with `now` and saves only if its cell does not parse; on an already-completed row or a missing label, the table and file are untouched |

## Left out

- `review` and `plot` are left out. They print and draw, and do not change the store.
- `_plot_offset` is left out. It is random jitter for drawing.
- `yatl/gui.py`, `yatla.py` and `yatla-cli.py` are not part of this model. They hold the widgets, the path resolution and the command-line dispatch.
- CSV reading and writing are modelled only by the rows they carry. This model does not cover:
  - column order and header handling;
  - the error on an existing empty file;
  - the types pandas infers for columns.
- Any cell value that pandas' timestamp parse accepts counts as `CompletedAt`. The stamp text is not checked against the `%Y-%m-%d %H:%M:%S` format.
- The clock is a `now` parameter of `AddTask` and `MarkComplete`. Nothing relates it to creation stamps, so "completed at or after creation" is not stated.
- Importance, cost and priority are reals. IEEE rounding, infinities and NaN ordering in the division and the sort are not modelled.
- The message that `mark_complete` prints for an already-completed task is not modelled. The model returns `AlreadyCompleted` instead.
- `TodoList.Todo.MarkComplete`: requires distinct labels (`Valid`). The store guarantees this itself. The behaviour of a label lookup that matches several rows is not modelled.
- `TodoList.CompleteOutcome`: requires distinct labels, for the same reason as `MarkComplete`.
- `TodoList.CompleteRows`: requires distinct labels, for the same reason as `MarkComplete`.
- `Sorting.SortRows`: the sort is stable by construction, which is the order the multi-key sort produces. No lemma states stability separately.
- The store path is not modelled. The file is the `persisted` field.
- `yatl/todo.py` has no code for the following, so they are not modelled:
  - the shadow temporary file and the commit protocol;
  - delete and un-complete;
  - stable ids;
  - bounds checks on importance and cost.
