/**
 * The todo store: a table of tasks kept in canonical order, loaded from a
 * file, saved after every change, grown by add_task and stamped by
 * mark_complete. The file is modelled by its contents: None when there is no
 * file at the store's path, Some(tasks) for the rows it holds in file order.
 */
module TodoList {
  import opened Wrappers
  import opened Timestamps
  import opened Tasks
  import opened Table
  import opened Sorting

  /** What mark_complete reports. A missing index label raises; the other two return normally. */
  datatype MarkResult = Stamped | AlreadyCompleted | Failed(error: Error)

  /** The boundary between the quadrants of the importance/cost plane: the mean of the value range. */
  function Midpoint(lo: real, hi: real): (m: real)
    ensures m - lo == hi - m
    ensures lo <= hi ==> lo <= m <= hi
  {
    (lo + hi) / 2.0
  }

  /**
   * The table a load yields. With no file it is empty (and not sorted, which
   * an empty table need not be). Otherwise the file's rows get index labels 0 to
   * n-1 in file order and are then sorted, each keeping its label.
   */
  function Load(file: Option<seq<Task>>): (r: seq<Row>)
    ensures file.None? ==> r == []
    ensures file.Some? ==> |r| == |file.value| && multiset(Strip(r)) == multiset(file.value)
    ensures file.Some? ==> forall k :: 0 <= k < |r| ==> r[k].index < |file.value| && file.value[r[k].index] == r[k].task
    ensures Sorted(r) && RangeIndex(r)
  {
    match file
    case None => []
    case Some(tasks) =>
      SortRowsSorted(Labelled(tasks));
      SortRowsStrip(Labelled(tasks));
      SortRowsRangeIndex(Labelled(tasks));
      SortRowsLabels(tasks);
      SortRows(Labelled(tasks))
  }

  lemma SortRowsLabels(tasks: seq<Task>)
    ensures forall y :: y in SortRows(Labelled(tasks)) ==> y.index < |tasks| && tasks[y.index] == y.task
  {
    forall y | y in SortRows(Labelled(tasks)) ensures y.index < |tasks| && tasks[y.index] == y.task {
      assert y in multiset(Labelled(tasks));
      InLabelled(tasks, y);
    }
  }

  /**
   * The table after add_task appends `task`: the append renumbers the index
   * labels 0 to n in the current order (the new row last, labelled n), then
   * the table is sorted.
   */
  function AddRows(rows: seq<Row>, task: Task): (r: seq<Row>)
    ensures |r| == |rows| + 1
    ensures multiset(Strip(r)) == multiset(Strip(rows)) + multiset{task}
    ensures Row(|rows|, task) in r
    ensures forall k :: 0 <= k < |rows| ==> Row(k, rows[k].task) in r
    ensures Sorted(r) && RangeIndex(r)
  {
    var appended := Labelled(Strip(rows) + [task]);
    SortRowsSorted(appended);
    SortRowsStrip(appended);
    SortRowsRangeIndex(appended);
    assert appended[|rows|] == Row(|rows|, task) && appended[|rows|] in multiset(appended);
    forall k | 0 <= k < |rows| ensures Row(k, rows[k].task) in SortRows(appended) {
      assert appended[k] == Row(k, rows[k].task) && appended[k] in multiset(appended);
    }
    SortRows(appended)
  }

  /** What mark_complete(index) reports on `rows`. */
  function CompleteOutcome(rows: seq<Row>, index: int): (r: MarkResult)
    requires RangeIndex(rows)
    ensures r.Failed? <==> forall k :: 0 <= k < |rows| ==> rows[k].index != index
    ensures r.Failed? ==> r.error == KeyNotFound(index)
    ensures r.Stamped? <==> exists k :: 0 <= k < |rows| && rows[k].index == index && !Parses(rows[k].task.completed)
    ensures r.AlreadyCompleted? <==> exists k :: 0 <= k < |rows| && rows[k].index == index && Parses(rows[k].task.completed)
  {
    match PositionOf(rows, index)
    case None => Failed(KeyNotFound(index))
    case Some(p) => if Parses(rows[p].task.completed) then AlreadyCompleted else Stamped
  }

  /**
   * The table after mark_complete(index) at time `now`: the row labelled
   * `index` gets completion stamp `now` unless its cell already parses as a
   * time; nothing else changes.
   */
  function CompleteRows(rows: seq<Row>, index: int, now: Timestamp): (r: seq<Row>)
    requires RangeIndex(rows)
    ensures |r| == |rows|
    ensures forall k :: 0 <= k < |rows| ==> r[k].index == rows[k].index
    ensures forall k :: 0 <= k < |rows| && (rows[k].index != index || Parses(rows[k].task.completed)) ==> r[k] == rows[k]
    ensures forall k :: 0 <= k < |rows| && rows[k].index == index && !Parses(rows[k].task.completed) ==>
      r[k].task == rows[k].task.(completed := CompletedAt(now))
  {
    match PositionOf(rows, index)
    case None => rows
    case Some(p) =>
      if Parses(rows[p].task.completed) then rows
      else rows[p := Row(rows[p].index, rows[p].task.(completed := CompletedAt(now)))]
  }

  /** Completing a task leaves the table in canonical order, with the same index labels. */
  lemma CompleteKeepsOrder(rows: seq<Row>, index: int, now: Timestamp)
    requires Sorted(rows) && RangeIndex(rows)
    ensures Sorted(CompleteRows(rows, index, now)) && RangeIndex(CompleteRows(rows, index, now))
  {
  }

  /**
   * Completion is never overwritten: once mark_complete has stamped a task, a
   * second mark_complete of it reports AlreadyCompleted and changes nothing.
   */
  lemma CompleteIsFinal(rows: seq<Row>, index: int, first: Timestamp, second: Timestamp)
    requires RangeIndex(rows) && CompleteOutcome(rows, index).Stamped?
    ensures RangeIndex(CompleteRows(rows, index, first))
    ensures CompleteOutcome(CompleteRows(rows, index, first), index) == AlreadyCompleted
    ensures CompleteRows(CompleteRows(rows, index, first), index, second) == CompleteRows(rows, index, first)
  {
    var once := CompleteRows(rows, index, first);
    var k :| 0 <= k < |rows| && rows[k].index == index && !Parses(rows[k].task.completed);
    assert Parses(once[k].task.completed);
  }

  /**
   * Saving and loading again gives back the same tasks in the same order: a
   * saved table is already sorted, and a re-sort leaves it unchanged. The
   * reloaded rows are labelled by position.
   */
  lemma {:induction false} ReloadAfterSave(rows: seq<Row>)
    requires Sorted(rows)
    ensures Load(Some(Strip(rows))) == Labelled(Strip(rows))
    ensures Strip(Load(Some(Strip(rows)))) == Strip(rows)
  {
    var reopened := Labelled(Strip(rows));
    assert Sorted(reopened) by {
      forall i, j | 0 <= i < j < |reopened| ensures Before(reopened[i].task, reopened[j].task) {
        assert reopened[i].task == rows[i].task && reopened[j].task == rows[j].task;
      }
    }
    SortRowsIdempotent(reopened);
  }

  /** add_task keeps the priority of every row equal to its importance over its cost. */
  lemma AddKeepsPriorities(rows: seq<Row>, task: Task)
    requires AllDerived(Strip(rows)) && PriorityDerived(task)
    ensures AllDerived(Strip(AddRows(rows, task)))
  {
    var r := Strip(AddRows(rows, task));
    forall t | t in r ensures PriorityDerived(t) {
      assert t in multiset(r);
    }
  }

  /** mark_complete touches only the completed cell, so every row keeps its derived priority. */
  lemma CompleteKeepsPriorities(rows: seq<Row>, index: int, now: Timestamp)
    requires RangeIndex(rows) && AllDerived(Strip(rows))
    ensures AllDerived(Strip(CompleteRows(rows, index, now)))
  {
    var after := CompleteRows(rows, index, now);
    var before, stamped := Strip(rows), Strip(after);
    forall t | t in stamped ensures PriorityDerived(t) {
      var k :| 0 <= k < |stamped| && stamped[k] == t;
      assert before[k] in before;
      assert t == before[k] || t == before[k].(completed := CompletedAt(now));
    }
  }

  /** A load keeps the priorities of the file's rows as they were. */
  lemma LoadKeepsPriorities(tasks: seq<Task>)
    requires AllDerived(tasks)
    ensures AllDerived(Strip(Load(Some(tasks))))
  {
    var r := Strip(Load(Some(tasks)));
    forall t | t in r ensures PriorityDerived(t) {
      assert t in multiset(r);
    }
  }

  /** The store. `persisted` stands for the contents of the file at the store's path. */
  class Todo {
    var rows: seq<Row>
    ghost var persisted: Option<seq<Task>>
    const valueMin: real
    const valueMax: real
    const valueSplit: real

    /** The table is in canonical order and its index labels are 0 to n-1. */
    ghost predicate Valid()
      reads this
    {
      Sorted(rows) && RangeIndex(rows)
    }

    /** Opens the store over `file`, with the value range valueMin..valueMax. */
    constructor (file: Option<seq<Task>>, valueMin: real := 1.0, valueMax: real := 4.0)
      ensures Valid()
      ensures rows == Load(file) && persisted == file
      ensures this.valueMin == valueMin && this.valueMax == valueMax
      ensures valueSplit == Midpoint(valueMin, valueMax)
    {
      this.valueMin := valueMin;
      this.valueMax := valueMax;
      valueSplit := Midpoint(valueMin, valueMax);
      rows := [];
      persisted := file;
      new;
      ReadList(file);
    }

    /** Reads the table from the store's own file: empty if there is no file, else the file's rows, sorted. */
    method ReadList(file: Option<seq<Task>>)
      requires file == persisted
      modifies this`rows
      ensures Valid()
      ensures rows == Load(file)
    {
      match file
      case None =>
        rows := [];
      case Some(tasks) =>
        rows := Labelled(tasks);
        SortList();
    }

    /** Sorts the table in place into canonical order; every row keeps its index label. */
    method SortList()
      modifies this`rows
      ensures rows == SortRows(old(rows))
      ensures Sorted(rows) && multiset(rows) == multiset(old(rows))
      ensures RangeIndex(old(rows)) ==> RangeIndex(rows)
    {
      SortRowsSorted(rows);
      if RangeIndex(rows) {
        SortRowsRangeIndex(rows);
      }
      rows := SortRows(rows);
    }

    /** Writes the table to the file, without its index labels. */
    method Save()
      modifies this`persisted
      ensures persisted == Some(Strip(rows))
    {
      persisted := Some(Strip(rows));
    }

    /**
     * Adds a task created at `now`, sorts and saves. A zero cost fails while
     * the row is built, before anything is appended or saved.
     */
    method AddTask(description: string, importance: real, cost: real, now: Timestamp) returns (r: Outcome<Error>)
      requires Valid()
      modifies this
      ensures Valid()
      ensures r.Fail? <==> cost == 0.0
      ensures r.Fail? ==> r.error == ZeroDivision && rows == old(rows) && persisted == old(persisted)
      ensures r.Pass? ==> rows == AddRows(old(rows), Task(now, description, importance, cost, importance / cost, Incomplete))
      ensures r.Pass? ==> exists k :: (0 <= k < |rows| && rows[k].index == |old(rows)| &&
                                       PriorityDerived(rows[k].task) && rows[k].task.completed == Incomplete)
      ensures r.Pass? ==> persisted == Some(Strip(rows))
    {
      var built := NewTask(now, description, importance, cost);
      if built.Failure? {
        return Fail(built.error);
      }
      var task := built.value;
      ghost var before := rows;
      rows := Labelled(Strip(rows) + [task]);
      SortList();
      assert rows == AddRows(before, task);
      ghost var k :| 0 <= k < |rows| && rows[k] == Row(|before|, task);
      assert PriorityDerived(rows[k].task);
      Save();
      r := Pass;
    }

    /**
     * Stamps the task whose index label is `index` as completed at `now` and
     * saves, unless its completion cell already parses as a time: then nothing
     * changes and nothing is saved. A label not in the table fails.
     */
    method MarkComplete(index: int, now: Timestamp) returns (r: MarkResult)
      requires Valid()
      modifies this
      ensures Valid()
      ensures r == CompleteOutcome(old(rows), index)
      ensures rows == CompleteRows(old(rows), index, now)
      ensures r.Stamped? ==> persisted == Some(Strip(rows))
      ensures !r.Stamped? ==> rows == old(rows) && persisted == old(persisted)
    {
      var p := PositionOf(rows, index);
      if p.None? {
        return Failed(KeyNotFound(index));
      }
      var k := p.value;
      if Parses(rows[k].task.completed) {
        return AlreadyCompleted;
      }
      CompleteKeepsOrder(rows, index, now);
      rows := rows[k := Row(rows[k].index, rows[k].task.(completed := CompletedAt(now)))];
      Save();
      r := Stamped;
    }
  }
}
