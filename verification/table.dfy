/**
 * The todo table: a sequence of rows in display order, each carrying the
 * index label the table gives it (a label, not a position). Labels are what
 * mark_complete addresses, and a sort moves them with their rows.
 */
module Table {
  import opened Wrappers
  import opened Tasks

  datatype Row = Row(index: nat, task: Task)

  /** The tasks in order with their labels dropped: what a save writes to the file. */
  function Strip(rows: seq<Row>): (r: seq<Task>)
    ensures |r| == |rows|
    ensures forall k :: 0 <= k < |rows| ==> r[k] == rows[k].task
  {
    if rows == [] then [] else [rows[0].task] + Strip(rows[1..])
  }

  /** A fresh table over `tasks`: each row labelled by its position, 0 to n-1. */
  function Labelled(tasks: seq<Task>): (r: seq<Row>)
    ensures Strip(r) == tasks
    ensures RangeIndex(r)
  {
    seq(|tasks|, k requires 0 <= k < |tasks| => Row(k, tasks[k]))
  }

  /** The labels are distinct and below the row count, so they are exactly 0 to n-1 in some order. */
  predicate RangeIndex(rows: seq<Row>)
  {
    && (forall k :: 0 <= k < |rows| ==> rows[k].index < |rows|)
    && (forall i, j :: 0 <= i < j < |rows| ==> rows[i].index != rows[j].index)
  }

  /** A row of a fresh table remembers, in its index label, where its task stood. */
  lemma InLabelled(tasks: seq<Task>, y: Row)
    requires y in Labelled(tasks)
    ensures y.index < |tasks| && tasks[y.index] == y.task
  {
    var k :| 0 <= k < |tasks| && Labelled(tasks)[k] == y;
  }

  /** The position of the row whose index label is `index`: a lookup by label, not by position. */
  function PositionOf(rows: seq<Row>, index: int): (r: Option<nat>)
    ensures r.Some? ==> r.value < |rows| && rows[r.value].index == index
    ensures r.None? <==> forall k :: 0 <= k < |rows| ==> rows[k].index != index
  {
    if rows == [] then None
    else if rows[0].index == index then Some(0)
    else match PositionOf(rows[1..], index)
      case None => None
      case Some(p) => Some(p + 1)
  }
}
