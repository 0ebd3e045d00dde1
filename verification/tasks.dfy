/** One task: the six columns of a row of the todo table. */
module Tasks {
  import opened Wrappers
  import opened Timestamps

  /**
   * The `completed` cell, as the store reads it back through a timestamp parse.
   * Incomplete: the cell holds False (or the text "False" after a reload), so
   * the parse fails. Blank: an empty cell, read back as a missing value, which
   * the parse accepts (it yields "not a time") without failing. CompletedAt: a
   * completion stamp.
   */
  datatype Completion = Incomplete | Blank | CompletedAt(when: Timestamp)

  /** The timestamp parse of the cell succeeds, so the task counts as completed. */
  predicate Parses(c: Completion)
  {
    !c.Incomplete?
  }

  datatype Task = Task(
    datetime: Timestamp,
    description: string,
    importance: real,
    cost: real,
    priority: real,
    completed: Completion)

  datatype Error = ZeroDivision | KeyNotFound(index: int)

  /** The task's priority is its importance divided by its cost. */
  predicate PriorityDerived(t: Task)
  {
    t.cost != 0.0 && t.priority * t.cost == t.importance
  }

  predicate AllDerived(tasks: seq<Task>)
  {
    forall t :: t in tasks ==> PriorityDerived(t)
  }

  /**
   * The row that add_task builds, created at `now`. The division fails on a
   * zero cost while the row is being built.
   */
  function NewTask(now: Timestamp, description: string, importance: real, cost: real): (r: Result<Task, Error>)
    ensures r.Failure? <==> cost == 0.0
    ensures r.Failure? ==> r.error == ZeroDivision
    ensures r.Success? ==> PriorityDerived(r.value) && r.value.importance == importance && r.value.cost == cost
    ensures r.Success? ==> r.value.datetime == now && r.value.description == description
    ensures r.Success? ==> r.value.completed == Incomplete && !Parses(r.value.completed)
  {
    if cost == 0.0 then Failure(ZeroDivision)
    else Success(Task(now, description, importance, cost, importance / cost, Incomplete))
  }
}
