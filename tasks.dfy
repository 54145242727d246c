/** The scheduler's records: a scheduled task row, a task execution row and
    the store (database session) holding both tables. The record layout
    follows how `execution.py` and `service.py` use the ORM models; the
    model file itself is not part of this model. */
module Tasks {
  import opened Common
  import opened Calendar
  import opened TextFormats

  datatype RecurrenceType = Once | Daily | Weekly | Monthly

  datatype TaskStatus = Active | Paused | Completed | Pending

  datatype TaskExecutionStatus = Running | Success | Failed

  /** The exceptions the scheduler code raises: its own `SchedulerException`,
      the `ValueError` / `IndexError` that parsing a malformed time or
      building an out-of-range `datetime` raises, and the `OverflowError` of
      a date moved past `date.max`. */
  datatype SchedulerError = SchedulerException(message: string) | ValueError | IndexError | OverflowError

  datatype ScheduledTask = ScheduledTask(
    id: Id,
    userId: Id,
    taskName: string,
    promptMessage: string,
    recurrenceType: RecurrenceType,
    scheduledTime: string,
    scheduledDay: Option<int>,
    nextExecution: Option<Instant>,
    modelId: string,
    permissionMode: string,
    thinkingMode: Option<string>,
    status: TaskStatus,
    enabled: bool,
    executionCount: int,
    failureCount: int,
    lastExecution: Option<Instant>,
    lastError: Option<string>)

  datatype TaskExecution = TaskExecution(id: Id, taskId: Id, executedAt: Instant, status: TaskExecutionStatus)

  /** The two tables as the database session sees them. A committed change
      replaces rows; an exception before the commit leaves both untouched. */
  class TaskStore {
    var tasks: seq<ScheduledTask>
    var executions: seq<TaskExecution>

    constructor (tasks: seq<ScheduledTask>, executions: seq<TaskExecution>)
      ensures this.tasks == tasks && this.executions == executions
    {
      this.tasks := tasks;
      this.executions := executions;
    }
  }

  /** `select(ScheduledTask).where(ScheduledTask.id == id)`: the first row with that id. */
  function FindTask(rows: seq<ScheduledTask>, id: Id): (r: Option<nat>)
    ensures r.Some? ==> r.value < |rows| && rows[r.value].id == id
    ensures r.Some? ==> forall j :: 0 <= j < r.value ==> rows[j].id != id
    ensures r.None? <==> forall j :: 0 <= j < |rows| ==> rows[j].id != id
  {
    if rows == [] then None
    else if rows[0].id == id then Some(0)
    else match FindTask(rows[1..], id)
      case None => None
      case Some(k) => Some(k + 1)
  }

  /** `_get_user_task`: the row with that id that also belongs to `userId`. */
  function FindUserTask(rows: seq<ScheduledTask>, id: Id, userId: Id): (r: Option<nat>)
    ensures r.Some? ==> r.value < |rows| && rows[r.value].id == id && rows[r.value].userId == userId
    ensures r.Some? ==> forall j :: 0 <= j < r.value ==> !(rows[j].id == id && rows[j].userId == userId)
    ensures r.None? <==> forall j :: 0 <= j < |rows| ==> !(rows[j].id == id && rows[j].userId == userId)
  {
    if rows == [] then None
    else if rows[0].id == id && rows[0].userId == userId then Some(0)
    else match FindUserTask(rows[1..], id, userId)
      case None => None
      case Some(k) => Some(k + 1)
  }
}
