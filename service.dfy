/** `SchedulerService`: a user's scheduled tasks, the cap on active ones,
    enabling and disabling, field updates and the paged execution history.
    Every operation works on the rows of a `TaskStore`; an exception raised
    before the commit leaves the store as it was. */
module Scheduler {
  import opened Common
  import opened Calendar
  import opened TextFormats
  import opened Sorting
  import opened Tasks
  import opened Recurrence
  import Execution

  const MaxTasksPerUser: nat := 10

  const NotFound: string := "Scheduled task not found"
  const CapOnEnable: string := "Maximum number of active tasks (10) reached. Please disable another task first."
  const CapOnCreate: string := "Maximum number of active tasks (10) reached. Please delete or disable an existing task."
  const EnabledNotBool: string := "enabled must be a boolean value"

  /** A row that `_validate_task_limit` counts for `userId`, optionally skipping one task id. */
  predicate CountsTowardLimit(t: ScheduledTask, userId: Id, exclude: Option<Id>)
  {
    t.userId == userId && t.enabled && (t.status == Active || t.status == Pending) &&
    (exclude.Some? ==> t.id != exclude.value)
  }

  /** The `func.count` of `_validate_task_limit`. */
  function ActiveTaskCount(rows: seq<ScheduledTask>, userId: Id, exclude: Option<Id>): (n: nat)
    ensures n <= |rows|
    ensures n == 0 <==> forall i :: 0 <= i < |rows| ==> !CountsTowardLimit(rows[i], userId, exclude)
  {
    if rows == [] then 0
    else (if CountsTowardLimit(rows[0], userId, exclude) then 1 else 0) + ActiveTaskCount(rows[1..], userId, exclude)
  }

  /** `_validate_task_limit`: true while the user is below the cap. Leaving a
      task out of the count never turns a pass into a failure, and a table of
      fewer than ten rows always passes. */
  predicate WithinTaskLimit(rows: seq<ScheduledTask>, userId: Id, exclude: Option<Id>)
    ensures ActiveTaskCount(rows, userId, None) < MaxTasksPerUser ==> WithinTaskLimit(rows, userId, exclude)
    ensures |rows| < MaxTasksPerUser ==> WithinTaskLimit(rows, userId, exclude)
  {
    CountExcludingLe(rows, userId, exclude);
    ActiveTaskCount(rows, userId, exclude) < MaxTasksPerUser
  }

  lemma {:induction false} CountExcludingLe(rows: seq<ScheduledTask>, userId: Id, exclude: Option<Id>)
    ensures ActiveTaskCount(rows, userId, exclude) <= ActiveTaskCount(rows, userId, None)
    decreases |rows|
  {
    if rows != [] {
      CountExcludingLe(rows[1..], userId, exclude);
    }
  }

  /** `get_task`: the user's own task with that id, or "Scheduled task not found". */
  function GetTask(rows: seq<ScheduledTask>, taskId: Id, userId: Id): (r: Result<ScheduledTask, SchedulerError>)
    ensures r.Ok? ==> r.value in rows && r.value.id == taskId && r.value.userId == userId
    ensures r.Err? <==> forall i :: 0 <= i < |rows| ==> !(rows[i].id == taskId && rows[i].userId == userId)
    ensures r.Err? ==> r.error == SchedulerException(NotFound)
  {
    match FindUserTask(rows, taskId, userId)
    case None => Err(SchedulerException(NotFound))
    case Some(i) => Ok(rows[i])
  }

  // -----------------------------------------------------------------------
  // Enabling

  /** The next run is recomputed when there is none or the schedule changed. */
  predicate NeedsNextRun(t: ScheduledTask, recurrenceChanged: bool, timeChanged: bool, dayChanged: bool)
  {
    t.nextExecution.None? || recurrenceChanged || timeChanged || dayChanged
  }

  /** `_enable_task` on task `t` of `userId`, with the other rows in `rows`.
      Unless `skip` is set it validates the recurrence and the cap (not
      counting `t` itself); then the task is enabled, ACTIVE, without a last
      error, and its next run is recomputed from `now` when it had none or
      its schedule changed. */
  function EnableTask(t: ScheduledTask, rows: seq<ScheduledTask>, userId: Id,
                      recurrenceChanged: bool, timeChanged: bool, dayChanged: bool, skip: bool, now: Instant)
    : (r: Result<ScheduledTask, SchedulerError>)
    ensures !skip && ValidateRecurrenceConstraints(t.recurrenceType, t.scheduledDay).Err? ==>
      r == Err(ValidateRecurrenceConstraints(t.recurrenceType, t.scheduledDay).error)
    ensures (!skip && ValidateRecurrenceConstraints(t.recurrenceType, t.scheduledDay).Ok? &&
             !WithinTaskLimit(rows, userId, Some(t.id))) ==> r == Err(SchedulerException(CapOnEnable))
    ensures skip || (ValidateRecurrenceConstraints(t.recurrenceType, t.scheduledDay).Ok? && WithinTaskLimit(rows, userId, Some(t.id))) ==>
      (r.Ok? <==> !NeedsNextRun(t, recurrenceChanged, timeChanged, dayChanged) ||
                  CalculateInitialNextExecution(t.recurrenceType, t.scheduledTime, t.scheduledDay, now).Ok?)
    ensures (NeedsNextRun(t, recurrenceChanged, timeChanged, dayChanged) &&
             CalculateInitialNextExecution(t.recurrenceType, t.scheduledTime, t.scheduledDay, now).Err?) ==> r.Err?
    ensures r.Ok? ==>
      r.value == t.(enabled := true, status := Active, lastError := None, nextExecution := r.value.nextExecution)
    ensures r.Ok? && NeedsNextRun(t, recurrenceChanged, timeChanged, dayChanged) ==>
      r.value.nextExecution == Some(CalculateInitialNextExecution(t.recurrenceType, t.scheduledTime, t.scheduledDay, now).value) &&
      Stamp(now) < Stamp(r.value.nextExecution.value)
    ensures r.Ok? && !NeedsNextRun(t, recurrenceChanged, timeChanged, dayChanged) ==>
      r.value.nextExecution == t.nextExecution
  {
    if !skip && ValidateRecurrenceConstraints(t.recurrenceType, t.scheduledDay).Err? then
      Err(ValidateRecurrenceConstraints(t.recurrenceType, t.scheduledDay).error)
    else if !skip && !WithinTaskLimit(rows, userId, Some(t.id)) then
      Err(SchedulerException(CapOnEnable))
    else
      var u := t.(enabled := true, status := Active, lastError := None);
      if NeedsNextRun(t, recurrenceChanged, timeChanged, dayChanged) then
        match CalculateInitialNextExecution(t.recurrenceType, t.scheduledTime, t.scheduledDay, now)
        case Err(e) => Err(e)
        case Ok(n) => Ok(u.(nextExecution := Some(n)))
      else Ok(u)
  }

  // -----------------------------------------------------------------------
  // Creating

  /** A `ScheduledTaskBase`: what a client supplies for a new task. */
  datatype TaskDraft = TaskDraft(
    taskName: string,
    promptMessage: string,
    recurrenceType: RecurrenceType,
    scheduledTime: string,
    scheduledDay: Option<int>,
    modelId: string)

  /** The row `create_task` adds: the cap is checked first, then the
      recurrence, then the first run is computed from `now`. The counters
      start at the column defaults (0, no last run, no last error). */
  function NewTask(rows: seq<ScheduledTask>, userId: Id, data: TaskDraft, newId: Id, now: Instant)
    : (r: Result<ScheduledTask, SchedulerError>)
    ensures !WithinTaskLimit(rows, userId, None) ==>
      r == Err(SchedulerException(CapOnCreate))
    ensures WithinTaskLimit(rows, userId, None) && ValidateRecurrenceConstraints(data.recurrenceType, data.scheduledDay).Err? ==>
      r == Err(ValidateRecurrenceConstraints(data.recurrenceType, data.scheduledDay).error)
    ensures r.Ok? <==>
      WithinTaskLimit(rows, userId, None) &&
      ValidateRecurrenceConstraints(data.recurrenceType, data.scheduledDay).Ok? &&
      CalculateInitialNextExecution(data.recurrenceType, data.scheduledTime, data.scheduledDay, now).Ok?
    ensures r.Ok? ==>
      r.value.id == newId && r.value.userId == userId &&
      r.value.taskName == data.taskName && r.value.promptMessage == data.promptMessage &&
      r.value.recurrenceType == data.recurrenceType && r.value.scheduledTime == data.scheduledTime &&
      r.value.scheduledDay == data.scheduledDay && r.value.modelId == data.modelId &&
      r.value.permissionMode == "auto" && r.value.thinkingMode == Some("ultra") &&
      r.value.enabled && r.value.status == Active &&
      r.value.executionCount == 0 && r.value.failureCount == 0 &&
      r.value.lastExecution == None && r.value.lastError == None &&
      r.value.nextExecution == Some(CalculateInitialNextExecution(data.recurrenceType, data.scheduledTime, data.scheduledDay, now).value) &&
      Stamp(now) < Stamp(r.value.nextExecution.value)
  {
    if !WithinTaskLimit(rows, userId, None) then
      Err(SchedulerException(CapOnCreate))
    else if ValidateRecurrenceConstraints(data.recurrenceType, data.scheduledDay).Err? then
      Err(ValidateRecurrenceConstraints(data.recurrenceType, data.scheduledDay).error)
    else
      match CalculateInitialNextExecution(data.recurrenceType, data.scheduledTime, data.scheduledDay, now)
      case Err(e) => Err(e)
      case Ok(n) =>
        Ok(ScheduledTask(newId, userId, data.taskName, data.promptMessage, data.recurrenceType,
                         data.scheduledTime, data.scheduledDay, Some(n), data.modelId, "auto", Some("ultra"),
                         Active, true, 0, 0, None, None))
  }

  /** `create_task`; `newId` is the primary key the database assigns. */
  method CreateTask(store: TaskStore, userId: Id, data: TaskDraft, newId: Id, now: Instant)
    returns (r: Result<ScheduledTask, SchedulerError>)
    modifies store
    ensures r == NewTask(old(store.tasks), userId, data, newId, now)
    ensures r.Ok? ==> store.tasks == old(store.tasks) + [r.value]
    ensures r.Err? ==> store.tasks == old(store.tasks)
    ensures store.executions == old(store.executions)
  {
    r := NewTask(store.tasks, userId, data, newId, now);
    if r.Ok? {
      store.tasks := store.tasks + [r.value];
    }
  }

  // -----------------------------------------------------------------------
  // Updating

  /** One entry of `task_update.model_dump(exclude_unset=True)` other than `enabled`. */
  datatype FieldUpdate =
    | SetTaskName(taskName: string)
    | SetPromptMessage(promptMessage: string)
    | SetRecurrenceType(recurrenceType: RecurrenceType)
    | SetScheduledTime(scheduledTime: string)
    | SetScheduledDay(scheduledDay: Option<int>)
    | SetModelId(modelId: string)

  /** The fields a client set, and `enabled`: absent (`None`), set to null
      (`Some(None)`) or set to a boolean. */
  datatype TaskUpdate = TaskUpdate(fields: seq<FieldUpdate>, enabled: Option<Option<bool>>)

  /** Which field an entry sets. */
  function FieldKey(f: FieldUpdate): nat
  {
    match f
    case SetTaskName(_) => 0
    case SetPromptMessage(_) => 1
    case SetRecurrenceType(_) => 2
    case SetScheduledTime(_) => 3
    case SetScheduledDay(_) => 4
    case SetModelId(_) => 5
  }

  /** A dictionary holds each field at most once. */
  predicate DistinctFields(fs: seq<FieldUpdate>)
  {
    forall k, l :: 0 <= k < l < |fs| ==> FieldKey(fs[k]) != FieldKey(fs[l])
  }

  /** `setattr(task, field, value)`. */
  function Apply(t: ScheduledTask, f: FieldUpdate): (u: ScheduledTask)
  {
    match f
    case SetTaskName(v) => t.(taskName := v)
    case SetPromptMessage(v) => t.(promptMessage := v)
    case SetRecurrenceType(v) => t.(recurrenceType := v)
    case SetScheduledTime(v) => t.(scheduledTime := v)
    case SetScheduledDay(v) => t.(scheduledDay := v)
    case SetModelId(v) => t.(modelId := v)
  }

  /** The `setattr` loop over the entries, in order. */
  function ApplyAll(t: ScheduledTask, fs: seq<FieldUpdate>): (u: ScheduledTask)
    decreases |fs|
  {
    if fs == [] then t else Apply(ApplyAll(t, fs[..|fs| - 1]), fs[|fs| - 1])
  }

  /** The field `key` of an entry list is set, and to which entry. */
  predicate Sets(fs: seq<FieldUpdate>, key: nat)
  {
    exists k :: 0 <= k < |fs| && FieldKey(fs[k]) == key
  }

  /** Tasks `u` and `t` agree on field `key`. */
  predicate Agree(u: ScheduledTask, t: ScheduledTask, key: nat)
  {
    match key
    case 0 => u.taskName == t.taskName
    case 1 => u.promptMessage == t.promptMessage
    case 2 => u.recurrenceType == t.recurrenceType
    case 3 => u.scheduledTime == t.scheduledTime
    case 4 => u.scheduledDay == t.scheduledDay
    case 5 => u.modelId == t.modelId
    case _ => true
  }

  /** `u` is `t` with at most the six updatable fields changed. */
  predicate OnlyUpdatableChanged(u: ScheduledTask, t: ScheduledTask)
  {
    u == t.(taskName := u.taskName, promptMessage := u.promptMessage, recurrenceType := u.recurrenceType,
            scheduledTime := u.scheduledTime, scheduledDay := u.scheduledDay, modelId := u.modelId)
  }

  /** Only the fields the update names change. */
  lemma {:induction false} ApplyAllKeeps(t: ScheduledTask, fs: seq<FieldUpdate>)
    ensures OnlyUpdatableChanged(ApplyAll(t, fs), t)
    ensures forall key :: !Sets(fs, key) ==> Agree(ApplyAll(t, fs), t, key)
    decreases |fs|
  {
    if fs != [] {
      var init := fs[..|fs| - 1];
      ApplyAllKeeps(t, init);
      forall key | !Sets(fs, key)
        ensures Agree(ApplyAll(t, fs), t, key)
      {
        SetsPrefix(fs, |fs| - 1, key);
        assert FieldKey(fs[|fs| - 1]) != key;
      }
    }
  }

  lemma SetsPrefix(fs: seq<FieldUpdate>, n: nat, key: nat)
    requires n <= |fs|
    ensures Sets(fs[..n], key) ==> Sets(fs, key)
  {
    if Sets(fs[..n], key) {
      var k :| 0 <= k < n && FieldKey(fs[..n][k]) == key;
      assert fs[k] == fs[..n][k];
    }
  }

  /** Each field the update names holds the value it gives. */
  lemma {:induction false} ApplyAllSets(t: ScheduledTask, fs: seq<FieldUpdate>)
    requires DistinctFields(fs)
    ensures forall k :: 0 <= k < |fs| ==> FieldValue(ApplyAll(t, fs), fs[k])
    decreases |fs|
  {
    if fs != [] {
      var init := fs[..|fs| - 1];
      var last := fs[|fs| - 1];
      ApplyAllSets(t, init);
      forall k | 0 <= k < |fs|
        ensures FieldValue(ApplyAll(t, fs), fs[k])
      {
        if k < |fs| - 1 {
          assert fs[k] == init[k];
          assert FieldKey(fs[k]) != FieldKey(last);
          ApplyKeepsOther(ApplyAll(t, init), last, fs[k]);
        }
      }
    }
  }

  lemma ApplyKeepsOther(u: ScheduledTask, f: FieldUpdate, g: FieldUpdate)
    requires FieldKey(f) != FieldKey(g) && FieldValue(u, g)
    ensures FieldValue(Apply(u, f), g)
  {
  }

  /** Task `u` holds the value the entry sets. */
  predicate FieldValue(u: ScheduledTask, f: FieldUpdate)
  {
    match f
    case SetTaskName(v) => u.taskName == v
    case SetPromptMessage(v) => u.promptMessage == v
    case SetRecurrenceType(v) => u.recurrenceType == v
    case SetScheduledTime(v) => u.scheduledTime == v
    case SetScheduledDay(v) => u.scheduledDay == v
    case SetModelId(v) => u.modelId == v
  }

  /** The schedule fields: the ones whose change forces a new next run. */
  predicate ScheduleChanged(fs: seq<FieldUpdate>)
  {
    Sets(fs, 2) || Sets(fs, 3) || Sets(fs, 4)
  }

  /** After the fields: a changed schedule is validated and the next run recomputed from `now`. */
  function AfterFields(t: ScheduledTask, changed: bool, now: Instant): (r: Result<ScheduledTask, SchedulerError>)
    ensures !changed ==> r == Ok(t)
    ensures changed ==>
      (r.Ok? <==> ValidateRecurrenceConstraints(t.recurrenceType, t.scheduledDay).Ok? &&
                  CalculateInitialNextExecution(t.recurrenceType, t.scheduledTime, t.scheduledDay, now).Ok?)
    ensures changed && ValidateRecurrenceConstraints(t.recurrenceType, t.scheduledDay).Err? ==>
      r == Err(ValidateRecurrenceConstraints(t.recurrenceType, t.scheduledDay).error)
    ensures r.Ok? && changed ==>
      r.value == t.(nextExecution := Some(CalculateInitialNextExecution(t.recurrenceType, t.scheduledTime, t.scheduledDay, now).value)) &&
      Stamp(now) < Stamp(r.value.nextExecution.value)
  {
    if !changed then Ok(t)
    else if ValidateRecurrenceConstraints(t.recurrenceType, t.scheduledDay).Err? then
      Err(ValidateRecurrenceConstraints(t.recurrenceType, t.scheduledDay).error)
    else
      match CalculateInitialNextExecution(t.recurrenceType, t.scheduledTime, t.scheduledDay, now)
      case Err(e) => Err(e)
      case Ok(n) => Ok(t.(nextExecution := Some(n)))
  }

  /** The `enabled` entry: False pauses, True enables (validating only a
      task that was disabled), anything else is rejected. */
  function ApplyEnabled(t: ScheduledTask, enabled: Option<Option<bool>>, rows: seq<ScheduledTask>, userId: Id,
                        recurrenceChanged: bool, timeChanged: bool, dayChanged: bool, now: Instant)
    : (r: Result<ScheduledTask, SchedulerError>)
    ensures enabled.None? ==> r == Ok(t)
    ensures enabled == Some(None) ==> r == Err(SchedulerException(EnabledNotBool))
    ensures enabled == Some(Some(false)) ==> r == Ok(t.(enabled := false, status := Paused))
    ensures enabled == Some(Some(true)) ==>
      r == EnableTask(t, rows, userId, recurrenceChanged, timeChanged, dayChanged, t.enabled, now)
  {
    match enabled
    case None => Ok(t)
    case Some(None) => Err(SchedulerException(EnabledNotBool))
    case Some(Some(b)) =>
      if b then EnableTask(t, rows, userId, recurrenceChanged, timeChanged, dayChanged, t.enabled, now)
      else Ok(t.(enabled := false, status := Paused))
  }

  /** The task `update_task` commits for row `i`. */
  function UpdatedTask(rows: seq<ScheduledTask>, i: nat, userId: Id, update: TaskUpdate, now: Instant)
    : (r: Result<ScheduledTask, SchedulerError>)
    requires i < |rows|
    ensures update.enabled.None? && !ScheduleChanged(update.fields) ==> r == Ok(ApplyAll(rows[i], update.fields))
  {
    var fs := update.fields;
    var t := ApplyAll(rows[i], fs);
    match AfterFields(t, ScheduleChanged(fs), now)
    case Err(e) => Err(e)
    case Ok(u) => ApplyEnabled(u, update.enabled, rows, userId, Sets(fs, 2), Sets(fs, 3), Sets(fs, 4), now)
  }

  /** `update_task` leaves the id, the owner, the modes and the run counters as they were. */
  lemma UpdateKeepsIdentity(rows: seq<ScheduledTask>, i: nat, userId: Id, update: TaskUpdate, now: Instant)
    requires i < |rows| && UpdatedTask(rows, i, userId, update, now).Ok?
    ensures SameIdentity(UpdatedTask(rows, i, userId, update, now).value, rows[i])
  {
    var t := ApplyAll(rows[i], update.fields);
    ApplyAllKeeps(rows[i], update.fields);
    assert SameIdentity(t, rows[i]);
    var fs := update.fields;
    var after := AfterFields(t, ScheduleChanged(fs), now);
    assert after.Ok?;
    assert SameIdentity(after.value, rows[i]);
    ApplyEnabledKeepsIdentity(after.value, update.enabled, rows, userId, Sets(fs, 2), Sets(fs, 3), Sets(fs, 4), now);
  }

  lemma ApplyEnabledKeepsIdentity(t: ScheduledTask, enabled: Option<Option<bool>>, rows: seq<ScheduledTask>, userId: Id,
                                  recurrenceChanged: bool, timeChanged: bool, dayChanged: bool, now: Instant)
    ensures var r := ApplyEnabled(t, enabled, rows, userId, recurrenceChanged, timeChanged, dayChanged, now);
      r.Ok? ==> SameIdentity(r.value, t)
  {
    if enabled == Some(Some(true)) {
      var e := EnableTask(t, rows, userId, recurrenceChanged, timeChanged, dayChanged, t.enabled, now);
      assert e.Ok? ==> e.value == t.(enabled := true, status := Active, lastError := None, nextExecution := e.value.nextExecution);
    }
  }

  /** The columns `update_task` never writes. */
  predicate SameIdentity(u: ScheduledTask, t: ScheduledTask)
  {
    u.id == t.id && u.userId == t.userId &&
    u.permissionMode == t.permissionMode && u.thinkingMode == t.thinkingMode &&
    u.executionCount == t.executionCount && u.failureCount == t.failureCount &&
    u.lastExecution == t.lastExecution
  }

  /** `update_task` without an `enabled` entry: the named fields are set, the
      others kept, and the next run is recomputed exactly when the schedule
      changed. */
  lemma UpdateWithoutEnabled(rows: seq<ScheduledTask>, i: nat, userId: Id, update: TaskUpdate, now: Instant)
    requires i < |rows| && DistinctFields(update.fields) && update.enabled.None?
    requires UpdatedTask(rows, i, userId, update, now).Ok?
    ensures var u := UpdatedTask(rows, i, userId, update, now).value;
      var t := rows[i];
      u == t.(taskName := u.taskName, promptMessage := u.promptMessage, recurrenceType := u.recurrenceType,
              scheduledTime := u.scheduledTime, scheduledDay := u.scheduledDay, modelId := u.modelId,
              nextExecution := u.nextExecution) &&
      (forall k :: 0 <= k < |update.fields| ==> FieldValue(u, update.fields[k])) &&
      (forall key :: !Sets(update.fields, key) ==> Agree(u, t, key)) &&
      (!ScheduleChanged(update.fields) ==> u.nextExecution == t.nextExecution) &&
      (ScheduleChanged(update.fields) ==>
        CalculateInitialNextExecution(u.recurrenceType, u.scheduledTime, u.scheduledDay, now).Ok? &&
        u.nextExecution == Some(CalculateInitialNextExecution(u.recurrenceType, u.scheduledTime, u.scheduledDay, now).value) &&
        Stamp(now) < Stamp(u.nextExecution.value))
  {
    ApplyAllKeeps(rows[i], update.fields);
    ApplyAllSets(rows[i], update.fields);
    var t := ApplyAll(rows[i], update.fields);
    var after := AfterFields(t, ScheduleChanged(update.fields), now);
    assert after.Ok?;
    forall k | 0 <= k < |update.fields|
      ensures FieldValue(after.value, update.fields[k])
    {
      assert FieldValue(t, update.fields[k]);
    }
  }

  /** `update_task`'s `enabled` entry: False pauses, True enables and
      activates; validation is skipped exactly for a task already enabled. */
  lemma UpdateEnabled(rows: seq<ScheduledTask>, i: nat, userId: Id, update: TaskUpdate, now: Instant)
    requires i < |rows| && update.enabled.Some?
    ensures update.enabled == Some(None) && AfterFields(ApplyAll(rows[i], update.fields), ScheduleChanged(update.fields), now).Ok? ==>
      UpdatedTask(rows, i, userId, update, now) == Err(SchedulerException(EnabledNotBool))
    ensures update.enabled == Some(Some(false)) && UpdatedTask(rows, i, userId, update, now).Ok? ==>
      !UpdatedTask(rows, i, userId, update, now).value.enabled &&
      UpdatedTask(rows, i, userId, update, now).value.status == Paused
    ensures update.enabled == Some(Some(true)) && UpdatedTask(rows, i, userId, update, now).Ok? ==>
      UpdatedTask(rows, i, userId, update, now).value.enabled &&
      UpdatedTask(rows, i, userId, update, now).value.status == Active &&
      UpdatedTask(rows, i, userId, update, now).value.lastError == None &&
      (!rows[i].enabled ==> WithinTaskLimit(rows, userId, Some(rows[i].id)))
  {
    ApplyAllKeeps(rows[i], update.fields);
  }

  /** `update_task`: the lookup, the `setattr` loop (noting which schedule
      fields it sets), then the schedule and `enabled` handling, then the commit. */
  method UpdateTask(store: TaskStore, taskId: Id, userId: Id, update: TaskUpdate, now: Instant)
    returns (r: Result<ScheduledTask, SchedulerError>)
    modifies store
    ensures store.executions == old(store.executions)
    ensures FindUserTask(old(store.tasks), taskId, userId).None? ==>
      r == Err(SchedulerException(NotFound)) && store.tasks == old(store.tasks)
    ensures FindUserTask(old(store.tasks), taskId, userId).Some? ==>
      var i := FindUserTask(old(store.tasks), taskId, userId).value;
      r == UpdatedTask(old(store.tasks), i, userId, update, now) &&
      (r.Ok? ==> store.tasks == old(store.tasks)[i := r.value]) &&
      (r.Err? ==> store.tasks == old(store.tasks))
  {
    var found := FindUserTask(store.tasks, taskId, userId);
    if found.None? {
      return Err(SchedulerException(NotFound));
    }
    var i := found.value;
    var rows := store.tasks;
    var fs := update.fields;
    var t := rows[i];
    var recurrenceChanged, timeChanged, dayChanged := false, false, false;
    var k := 0;
    while k < |fs|
      invariant 0 <= k <= |fs|
      invariant store.tasks == rows && store.executions == old(store.executions)
      invariant t == ApplyAll(rows[i], fs[..k])
      invariant recurrenceChanged == Sets(fs[..k], 2)
      invariant timeChanged == Sets(fs[..k], 3)
      invariant dayChanged == Sets(fs[..k], 4)
    {
      var f := fs[k];
      if f.SetRecurrenceType? {
        recurrenceChanged := true;
      } else if f.SetScheduledTime? {
        timeChanged := true;
      } else if f.SetScheduledDay? {
        dayChanged := true;
      }
      SetsStep(fs, k);
      t := Apply(t, f);
      k := k + 1;
    }
    assert fs[..k] == fs;
    var after := AfterFields(t, recurrenceChanged || timeChanged || dayChanged, now);
    if after.Err? {
      return Err(after.error);
    }
    r := ApplyEnabled(after.value, update.enabled, rows, userId, recurrenceChanged, timeChanged, dayChanged, now);
    if r.Ok? {
      store.tasks := rows[i := r.value];
    }
  }

  lemma SetsStep(fs: seq<FieldUpdate>, k: nat)
    requires k < |fs|
    ensures fs[..k + 1][..k] == fs[..k] && fs[..k + 1][k] == fs[k]
    ensures forall key :: Sets(fs[..k + 1], key) <==> Sets(fs[..k], key) || FieldKey(fs[k]) == key
  {
    var p := fs[..k + 1];
    assert p[..k] == fs[..k];
    forall key | Sets(p, key)
      ensures Sets(fs[..k], key) || FieldKey(fs[k]) == key
    {
      var j :| 0 <= j < |p| && FieldKey(p[j]) == key;
      if j < k {
        assert fs[..k][j] == p[j];
      }
    }
    forall key | Sets(fs[..k], key)
      ensures Sets(p, key)
    {
      var j :| 0 <= j < k && FieldKey(fs[..k][j]) == key;
      assert p[j] == fs[..k][j];
    }
  }

  // -----------------------------------------------------------------------
  // Toggling and deleting

  datatype ToggleResponse = ToggleResponse(id: Id, enabled: bool, message: string)

  /** `toggle_task` on row `i`: a disabled task is enabled with full
      validation and a fresh next run; an enabled one is paused. */
  function ToggledTask(rows: seq<ScheduledTask>, i: nat, userId: Id, now: Instant): (r: Result<ScheduledTask, SchedulerError>)
    requires i < |rows|
    ensures rows[i].enabled ==> r == Ok(rows[i].(enabled := false, status := Paused))
    ensures !rows[i].enabled ==>
      (r.Ok? <==> ValidateRecurrenceConstraints(rows[i].recurrenceType, rows[i].scheduledDay).Ok? &&
                  WithinTaskLimit(rows, userId, Some(rows[i].id)) &&
                  CalculateInitialNextExecution(rows[i].recurrenceType, rows[i].scheduledTime, rows[i].scheduledDay, now).Ok?)
    ensures !rows[i].enabled && ValidateRecurrenceConstraints(rows[i].recurrenceType, rows[i].scheduledDay).Err? ==>
      r == Err(ValidateRecurrenceConstraints(rows[i].recurrenceType, rows[i].scheduledDay).error)
    ensures (!rows[i].enabled && ValidateRecurrenceConstraints(rows[i].recurrenceType, rows[i].scheduledDay).Ok? &&
             !WithinTaskLimit(rows, userId, Some(rows[i].id))) ==> r == Err(SchedulerException(CapOnEnable))
    ensures !rows[i].enabled && r.Ok? ==>
      r.value == rows[i].(enabled := true, status := Active, lastError := None,
        nextExecution := Some(CalculateInitialNextExecution(rows[i].recurrenceType, rows[i].scheduledTime, rows[i].scheduledDay, now).value)) &&
      Stamp(now) < Stamp(r.value.nextExecution.value)
    ensures r.Ok? ==> r.value.enabled == !rows[i].enabled
  {
    if !rows[i].enabled then EnableTask(rows[i], rows, userId, true, true, true, false, now)
    else Ok(rows[i].(enabled := false, status := Paused))
  }

  function ToggleMessage(enabled: bool): (m: string)
  {
    "Task " + (if enabled then "enabled" else "disabled") + " successfully"
  }

  method ToggleTask(store: TaskStore, taskId: Id, userId: Id, now: Instant) returns (r: Result<ToggleResponse, SchedulerError>)
    modifies store
    ensures store.executions == old(store.executions)
    ensures FindUserTask(old(store.tasks), taskId, userId).None? ==>
      r == Err(SchedulerException(NotFound)) && store.tasks == old(store.tasks)
    ensures FindUserTask(old(store.tasks), taskId, userId).Some? ==>
      var i := FindUserTask(old(store.tasks), taskId, userId).value;
      match ToggledTask(old(store.tasks), i, userId, now)
      case Ok(t) => store.tasks == old(store.tasks)[i := t] && r == Ok(ToggleResponse(t.id, t.enabled, ToggleMessage(t.enabled)))
      case Err(e) => store.tasks == old(store.tasks) && r == Err(e)
  {
    var found := FindUserTask(store.tasks, taskId, userId);
    if found.None? {
      return Err(SchedulerException(NotFound));
    }
    var i := found.value;
    var toggled := ToggledTask(store.tasks, i, userId, now);
    match toggled
    case Err(e) =>
      r := Err(e);
    case Ok(t) =>
      store.tasks := store.tasks[i := t];
      r := Ok(ToggleResponse(t.id, t.enabled, ToggleMessage(t.enabled)));
  }

  /** `delete_task`: removes the user's task; the other rows keep their order. */
  method DeleteTask(store: TaskStore, taskId: Id, userId: Id) returns (r: Result<(), SchedulerError>)
    modifies store
    ensures store.executions == old(store.executions)
    ensures FindUserTask(old(store.tasks), taskId, userId).None? ==>
      r == Err(SchedulerException(NotFound)) && store.tasks == old(store.tasks)
    ensures FindUserTask(old(store.tasks), taskId, userId).Some? ==>
      var i := FindUserTask(old(store.tasks), taskId, userId).value;
      r.Ok? && store.tasks == old(store.tasks)[..i] + old(store.tasks)[i + 1..]
  {
    var found := FindUserTask(store.tasks, taskId, userId);
    if found.None? {
      return Err(SchedulerException(NotFound));
    }
    var i := found.value;
    store.tasks := store.tasks[..i] + store.tasks[i + 1..];
    r := Ok(());
  }

  // -----------------------------------------------------------------------
  // Execution history

  datatype PaginatedExecutions = PaginatedExecutions(items: seq<TaskExecution>, page: int, perPage: int, total: nat, pages: nat)

  /** `math.ceil(total / per_page) if total > 0 else 0`, in integers. */
  function PageCount(total: nat, perPage: int): (pages: nat)
    requires perPage >= 1
    ensures total == 0 ==> pages == 0
    ensures total > 0 ==> (pages - 1) * perPage < total <= pages * perPage
  {
    if total > 0 then (total + perPage - 1) / perPage else 0
  }

  /** The executions of a task, newest first (`order_by(executed_at.desc())`). */
  function NewestFirst(execs: seq<TaskExecution>, taskId: Id): (r: seq<TaskExecution>)
    ensures multiset(r) == multiset(Filter(execs, taskId))
  {
    SortBy(Filter(execs, taskId), Recency)
  }

  /** The sort key of newest-first order. */
  function Recency(e: TaskExecution): int
  {
    0 - Stamp(e.executedAt)
  }

  function Filter(execs: seq<TaskExecution>, taskId: Id): (r: seq<TaskExecution>)
    ensures forall e :: e in r <==> e in execs && e.taskId == taskId
    ensures |r| <= |execs|
  {
    if execs == [] then []
    else (if execs[0].taskId == taskId then [execs[0]] else []) + Filter(execs[1..], taskId)
  }

  /** `get_execution_history`: page `page` of the task's executions, newest
      first, `perPage` to a page, with the total and the page count. */
  function ExecutionHistory(rows: seq<ScheduledTask>, execs: seq<TaskExecution>, taskId: Id, userId: Id, page: int, perPage: int)
    : (r: Result<PaginatedExecutions, SchedulerError>)
    requires page >= 1 && perPage >= 1
    ensures r.Err? <==> FindUserTask(rows, taskId, userId).None?
    ensures r.Err? ==> r.error == SchedulerException(NotFound)
    ensures r.Ok? ==>
      r.value.page == page && r.value.perPage == perPage &&
      r.value.total == |Filter(execs, taskId)| && r.value.pages == PageCount(r.value.total, perPage) &&
      |r.value.items| == PageLength(r.value.total, page, perPage) && |r.value.items| <= perPage
  {
    if FindUserTask(rows, taskId, userId).None? then Err(SchedulerException(NotFound))
    else
      var all := NewestFirst(execs, taskId);
      var total := |all|;
      Ok(PaginatedExecutions(PageItems(all, page, perPage), page, perPage, total, PageCount(total, perPage)))
  }

  /** How many of `total` items page `page` holds: a full page, the rest, or none. */
  function PageLength(total: nat, page: int, perPage: int): nat
    requires page >= 1 && perPage >= 1
  {
    var offset := (page - 1) * perPage;
    if offset >= total then 0 else Min(perPage, total - offset)
  }

  /** `.offset((page - 1) * per_page).limit(per_page)` on a list. */
  function PageItems<T>(all: seq<T>, page: int, perPage: int): (items: seq<T>)
    requires page >= 1 && perPage >= 1
    ensures |items| == PageLength(|all|, page, perPage) <= perPage
  {
    var offset := (page - 1) * perPage;
    if offset >= |all| then [] else all[offset..Min(offset + perPage, |all|)]
  }

  /** The page an item at position `j` falls on: `j // per_page + 1`. */
  function PageOf(j: nat, perPage: int): (page: int)
    requires perPage >= 1
    ensures page >= 1 && (page - 1) * perPage <= j < page * perPage
  {
    var q := j / perPage;
    assert j == q * perPage + j % perPage;
    q + 1
  }

  /** No item is on two pages. */
  lemma OnePageOnly(j: nat, perPage: int, p: int, q: int)
    requires perPage >= 1
    requires (p - 1) * perPage <= j < p * perPage
    requires (q - 1) * perPage <= j < q * perPage
    ensures p == q
  {
    if p < q {
      MulMono(p, q - 1, perPage);
    } else if q < p {
      MulMono(q, p - 1, perPage);
    }
  }

  /** Every execution of the task is on the page whose range holds its
      position in the newest-first list, at the matching offset, and that
      page is within the page count. */
  lemma EveryExecutionOnOnePage(rows: seq<ScheduledTask>, execs: seq<TaskExecution>, taskId: Id, userId: Id,
                                page: int, perPage: int, j: nat)
    requires page >= 1 && perPage >= 1 && FindUserTask(rows, taskId, userId).Some?
    requires j < |NewestFirst(execs, taskId)|
    requires (page - 1) * perPage <= j < page * perPage
    ensures var r := ExecutionHistory(rows, execs, taskId, userId, page, perPage);
      r.Ok? && page <= r.value.pages &&
      j - (page - 1) * perPage < |r.value.items| &&
      r.value.items[j - (page - 1) * perPage] == NewestFirst(execs, taskId)[j]
  {
    PageItemsAt(NewestFirst(execs, taskId), page, perPage, j);
  }

  /** Item `j` of a list is on the page whose range holds `j`, at the matching offset. */
  lemma PageItemsAt<T>(all: seq<T>, page: int, perPage: int, j: nat)
    requires page >= 1 && perPage >= 1 && j < |all|
    requires (page - 1) * perPage <= j < page * perPage
    ensures var items := PageItems(all, page, perPage);
      j - (page - 1) * perPage < |items| && items[j - (page - 1) * perPage] == all[j] &&
      page <= PageCount(|all|, perPage)
  {
    PageArith(page, perPage, j, |all|);
    var offset := (page - 1) * perPage;
    var end := Min(offset + perPage, |all|);
    assert PageItems(all, page, perPage) == all[offset..end];
    SliceAt(all, offset, end, j);
  }

  lemma SliceAt<T>(all: seq<T>, offset: int, end: int, j: int)
    requires 0 <= offset <= j < end <= |all|
    ensures j - offset < |all[offset..end]| && all[offset..end][j - offset] == all[j]
  {
  }

  /** The arithmetic of `PageItemsAt`. */
  lemma PageArith(page: int, perPage: int, j: nat, total: nat)
    requires page >= 1 && perPage >= 1 && j < total
    requires (page - 1) * perPage <= j < page * perPage
    ensures var offset := (page - 1) * perPage;
      offset <= j < Min(offset + perPage, total) && page <= PageCount(total, perPage)
  {
    var offset := (page - 1) * perPage;
    assert offset + perPage == page * perPage;
    var pages := PageCount(total, perPage);
    if page > pages {
      MulMono(pages, page - 1, perPage);
    }
  }

  lemma MulMono(a: int, b: int, c: int)
    requires a <= b && c >= 0
    ensures a * c <= b * c
  {
  }

  lemma {:induction false} NewestFirstOrdered(execs: seq<TaskExecution>, taskId: Id)
    ensures forall k, l :: 0 <= k < l < |NewestFirst(execs, taskId)| ==>
      Stamp(NewestFirst(execs, taskId)[k].executedAt) >= Stamp(NewestFirst(execs, taskId)[l].executedAt)
  {
    SortBySorted(Filter(execs, taskId), Recency);
    var s := NewestFirst(execs, taskId);
    forall k, l | 0 <= k < l < |s|
      ensures Stamp(s[k].executedAt) >= Stamp(s[l].executedAt)
    {
      assert Recency(s[k]) <= Recency(s[l]);
    }
  }

  // -----------------------------------------------------------------------
  // The cap on active tasks is kept

  /** Task ids are the primary key. */
  predicate UniqueIds(rows: seq<ScheduledTask>)
  {
    forall i, j :: 0 <= i < j < |rows| ==> rows[i].id != rows[j].id
  }

  /** An enabled task is ACTIVE or PENDING, as every operation leaves it. */
  predicate EnabledIsLive(rows: seq<ScheduledTask>)
  {
    forall i :: 0 <= i < |rows| && rows[i].enabled ==> rows[i].status == Active || rows[i].status == Pending
  }

  /** No user has more than `MaxTasksPerUser` tasks that count toward the cap. */
  ghost predicate UnderCap(rows: seq<ScheduledTask>)
  {
    forall u: Id :: ActiveTaskCount(rows, u, None) <= MaxTasksPerUser
  }

  function Counts(t: ScheduledTask, u: Id, exclude: Option<Id>): nat
  {
    if CountsTowardLimit(t, u, exclude) then 1 else 0
  }

  lemma {:induction false} CountAppend(rows: seq<ScheduledTask>, t: ScheduledTask, u: Id, exclude: Option<Id>)
    ensures ActiveTaskCount(rows + [t], u, exclude) == ActiveTaskCount(rows, u, exclude) + Counts(t, u, exclude)
    decreases |rows|
  {
    if rows == [] {
      assert [] + [t] == [t];
    } else {
      assert (rows + [t])[1..] == rows[1..] + [t];
      CountAppend(rows[1..], t, u, exclude);
    }
  }

  lemma {:induction false} CountReplace(rows: seq<ScheduledTask>, i: nat, t: ScheduledTask, u: Id, exclude: Option<Id>)
    requires i < |rows|
    ensures ActiveTaskCount(rows[i := t], u, exclude) + Counts(rows[i], u, exclude) ==
      ActiveTaskCount(rows, u, exclude) + Counts(t, u, exclude)
    decreases |rows|
  {
    if i > 0 {
      assert rows[i := t][1..] == rows[1..][i - 1 := t];
      CountReplace(rows[1..], i - 1, t, u, exclude);
    } else {
      assert rows[i := t][1..] == rows[1..];
    }
  }

  /** With unique ids, leaving out row `i`'s id leaves out exactly that row. */
  lemma {:induction false} CountExcluding(rows: seq<ScheduledTask>, i: nat, u: Id)
    requires i < |rows| && UniqueIds(rows)
    ensures ActiveTaskCount(rows, u, Some(rows[i].id)) + Counts(rows[i], u, None) == ActiveTaskCount(rows, u, None)
    decreases |rows|
  {
    var x := rows[i].id;
    if i > 0 {
      assert rows[0].id != x;
      assert UniqueIds(rows[1..]) by {
        forall a, b | 0 <= a < b < |rows[1..]|
          ensures rows[1..][a].id != rows[1..][b].id
        {
          assert rows[1..][a] == rows[a + 1] && rows[1..][b] == rows[b + 1];
        }
      }
      CountExcluding(rows[1..], i - 1, u);
    } else {
      ExcludedAbsent(rows[1..], u, x);
    }
  }

  lemma {:induction false} ExcludedAbsent(rows: seq<ScheduledTask>, u: Id, x: Id)
    requires forall j :: 0 <= j < |rows| ==> rows[j].id != x
    ensures ActiveTaskCount(rows, u, Some(x)) == ActiveTaskCount(rows, u, None)
    decreases |rows|
  {
    if rows != [] {
      ExcludedAbsent(rows[1..], u, x);
    }
  }

  /** A row replaced by one of the same owner that passed the cap check (or
      counted already, or does not count) keeps every user under the cap. */
  lemma ReplaceUnderCap(rows: seq<ScheduledTask>, i: nat, t: ScheduledTask)
    requires i < |rows| && UniqueIds(rows) && UnderCap(rows) && t.userId == rows[i].userId
    requires Counts(t, t.userId, None) <= Counts(rows[i], t.userId, None) ||
      WithinTaskLimit(rows, t.userId, Some(rows[i].id))
    ensures UnderCap(rows[i := t])
  {
    var after := rows[i := t];
    forall u: Id
      ensures ActiveTaskCount(after, u, None) <= MaxTasksPerUser
    {
      CountReplace(rows, i, t, u, None);
      if u == t.userId {
        CountExcluding(rows, i, u);
      }
    }
  }

  /** The invariant the task table keeps between requests. */
  ghost predicate Consistent(rows: seq<ScheduledTask>)
  {
    UniqueIds(rows) && EnabledIsLive(rows) && UnderCap(rows)
  }

  lemma ReplaceConsistent(rows: seq<ScheduledTask>, i: nat, t: ScheduledTask)
    requires i < |rows| && Consistent(rows) && t.userId == rows[i].userId && t.id == rows[i].id
    requires t.enabled ==> t.status == Active || t.status == Pending
    requires Counts(t, t.userId, None) <= Counts(rows[i], t.userId, None) ||
      WithinTaskLimit(rows, t.userId, Some(rows[i].id))
    ensures Consistent(rows[i := t])
  {
    ReplaceUnderCap(rows, i, t);
    var after := rows[i := t];
    assert UniqueIds(after) by {
      forall a, b | 0 <= a < b < |after|
        ensures after[a].id != after[b].id
      {
        assert after[a].id == rows[a].id && after[b].id == rows[b].id;
      }
    }
  }

  /** `create_task` keeps the table consistent; `newId` is a fresh key. */
  lemma CreateKeepsConsistent(rows: seq<ScheduledTask>, userId: Id, data: TaskDraft, newId: Id, now: Instant)
    requires Consistent(rows) && NewTask(rows, userId, data, newId, now).Ok?
    requires forall j :: 0 <= j < |rows| ==> rows[j].id != newId
    ensures Consistent(rows + [NewTask(rows, userId, data, newId, now).value])
  {
    var t := NewTask(rows, userId, data, newId, now).value;
    AppendConsistent(rows, t);
  }

  /** Appending a row with a fresh id, live when enabled, for a user below the cap. */
  lemma AppendConsistent(rows: seq<ScheduledTask>, t: ScheduledTask)
    requires Consistent(rows) && WithinTaskLimit(rows, t.userId, None)
    requires forall j :: 0 <= j < |rows| ==> rows[j].id != t.id
    requires t.enabled ==> t.status == Active || t.status == Pending
    ensures Consistent(rows + [t])
  {
    var after := rows + [t];
    forall u: Id
      ensures ActiveTaskCount(after, u, None) <= MaxTasksPerUser
    {
      CountAppend(rows, t, u, None);
    }
    assert UniqueIds(after) by {
      forall a, b | 0 <= a < b < |after|
        ensures after[a].id != after[b].id
      {
        assert after[a] == rows[a];
      }
    }
    assert EnabledIsLive(after) by {
      forall j | 0 <= j < |after| && after[j].enabled
        ensures after[j].status == Active || after[j].status == Pending
      {
        if j < |rows| { assert after[j] == rows[j]; }
      }
    }
  }

  /** `toggle_task` keeps the table consistent, the cap included. */
  lemma ToggleKeepsConsistent(rows: seq<ScheduledTask>, taskId: Id, userId: Id, now: Instant)
    requires Consistent(rows) && FindUserTask(rows, taskId, userId).Some?
    requires ToggledTask(rows, FindUserTask(rows, taskId, userId).value, userId, now).Ok?
    ensures var i := FindUserTask(rows, taskId, userId).value;
      Consistent(rows[i := ToggledTask(rows, i, userId, now).value])
  {
    var i := FindUserTask(rows, taskId, userId).value;
    var t := ToggledTask(rows, i, userId, now).value;
    ReplaceConsistent(rows, i, t);
  }

  /** `update_task` keeps the table consistent, the cap included: a task that
      was already enabled (so the cap check is skipped) already counted. */
  lemma UpdateKeepsConsistent(rows: seq<ScheduledTask>, taskId: Id, userId: Id, update: TaskUpdate, now: Instant)
    requires Consistent(rows) && FindUserTask(rows, taskId, userId).Some?
    requires UpdatedTask(rows, FindUserTask(rows, taskId, userId).value, userId, update, now).Ok?
    ensures var i := FindUserTask(rows, taskId, userId).value;
      Consistent(rows[i := UpdatedTask(rows, i, userId, update, now).value])
  {
    var i := FindUserTask(rows, taskId, userId).value;
    var t := UpdatedTask(rows, i, userId, update, now).value;
    ApplyAllKeeps(rows[i], update.fields);
    if update.enabled.Some? {
      UpdateEnabled(rows, i, userId, update, now);
    }
    ReplaceConsistent(rows, i, t);
  }

  lemma {:induction false} CountRemove(rows: seq<ScheduledTask>, i: nat, u: Id)
    requires i < |rows|
    ensures ActiveTaskCount(rows[..i] + rows[i + 1..], u, None) + Counts(rows[i], u, None) == ActiveTaskCount(rows, u, None)
    decreases |rows|
  {
    if i == 0 {
      assert rows[..i] + rows[i + 1..] == rows[1..];
    } else {
      assert (rows[..i] + rows[i + 1..])[1..] == rows[1..][..i - 1] + rows[1..][i..];
      CountRemove(rows[1..], i - 1, u);
    }
  }

  /** `delete_task` keeps the table consistent. */
  lemma DeleteKeepsConsistent(rows: seq<ScheduledTask>, i: nat)
    requires i < |rows| && Consistent(rows)
    ensures Consistent(rows[..i] + rows[i + 1..])
  {
    var after := rows[..i] + rows[i + 1..];
    forall u: Id
      ensures ActiveTaskCount(after, u, None) <= MaxTasksPerUser
    {
      CountRemove(rows, i, u);
    }
    assert forall j :: 0 <= j < |after| ==> after[j] == rows[if j < i then j else j + 1];
  }

  // -----------------------------------------------------------------------
  // The runner's writes keep it too

  /** `a` stands where `b` did for the cap: same id and owner, same enabled
      flag, and live when enabled. */
  predicate SameStanding(a: ScheduledTask, b: ScheduledTask)
  {
    a.id == b.id && a.userId == b.userId && a.enabled == b.enabled &&
    (a.enabled ==> a.status == Active || a.status == Pending)
  }

  /** Rows replaced one for one by rows of the same standing keep the invariant. */
  lemma StandingConsistent(rows: seq<ScheduledTask>, after: seq<ScheduledTask>)
    requires Consistent(rows) && |after| == |rows|
    requires forall i :: 0 <= i < |rows| ==> SameStanding(after[i], rows[i])
    ensures Consistent(after)
  {
    forall u: Id
      ensures ActiveTaskCount(after, u, None) <= MaxTasksPerUser
    {
      SameCount(rows, after, u);
    }
  }

  lemma {:induction false} SameCount(rows: seq<ScheduledTask>, after: seq<ScheduledTask>, u: Id)
    requires EnabledIsLive(rows) && |after| == |rows|
    requires forall i :: 0 <= i < |rows| ==> SameStanding(after[i], rows[i])
    ensures ActiveTaskCount(after, u, None) == ActiveTaskCount(rows, u, None)
    decreases |rows|
  {
    if rows != [] {
      assert CountsTowardLimit(after[0], u, None) == CountsTowardLimit(rows[0], u, None);
      assert forall i :: 0 <= i < |rows[1..]| ==> rows[1..][i] == rows[i + 1] && after[1..][i] == after[i + 1];
      SameCount(rows[1..], after[1..], u);
    }
  }

  /** `update_task_after_execution` keeps the table consistent: a ONCE task
      is disabled, any other keeps its enabled flag and status. */
  lemma AfterExecutionKeepsConsistent(rows: seq<ScheduledTask>, taskId: Id, start: Instant, success: bool,
                                      errorMessage: Option<string>)
    requires Consistent(rows) && FindTask(rows, taskId).Some?
    requires Execution.AfterExecution(rows[FindTask(rows, taskId).value], start, success, errorMessage).Ok?
    ensures var i := FindTask(rows, taskId).value;
      Consistent(rows[i := Execution.AfterExecution(rows[i], start, success, errorMessage).value])
  {
    var i := FindTask(rows, taskId).value;
    var t := Execution.AfterExecution(rows[i], start, success, errorMessage).value;
    ReplaceConsistent(rows, i, t);
  }

  /** `check_due_tasks` keeps the table consistent: advancing keeps each
      selected row enabled and ACTIVE or PENDING. */
  lemma CheckDueKeepsConsistent(rows: seq<ScheduledTask>, now: Instant)
    requires Consistent(rows) && Execution.AllAdvance(rows, Execution.SelectDue(rows, now), now)
    ensures Consistent(Execution.AdvancedRows(rows, Execution.SelectDue(rows, now), now))
  {
    var sel := Execution.SelectDue(rows, now);
    var after := Execution.AdvancedRows(rows, sel, now);
    forall i | 0 <= i < |rows|
      ensures SameStanding(after[i], rows[i])
    {
      if i in sel {
        AdvanceStanding(rows[i], now);
      }
    }
    StandingConsistent(rows, after);
  }

  lemma AdvanceStanding(t: ScheduledTask, now: Instant)
    requires Execution.Advance(t, now).Ok? && (t.enabled ==> t.status == Active || t.status == Pending)
    ensures SameStanding(Execution.Advance(t, now).value, t)
  {
  }
}
