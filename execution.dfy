/** What happens around a scheduled run: the task's counters and next run
    after it, the periodic selection and advancement of due tasks, and the
    check for a recent execution of the same task. */
module Execution {
  import opened Common
  import opened Calendar
  import opened TextFormats
  import opened Sorting
  import opened Tasks
  import opened Recurrence

  /** The fields a run never touches: the task's identity and its definition. */
  predicate SameDefinition(a: ScheduledTask, b: ScheduledTask)
  {
    a.id == b.id && a.userId == b.userId && a.taskName == b.taskName && a.promptMessage == b.promptMessage &&
    a.recurrenceType == b.recurrenceType && a.scheduledTime == b.scheduledTime && a.scheduledDay == b.scheduledDay &&
    a.modelId == b.modelId && a.permissionMode == b.permissionMode && a.thinkingMode == b.thinkingMode
  }

  /** The run's outcome recorded on the task, before the next run is computed. */
  function RecordOutcome(t: ScheduledTask, start: Instant, success: bool, errorMessage: Option<string>): (u: ScheduledTask)
    ensures SameDefinition(t, u) && u.nextExecution == t.nextExecution
    ensures u.enabled == t.enabled && u.status == t.status
    ensures success ==>
      u.executionCount == t.executionCount + 1 && u.failureCount == t.failureCount &&
      u.lastExecution == Some(start) && u.lastError == None
    ensures !success ==>
      u.failureCount == t.failureCount + 1 && u.executionCount == t.executionCount &&
      u.lastExecution == t.lastExecution && u.lastError == errorMessage
  {
    if success then t.(executionCount := t.executionCount + 1, lastExecution := Some(start), lastError := None)
    else t.(failureCount := t.failureCount + 1, lastError := errorMessage)
  }

  /** The task as `update_task_after_execution` leaves it: the outcome
      recorded, then the next run from `start`; a task with no next run
      (ONCE) is disabled and COMPLETED. */
  function AfterExecution(t: ScheduledTask, start: Instant, success: bool, errorMessage: Option<string>)
    : (r: Result<ScheduledTask, SchedulerError>)
    ensures r.Err? <==> CalculateNextExecution(t, start).Err?
    ensures r.Ok? ==> SameDefinition(t, r.value)
    ensures r.Ok? && success ==>
      r.value.executionCount == t.executionCount + 1 && r.value.failureCount == t.failureCount &&
      r.value.lastExecution == Some(start) && r.value.lastError == None
    ensures r.Ok? && !success ==>
      r.value.failureCount == t.failureCount + 1 && r.value.executionCount == t.executionCount &&
      r.value.lastExecution == t.lastExecution && r.value.lastError == errorMessage
    ensures r.Ok? && t.recurrenceType == Once ==>
      !r.value.enabled && r.value.status == Completed && r.value.nextExecution == None
    ensures r.Ok? && t.recurrenceType != Once ==>
      r.value.enabled == t.enabled && r.value.status == t.status &&
      r.value.nextExecution.Some? && Stamp(start) < Stamp(r.value.nextExecution.value)
    ensures r.Ok? && t.recurrenceType != Once ==>
      CalculateNextExecution(t, start).Ok? && r.value.nextExecution == CalculateNextExecution(t, start).value
  {
    var u := RecordOutcome(t, start, success, errorMessage);
    match CalculateNextExecution(u, start)
    case Err(e) => Err(e)
    case Ok(None) => Ok(u.(enabled := false, status := Completed, nextExecution := None))
    case Ok(Some(n)) => Ok(u.(nextExecution := Some(n)))
  }

  /** `update_task_after_execution`: a missing task changes nothing; an
      exception from the next-run calculation leaves the row as it was. */
  method UpdateTaskAfterExecution(store: TaskStore, taskId: Id, start: Instant, success: bool, errorMessage: Option<string>)
    returns (r: Result<(), SchedulerError>)
    modifies store
    ensures store.executions == old(store.executions)
    ensures FindTask(old(store.tasks), taskId).None? ==> r.Ok? && store.tasks == old(store.tasks)
    ensures FindTask(old(store.tasks), taskId).Some? ==>
      var i := FindTask(old(store.tasks), taskId).value;
      match AfterExecution(old(store.tasks)[i], start, success, errorMessage)
      case Ok(t) => r.Ok? && store.tasks == old(store.tasks)[i := t]
      case Err(e) => r == Err(e) && store.tasks == old(store.tasks)
  {
    var found := FindTask(store.tasks, taskId);
    if found.None? {
      return Ok(());
    }
    var i := found.value;
    var after := AfterExecution(store.tasks[i], start, success, errorMessage);
    match after
    case Err(e) =>
      r := Err(e);
    case Ok(t) =>
      store.tasks := store.tasks[i := t];
      r := Ok(());
  }

  // -----------------------------------------------------------------------
  // Due tasks

  /** At most this many due tasks are taken per check. */
  const DueBatchLimit: nat := 100

  /** The `where` clause of `check_due_tasks`. */
  predicate IsDue(t: ScheduledTask, now: Instant)
  {
    t.enabled && t.status == Active && t.nextExecution.Some? && Stamp(t.nextExecution.value) <= Stamp(now)
  }

  /** The sort key of `order_by(ScheduledTask.next_execution)` on row `i`. */
  function NextKey(rows: seq<ScheduledTask>, i: int): int
  {
    if 0 <= i < |rows| && rows[i].nextExecution.Some? then Stamp(rows[i].nextExecution.value) else 0
  }

  /** The positions at or after `from` of the due rows, in table order. */
  function DueIndices(rows: seq<ScheduledTask>, now: Instant, from: nat): (r: seq<int>)
    ensures forall k :: 0 <= k < |r| ==> from <= r[k] < |rows| && IsDue(rows[r[k]], now)
    ensures forall i :: from <= i < |rows| && IsDue(rows[i], now) ==> i in r
    ensures forall k, l :: 0 <= k < l < |r| ==> r[k] < r[l]
    decreases |rows| - from
  {
    if from >= |rows| then []
    else
      var rest := DueIndices(rows, now, from + 1);
      if IsDue(rows[from], now) then
        [from] + rest
      else rest
  }

  function Min(a: int, b: int): int { if a <= b then a else b }

  /** The rows `check_due_tasks` selects: due rows by ascending next
      execution, at most `DueBatchLimit` of them. */
  function SelectDue(rows: seq<ScheduledTask>, now: Instant): (sel: seq<int>)
    ensures |sel| <= DueBatchLimit
  {
    var due := DueIndices(rows, now, 0);
    var sorted := SortBy(due, i => NextKey(rows, i));
    sorted[..Min(DueBatchLimit, |sorted|)]
  }

  /** The selection holds only due rows ... */
  lemma SelectDueAreDue(rows: seq<ScheduledTask>, now: Instant)
    ensures var sel := SelectDue(rows, now);
      forall k :: 0 <= k < |sel| ==> 0 <= sel[k] < |rows| && IsDue(rows[sel[k]], now)
  {
    var due := DueIndices(rows, now, 0);
    var sorted := SortBy(due, i => NextKey(rows, i));
    var sel := SelectDue(rows, now);
    forall k | 0 <= k < |sel|
      ensures 0 <= sel[k] < |rows| && IsDue(rows[sel[k]], now)
    {
      assert sel[k] == sorted[k];
      assert sorted[k] in multiset(sorted);
      assert sel[k] in due;
    }
  }

  /** ... each at most once ... */
  lemma SelectDueOnce(rows: seq<ScheduledTask>, now: Instant)
    ensures forall x :: multiset(SelectDue(rows, now))[x] <= 1
  {
    var due := DueIndices(rows, now, 0);
    var sorted := SortBy(due, i => NextKey(rows, i));
    var sel := SelectDue(rows, now);
    IncreasingOnce(due);
    PrefixMultiset(sorted, |sel|);
    forall x
      ensures multiset(sel)[x] <= 1
    {
      assert multiset(sel)[x] <= multiset(sorted)[x];
    }
  }

  /** ... in ascending next-execution order, capped at the batch limit ... */
  lemma SelectDueOrdered(rows: seq<ScheduledTask>, now: Instant)
    ensures var sel := SelectDue(rows, now);
      |sel| == Min(DueBatchLimit, |DueIndices(rows, now, 0)|) &&
      forall k, l :: 0 <= k < l < |sel| ==> NextKey(rows, sel[k]) <= NextKey(rows, sel[l])
  {
    SortBySorted(DueIndices(rows, now, 0), i => NextKey(rows, i));
  }

  /** ... and a due row left out is due no earlier than any selected one. */
  lemma SelectDueEarliest(rows: seq<ScheduledTask>, now: Instant, i: int)
    requires 0 <= i < |rows| && IsDue(rows[i], now) && i !in SelectDue(rows, now)
    ensures forall k :: 0 <= k < |SelectDue(rows, now)| ==> NextKey(rows, SelectDue(rows, now)[k]) <= NextKey(rows, i)
  {
    var due := DueIndices(rows, now, 0);
    var key := j => NextKey(rows, j);
    var sorted := SortBy(due, key);
    var sel := SelectDue(rows, now);
    var n := |sel|;
    assert sel == sorted[..n];
    SortBySorted(due, key);
    assert i in multiset(due);
    assert i in sorted;
    BeyondPrefix(sorted, n, i);
    var j :| n <= j < |sorted| && sorted[j] == i;
    forall k | 0 <= k < n
      ensures NextKey(rows, sel[k]) <= NextKey(rows, i)
    {
      assert key(sorted[k]) <= key(sorted[j]);
    }
  }

  /** One selected task advanced past `now`: a ONCE task gets no next run and
      becomes PENDING; any other gets its next run. */
  function Advance(t: ScheduledTask, now: Instant): (r: Result<ScheduledTask, SchedulerError>)
    ensures r.Err? <==> CalculateNextExecution(t, now).Err?
    ensures r.Ok? && t.recurrenceType == Once ==> r.value == t.(nextExecution := None, status := Pending)
    ensures r.Ok? && t.recurrenceType != Once ==>
      CalculateNextExecution(t, now).Ok? && r.value == t.(nextExecution := CalculateNextExecution(t, now).value) &&
      r.value.nextExecution.Some? && Stamp(now) < Stamp(r.value.nextExecution.value)
  {
    match CalculateNextExecution(t, now)
    case Err(e) => Err(e)
    case Ok(None) => Ok(t.(nextExecution := None, status := Pending))
    case Ok(Some(n)) => Ok(t.(nextExecution := Some(n)))
  }

  /** An advanced task is no longer due at the same `now`: one check triggers it once. */
  lemma AdvancedNotDue(t: ScheduledTask, now: Instant)
    requires Advance(t, now).Ok?
    ensures !IsDue(Advance(t, now).value, now)
  {
  }

  /** What advancing each row at `now` gives, row by row. */
  function Outcomes(rows: seq<ScheduledTask>, now: Instant): (o: seq<Result<ScheduledTask, SchedulerError>>)
    ensures |o| == |rows|
  {
    seq(|rows|, i requires 0 <= i < |rows| => Advance(rows[i], now))
  }

  /** Every selected row can be advanced. */
  predicate AllAdvance(rows: seq<ScheduledTask>, sel: seq<int>, now: Instant)
  {
    AllOk(Outcomes(rows, now), sel)
  }

  /** The rows after a successful check: selected rows advanced, the rest as they were. */
  function AdvancedRows(rows: seq<ScheduledTask>, sel: seq<int>, now: Instant): (r: seq<ScheduledTask>)
    requires AllAdvance(rows, sel, now)
    ensures |r| == |rows|
    ensures forall i :: 0 <= i < |rows| ==> r[i] == if i in sel then Advance(rows[i], now).value else rows[i]
  {
    Applied(rows, Outcomes(rows, now), sel)
  }

  /** Every selected index has a successful outcome. */
  predicate AllOk<T, E>(outs: seq<Result<T, E>>, sel: seq<int>)
  {
    forall k :: 0 <= k < |sel| ==> 0 <= sel[k] < |outs| && outs[sel[k]].Ok?
  }

  /** The selected entries replaced by their outcomes, the rest kept. */
  function Applied<T, E>(rows: seq<T>, outs: seq<Result<T, E>>, sel: seq<int>): (r: seq<T>)
    requires |outs| == |rows| && AllOk(outs, sel)
    ensures |r| == |rows|
  {
    seq(|rows|, i requires 0 <= i < |rows| => if i in sel then outs[i].value else rows[i])
  }

  /** The selected entries replaced one after another, as the loop does it. */
  function Patch<T, E>(rows: seq<T>, outs: seq<Result<T, E>>, sel: seq<int>): (r: seq<T>)
    requires |outs| == |rows| && AllOk(outs, sel)
    ensures |r| == |rows|
  {
    if sel == [] then rows
    else
      assert AllOk(outs, sel[..|sel| - 1]);
      var x := sel[|sel| - 1];
      Patch(rows, outs, sel[..|sel| - 1])[x := outs[x].value]
  }

  /** Replacing one after another gives the same rows as replacing all at once. */
  lemma {:induction false} PatchIsApplied<T, E>(rows: seq<T>, outs: seq<Result<T, E>>, sel: seq<int>)
    requires |outs| == |rows| && AllOk(outs, sel)
    ensures Patch(rows, outs, sel) == Applied(rows, outs, sel)
    decreases |sel|
  {
    if sel != [] {
      var init, x := sel[..|sel| - 1], sel[|sel| - 1];
      assert sel == init + [x];
      AppliedAppend(rows, outs, sel, init, x);
      PatchIsApplied(rows, outs, init);
    }
  }

  /** Selecting one more index replaces just that entry. */
  lemma AppliedAppend<T, E>(rows: seq<T>, outs: seq<Result<T, E>>, sel: seq<int>, init: seq<int>, x: int)
    requires |outs| == |rows| && sel == init + [x] && AllOk(outs, sel)
    ensures 0 <= x < |rows| && outs[x].Ok? && AllOk(outs, init)
    ensures Applied(rows, outs, sel) == Applied(rows, outs, init)[x := outs[x].value]
  {
    assert sel[|init|] == x;
    assert forall k :: 0 <= k < |init| ==> init[k] == sel[k];
    var prev := Applied(rows, outs, init);
    var all := Applied(rows, outs, sel);
    assert x in sel;
    forall i | 0 <= i < |rows| && i != x
      ensures prev[i] == all[i]
    {
      assert (i in sel) <==> (i in init);
    }
    UpdateAgrees(prev, all, x, outs[x].value);
  }

  /** Two sequences that agree off index x, where the second holds v. */
  lemma UpdateAgrees<T>(prev: seq<T>, all: seq<T>, x: int, v: T)
    requires 0 <= x < |prev| == |all| && all[x] == v
    requires forall i :: 0 <= i < |prev| && i != x ==> prev[i] == all[i]
    ensures prev[x := v] == all
  {
  }

  lemma StepFails<T, E>(outs: seq<Result<T, E>>, sel: seq<int>, k: nat)
    requires k < |sel| && 0 <= sel[k] < |outs| && outs[sel[k]].Err?
    ensures !AllOk(outs, sel)
  {
  }

  /** One more successful step extends the prefix the loop has done. */
  lemma PatchStep<T, E>(rows: seq<T>, outs: seq<Result<T, E>>, sel: seq<int>, k: nat)
    requires |outs| == |rows| && k < |sel| && 0 <= sel[k] < |rows|
    requires AllOk(outs, sel[..k]) && outs[sel[k]].Ok?
    ensures AllOk(outs, sel[..k + 1])
    ensures Patch(rows, outs, sel[..k + 1]) == Patch(rows, outs, sel[..k])[sel[k] := outs[sel[k]].value]
  {
    var p, q := sel[..k + 1], sel[..k];
    assert forall j :: 0 <= j < k ==> p[j] == q[j];
    assert p[..k] == q;
  }

  /** The `for task in tasks` loop that advances every selected row; the
      first exception stops it. */
  method AdvanceSelected(rows: seq<ScheduledTask>, sel: seq<int>, now: Instant)
    returns (r: Result<seq<ScheduledTask>, SchedulerError>)
    requires forall k :: 0 <= k < |sel| ==> 0 <= sel[k] < |rows|
    ensures r.Ok? <==> AllAdvance(rows, sel, now)
    ensures r.Ok? ==> r.value == AdvancedRows(rows, sel, now)
  {
    ghost var outs := Outcomes(rows, now);
    var updated := rows;
    var k := 0;
    while k < |sel|
      invariant 0 <= k <= |sel|
      invariant AllOk(outs, sel[..k])
      invariant updated == Patch(rows, outs, sel[..k])
    {
      var i := sel[k];
      var next := Advance(rows[i], now);
      assert next == outs[i];
      if next.Err? {
        StepFails(outs, sel, k);
        return Err(next.error);
      }
      PatchStep(rows, outs, sel, k);
      updated := updated[i := next.value];
      k := k + 1;
    }
    assert sel[..k] == sel;
    PatchIsApplied(rows, outs, sel);
    return Ok(updated);
  }

  /** Whether the trigger raises at one of the first `n` calls. */
  predicate RaisesBefore(raisesAt: Option<nat>, n: nat)
  {
    raisesAt.Some? && raisesAt.value < n
  }

  /** The trigger loop: `execute_task_trigger(str(task.id))` per selected task,
      in order. The trigger is foreign code; `raisesAt` names the call that
      raises, if any, and the calls before it are the ones that went out. */
  method TriggerSelected(rows: seq<ScheduledTask>, sel: seq<int>, raisesAt: Option<nat>)
    returns (triggered: seq<string>, raised: bool)
    requires forall k :: 0 <= k < |sel| ==> 0 <= sel[k] < |rows|
    ensures raised <==> RaisesBefore(raisesAt, |sel|)
    ensures |triggered| == if raised then raisesAt.value else |sel|
    ensures forall k :: 0 <= k < |triggered| ==> triggered[k] == FormatUuid(rows[sel[k]].id)
  {
    triggered := [];
    var k := 0;
    while k < |sel| && raisesAt != Some(k)
      invariant 0 <= k <= |sel| && |triggered| == k
      invariant !RaisesBefore(raisesAt, k)
      invariant forall j :: 0 <= j < k ==> triggered[j] == FormatUuid(rows[sel[j]].id)
    {
      triggered := triggered + [FormatUuid(rows[sel[k]].id)];
      k := k + 1;
    }
    raised := k < |sel|;
  }

  /** What `check_due_tasks` reports as `{"error": ...}`: an exception while
      advancing (rolled back), or one from the trigger call at `index`,
      which comes after the commit. */
  datatype CheckFailure = AdvanceFailed(error: SchedulerError) | TriggerRaised(index: nat)

  /** `check_due_tasks` at the moment `now`. Every selected row is advanced and
      the changes are committed together; an exception while advancing rolls
      back and triggers nothing. Then each selected task is triggered, by the
      text of its id, in selection order; a trigger that raises leaves the
      commit in place and the earlier triggers sent. */
  method CheckDueTasks(store: TaskStore, now: Instant, raisesAt: Option<nat>)
    returns (r: Result<nat, CheckFailure>, triggered: seq<string>)
    modifies store
    ensures store.executions == old(store.executions)
    ensures var sel := SelectDue(old(store.tasks), now);
      !AllAdvance(old(store.tasks), sel, now) ==>
        r.Err? && r.error.AdvanceFailed? && store.tasks == old(store.tasks) && triggered == []
    ensures var sel := SelectDue(old(store.tasks), now);
      AllAdvance(old(store.tasks), sel, now) ==>
        store.tasks == AdvancedRows(old(store.tasks), sel, now) &&
        (r.Ok? <==> !RaisesBefore(raisesAt, |sel|)) &&
        (r.Ok? ==> r.value == |sel| && |triggered| == |sel|) &&
        (r.Err? ==> r == Err(TriggerRaised(raisesAt.value)) && |triggered| == raisesAt.value) &&
        forall k :: 0 <= k < |triggered| ==> triggered[k] == FormatUuid(old(store.tasks)[sel[k]].id)
  {
    var rows := store.tasks;
    var sel := SelectDue(rows, now);
    SelectDueAreDue(rows, now);
    var advanced := AdvanceSelected(rows, sel, now);
    if advanced.Err? {
      return Err(AdvanceFailed(advanced.error)), [];
    }
    store.tasks := advanced.value;
    var raised;
    triggered, raised := TriggerSelected(rows, sel, raisesAt);
    if raised {
      r := Err(TriggerRaised(raisesAt.value));
    } else {
      r := Ok(|sel|);
    }
  }

  // -----------------------------------------------------------------------
  // Duplicate runs

  /** How far back `check_duplicate_execution` looks: two minutes. */
  const DuplicateWindowMicros: int := 2 * 60 * MicrosPerSecond

  /** An execution of `taskId` that started at most two minutes before
      `start` (or later) and is RUNNING or SUCCESS. */
  predicate IsRecentRun(e: TaskExecution, taskId: Id, start: Instant)
  {
    e.taskId == taskId && Stamp(e.executedAt) >= Stamp(start) - DuplicateWindowMicros &&
    (e.status == Running || e.status == Success)
  }

  function CountRecentRuns(execs: seq<TaskExecution>, taskId: Id, start: Instant): (n: nat)
    ensures n == 0 <==> forall i :: 0 <= i < |execs| ==> !IsRecentRun(execs[i], taskId, start)
    ensures n <= |execs|
  {
    if execs == [] then 0
    else (if IsRecentRun(execs[0], taskId, start) then 1 else 0) + CountRecentRuns(execs[1..], taskId, start)
  }

  /** The error `scalar_one_or_none()` raises when the query matches more than one row. */
  datatype QueryError = MultipleResultsFound

  /** `check_duplicate_execution` as written: `scalar_one_or_none()` raises
      as soon as two recent runs match. */
  function CheckDuplicateAsWritten(execs: seq<TaskExecution>, taskId: Id, start: Instant): (r: Result<bool, QueryError>)
    ensures r.Ok? ==> (r.value <==> CountRecentRuns(execs, taskId, start) == 1)
    ensures r.Err? <==> CountRecentRuns(execs, taskId, start) >= 2
  {
    var n := CountRecentRuns(execs, taskId, start);
    if n >= 2 then Err(MultipleResultsFound) else Ok(n == 1)
  }

  /** The duplicate check as intended: true iff some recent run of the task exists. */
  function IsDuplicate(execs: seq<TaskExecution>, taskId: Id, start: Instant): (b: bool)
    ensures b <==> exists i :: 0 <= i < |execs| && IsRecentRun(execs[i], taskId, start)
  {
    CountRecentRuns(execs, taskId, start) > 0
  }

  /** With at most one recent run the two agree ... */
  lemma DuplicateAgreesOnOneMatch(execs: seq<TaskExecution>, taskId: Id, start: Instant)
    requires CountRecentRuns(execs, taskId, start) <= 1
    ensures CheckDuplicateAsWritten(execs, taskId, start) == Ok(IsDuplicate(execs, taskId, start))
  {
  }

  /** ... but two runs of the same task already recorded make the written
      check raise instead of reporting the duplicate. */
  lemma DuplicateRaisesOnTwoMatches(taskId: Id, start: Instant, id1: Id, id2: Id)
    ensures var execs := [TaskExecution(id1, taskId, start, Running), TaskExecution(id2, taskId, start, Success)];
      CheckDuplicateAsWritten(execs, taskId, start) == Err(MultipleResultsFound) &&
      IsDuplicate(execs, taskId, start)
  {
    var execs := [TaskExecution(id1, taskId, start, Running), TaskExecution(id2, taskId, start, Success)];
    assert IsRecentRun(execs[0], taskId, start) && IsRecentRun(execs[1], taskId, start);
    assert execs[1..][1..] == [];
  }
}
