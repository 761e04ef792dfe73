/**
 * `Executor`: one scheduling tick. Ready tasks are queued once each, up to the free
 * concurrency slots are admitted, and every admitted task is run and settled.
 *
 * The tick runs sequentially. A task's run is its transition to Running and an outcome
 * chosen by the caller: `failing` holds the ids whose simulated run fails.
 */
module Executor {
  import opened Wrappers
  import opened Seqs
  import opened SchedulerTypes
  import TQ = TaskQueue
  import SM = StateManager

  datatype ExecutionResult = ExecutionResult(success: bool, error: Option<string>, output: Option<string>)

  /** `maxConcurrentTasks ?? 5`. */
  function MaxConcurrent(option: Option<int>): (r: int)
    ensures option.Some? ==> r == option.value
    ensures option.None? ==> r == 5
  {
    option.GetOr(5)
  }

  /** `calculateTaskPriority`: the same priority for every task. */
  function Priority(t: SchedTask): (p: int)
    ensures p == 1
  {
    1
  }

  // ----- Specification of the three phases -----

  /** No two entries of the queue are for the same task. */
  ghost predicate NoDuplicateTasks(items: seq<QueueItem>) {
    forall i, j :: 0 <= i < j < |items| ==> items[i].taskId != items[j].taskId
  }

  /** The queue after the enqueue loop over the first `|ready|` ready tasks. */
  function EnqueuePhase(items: seq<QueueItem>, ready: seq<SchedTask>, running: set<string>, now: int): seq<QueueItem> {
    if |ready| == 0 then items
    else
      var acc := EnqueuePhase(items, ready[..|ready| - 1], running, now);
      var t := ready[|ready| - 1];
      if t.id in running || TQ.HasTask(acc, t.id) then acc
      else TQ.Inserted(acc, QueueItem(t.id, Priority(t), now))
  }

  function Ids(s: seq<SchedTask>): set<string> {
    set k | 0 <= k < |s| :: s[k].id
  }

  /** The tasks admitted from the dequeued entries `items`: known tasks not already running, each once. */
  function Admissions(items: seq<QueueItem>, tasks: seq<SchedTask>, running: set<string>): (r: seq<SchedTask>)
    ensures |r| <= |items|
  {
    if |items| == 0 then []
    else
      var prev := Admissions(items[..|items| - 1], tasks, running);
      var t := SM.FindTask(tasks, items[|items| - 1].taskId);
      if t.Some? && t.value.id !in running && t.value.id !in Ids(prev) then prev + [t.value] else prev
  }

  /** How many entries the slot loop dequeues: one per free slot, until the queue runs out. */
  function Consumed(slots: int, available: nat): nat {
    if slots <= 0 then 0 else if slots < available then slots else available
  }

  /** What `executeTask` reports for a found task. */
  function Outcome(taskId: string, fails: bool): (r: ExecutionResult)
    ensures r.success <==> !fails
    ensures r.success <==> r.error.None?
    ensures r.success <==> r.output.Some?
    ensures r.error.Some? ==> "Simulated failure for task " <= r.error.value
  {
    if fails then ExecutionResult(false, Some("Simulated failure for task " + taskId), None)
    else ExecutionResult(true, None, Some("Task " + taskId + " completed successfully"))
  }

  /**
   * The record after settlement. `snapshot` is the task as it was when admitted; its retry
   * counter decides between retrying and failing.
   */
  function Settled(t: SchedTask, snapshot: SchedTask, result: ExecutionResult, now: int): (r: SchedTask)
    ensures result.success ==> r.state == Succeeded && r.retryCount == t.retryCount
    ensures !result.success && snapshot.retryCount < snapshot.maxRetries ==>
              r.state == Pending && r.error == None && r.endTime == None
              && r.retryCount == if t.retryCount < t.maxRetries then t.retryCount + 1 else t.retryCount
    ensures !result.success && snapshot.retryCount >= snapshot.maxRetries ==>
              r.state == Failed && r.error == result.error && r.retryCount == t.retryCount
    ensures r.maxRetries == t.maxRetries && r.id == t.id
    ensures t.retryCount <= t.maxRetries ==> r.retryCount <= r.maxRetries
  {
    if result.success then SM.Transition(t, Succeeded, None, now)
    else if snapshot.retryCount < snapshot.maxRetries then
      var t' := if t.retryCount < t.maxRetries then t.(retryCount := t.retryCount + 1) else t;
      SM.Transition(t', Pending, None, now)
    else SM.Transition(t, Failed, result.error, now)
  }

  /** The task list after the first task with the snapshot's id is settled with `result`. */
  function SettleList(tasks: seq<SchedTask>, snapshot: SchedTask, result: ExecutionResult, now: int): seq<SchedTask> {
    match SM.IndexOfTask(tasks, snapshot.id)
    case None => tasks
    case Some(i) => tasks[i := Settled(tasks[i], snapshot, result, now)]
  }

  /** The task list after one admitted task has been run and settled. */
  function RunOne(tasks: seq<SchedTask>, snapshot: SchedTask, fails: bool, now: int): seq<SchedTask> {
    match SM.IndexOfTask(tasks, snapshot.id)
    case None => tasks
    case Some(i) =>
      tasks[i := Settled(SM.Transition(tasks[i], Running, None, now), snapshot, Outcome(snapshot.id, fails), now)]
  }

  function RunAll(tasks: seq<SchedTask>, admitted: seq<SchedTask>, failing: set<string>, now: int): seq<SchedTask> {
    if |admitted| == 0 then tasks
    else
      var last := admitted[|admitted| - 1];
      RunOne(RunAll(tasks, admitted[..|admitted| - 1], failing, now), last, last.id in failing, now)
  }

  class Executor {
    var stateManager: SM.StateManager
    var maxConcurrentTasks: int
    var runningTasks: set<string>
    var taskQueue: TQ.TaskQueue

    /** The queue is sorted and holds each task at most once. */
    ghost predicate Valid()
      reads this, taskQueue
    {
      taskQueue.Valid() && NoDuplicateTasks(taskQueue.items)
    }

    constructor(sm: SM.StateManager, maxConcurrent: Option<int>)
      ensures stateManager == sm && maxConcurrentTasks == MaxConcurrent(maxConcurrent)
      ensures runningTasks == {} && fresh(taskQueue) && taskQueue.items == [] && Valid()
    {
      stateManager := sm;
      maxConcurrentTasks := MaxConcurrent(maxConcurrent);
      runningTasks := {};
      taskQueue := new TQ.TaskQueue();
    }

    /** `isTaskInQueue`. */
    function IsTaskInQueue(taskId: string): (r: bool)
      reads this, taskQueue
      ensures r <==> exists item :: item in taskQueue.items && item.taskId == taskId
    {
      TQ.HasTask(taskQueue.items, taskId)
    }

    /** Looks the task up and moves it to Running; the outcome of the run is `fails`. */
    method ExecuteTask(taskId: string, fails: bool, now: int) returns (r: ExecutionResult)
      modifies stateManager
      ensures SM.FindTask(old(stateManager.tasks), taskId).None? ==>
                r == ExecutionResult(false, Some("Task " + taskId + " not found"), None)
                && stateManager.tasks == old(stateManager.tasks)
      ensures SM.FindTask(old(stateManager.tasks), taskId).Some? ==>
                var i := SM.IndexOfTask(old(stateManager.tasks), taskId).value;
                && r == Outcome(taskId, fails)
                && stateManager.tasks == old(stateManager.tasks)[i := SM.Transition(old(stateManager.tasks)[i], Running, None, now)]
                && stateManager.tasks[i].state == Running
      ensures stateManager.status == old(stateManager.status) && stateManager.endTime == old(stateManager.endTime)
      ensures stateManager.id == old(stateManager.id) && stateManager.startTime == old(stateManager.startTime)
    {
      var task := stateManager.GetTask(taskId);
      if task.None? {
        return ExecutionResult(false, Some("Task " + taskId + " not found"), None);
      }
      var _ := stateManager.UpdateTaskState(taskId, Running, None, now);
      r := Outcome(taskId, fails);
    }

    /** The loop that queues every ready task that is neither running nor already queued. */
    method EnqueueReady(now: int)
      requires Valid()
      modifies taskQueue
      ensures Valid()
      ensures taskQueue.items == EnqueuePhase(old(taskQueue.items), SM.ReadyTasks(stateManager.tasks), runningTasks, now)
    {
      var ready := stateManager.GetReadyTasks();
      var i := 0;
      while i < |ready|
        invariant i <= |ready| && Valid()
        invariant taskQueue.items == EnqueuePhase(old(taskQueue.items), ready[..i], runningTasks, now)
      {
        var task := ready[i];
        assert ready[..i + 1][..i] == ready[..i];
        if task.id !in runningTasks {
          var priority := Priority(task);
          if !IsTaskInQueue(task.id) {
            InsertedFresh(taskQueue.items, QueueItem(task.id, priority, now));
            taskQueue.Enqueue(QueueItem(task.id, priority, now));
          }
        }
        i := i + 1;
      }
      assert ready[..i] == ready;
    }

    /** The slot loop: dequeues one entry per free slot and admits its task when known and not running. */
    method AdmitTasks() returns (admitted: seq<SchedTask>)
      requires Valid()
      modifies this, taskQueue
      ensures Valid()
      ensures stateManager == old(stateManager) && taskQueue == old(taskQueue)
      ensures maxConcurrentTasks == old(maxConcurrentTasks)
      ensures var n := Consumed(maxConcurrentTasks - |old(runningTasks)|, |old(taskQueue.items)|);
              && taskQueue.items == old(taskQueue.items)[n..]
              && admitted == Admissions(old(taskQueue.items)[..n], stateManager.tasks, old(runningTasks))
      ensures runningTasks == old(runningTasks) + Ids(admitted)
    {
      ghost var items0, running0, tasks := taskQueue.items, runningTasks, stateManager.tasks;
      var availableSlots := maxConcurrentTasks - |runningTasks|;
      admitted := [];
      var i := 0;
      while i < availableSlots
        invariant Valid() && taskQueue == old(taskQueue) && stateManager == old(stateManager)
        invariant maxConcurrentTasks == old(maxConcurrentTasks) && stateManager.tasks == tasks
        invariant 0 <= i <= |items0| && i <= (if availableSlots > 0 then availableSlots else 0)
        invariant taskQueue.items == items0[i..]
        invariant admitted == Admissions(items0[..i], tasks, running0)
        invariant runningTasks == running0 + Ids(admitted)
        decreases availableSlots - i
      {
        var stop;
        stop, admitted := AdmitOne(items0, running0, tasks, i, admitted);
        if stop {
          break;
        }
        i := i + 1;
      }
      assert i == Consumed(availableSlots, |items0|);
    }

    /** The body of the slot loop: dequeue one entry and admit its task when known and not running. */
    method AdmitOne(ghost items0: seq<QueueItem>, ghost running0: set<string>, ghost tasks: seq<SchedTask>,
                    ghost i: nat, admitted0: seq<SchedTask>)
      returns (stop: bool, admitted: seq<SchedTask>)
      requires Valid() && i <= |items0| && taskQueue.items == items0[i..] && stateManager.tasks == tasks
      requires admitted0 == Admissions(items0[..i], tasks, running0) && runningTasks == running0 + Ids(admitted0)
      modifies this, taskQueue
      ensures Valid() && taskQueue == old(taskQueue) && stateManager == old(stateManager)
      ensures maxConcurrentTasks == old(maxConcurrentTasks)
      ensures stop <==> i == |items0|
      ensures stop ==> admitted == admitted0 && runningTasks == old(runningTasks) && taskQueue.items == items0[i..]
      ensures !stop ==> && taskQueue.items == items0[i + 1..]
                        && admitted == Admissions(items0[..i + 1], tasks, running0)
                        && runningTasks == running0 + Ids(admitted)
    {
      admitted := admitted0;
      var queueItem := taskQueue.Dequeue();
      if queueItem.None? {
        return true, admitted;
      }
      DuplicatesAfterPop(items0[i..], 0);
      var task := stateManager.GetTask(queueItem.value.taskId);
      AdmitStep(items0, i, tasks, running0, admitted);
      if task.Some? && task.value.id !in runningTasks {
        admitted := admitted + [task.value];
        runningTasks := runningTasks + {task.value.id};
      }
      stop := false;
    }

    /** Runs and settles one admitted task, then takes it off the running set. */
    method RunAndSettle(task: SchedTask, fails: bool, now: int)
      modifies this, stateManager
      ensures stateManager == old(stateManager) && taskQueue == old(taskQueue)
      ensures maxConcurrentTasks == old(maxConcurrentTasks)
      ensures stateManager.tasks == RunOne(old(stateManager.tasks), task, fails, now)
      ensures runningTasks == old(runningTasks) - {task.id}
    {
      ghost var t0 := stateManager.tasks;
      var result := ExecuteTask(task.id, fails, now);
      ghost var t1 := stateManager.tasks;
      Settle(task, result, now);
      RunThenSettle(t0, task, fails, now, t1, result);
      runningTasks := runningTasks - {task.id};
    }

    /** The settlement rule: succeeded, retried while the admitted snapshot had retries left, or failed. */
    method Settle(task: SchedTask, result: ExecutionResult, now: int)
      modifies stateManager
      ensures stateManager.tasks == SettleList(old(stateManager.tasks), task, result, now)
    {
      ghost var t0 := stateManager.tasks;
      if result.success {
        var _ := stateManager.UpdateTaskState(task.id, Succeeded, None, now);
      } else if task.retryCount < task.maxRetries {
        var _ := stateManager.IncrementRetryCount(task.id);
        ghost var t1 := stateManager.tasks;
        RetryKeepsIndex(t0, task.id, t1);
        var _ := stateManager.UpdateTaskState(task.id, Pending, None, now);
      } else {
        var _ := stateManager.UpdateTaskState(task.id, Failed, result.error, now);
      }
    }

    /** Runs and settles the admitted tasks one after another. */
    method RunAdmitted(admitted: seq<SchedTask>, failing: set<string>, now: int)
      requires Valid()
      modifies this, stateManager
      ensures Valid()
      ensures stateManager == old(stateManager) && taskQueue == old(taskQueue)
      ensures maxConcurrentTasks == old(maxConcurrentTasks)
      ensures runningTasks == old(runningTasks) - Ids(admitted)
      ensures stateManager.tasks == RunAll(old(stateManager.tasks), admitted, failing, now)
    {
      ghost var tasks0, running0 := stateManager.tasks, runningTasks;
      var j := 0;
      while j < |admitted|
        invariant j <= |admitted|
        invariant stateManager == old(stateManager) && taskQueue == old(taskQueue)
        invariant maxConcurrentTasks == old(maxConcurrentTasks)
        invariant runningTasks == running0 - Ids(admitted[..j])
        invariant stateManager.tasks == RunAll(tasks0, admitted[..j], failing, now)
      {
        var task := admitted[j];
        RunAllStep(tasks0, admitted, failing, now, j);
        RunAndSettle(task, task.id in failing, now);
        j := j + 1;
      }
      assert admitted[..j] == admitted;
    }

    /** `executeReadyTasks`: enqueue, admit, then run and settle each admitted task in order. */
    method ExecuteReadyTasks(failing: set<string>, now: int) returns (admitted: seq<SchedTask>)
      requires Valid()
      modifies this, taskQueue, stateManager
      ensures Valid()
      ensures |old(runningTasks)| <= maxConcurrentTasks ==> |old(runningTasks) + Ids(admitted)| <= maxConcurrentTasks
      ensures stateManager == old(stateManager) && taskQueue == old(taskQueue)
      ensures maxConcurrentTasks == old(maxConcurrentTasks)
      ensures var q := EnqueuePhase(old(taskQueue.items), SM.ReadyTasks(old(stateManager.tasks)), old(runningTasks), now);
              var n := Consumed(old(maxConcurrentTasks) - |old(runningTasks)|, |q|);
              && admitted == Admissions(q[..n], old(stateManager.tasks), old(runningTasks))
              && taskQueue.items == q[n..]
      ensures runningTasks == old(runningTasks)
      ensures stateManager.tasks == RunAll(old(stateManager.tasks), admitted, failing, now)
    {
      ghost var running0, tasks0, items0, max0 := runningTasks, stateManager.tasks, taskQueue.items, maxConcurrentTasks;
      ghost var sm, tq := stateManager, taskQueue;
      EnqueueReady(now);
      ghost var queued := taskQueue.items;
      assert queued == EnqueuePhase(items0, SM.ReadyTasks(tasks0), running0, now);
      assert runningTasks == running0 && stateManager.tasks == tasks0 && maxConcurrentTasks == max0;
      ghost var n := Consumed(max0 - |running0|, |queued|);
      admitted := AdmitTasks();
      assert admitted == Admissions(queued[..n], tasks0, running0);
      assert runningTasks == running0 + Ids(admitted) && stateManager.tasks == tasks0;
      ghost var rest := taskQueue.items;
      assert rest == queued[n..];
      AdmittedReleased(queued[..n], tasks0, running0);
      if |running0| <= max0 {
        AdmissionBound(queued, tasks0, running0, max0);
      }
      RunAdmitted(admitted, failing, now);
      assert stateManager == sm && taskQueue == tq && taskQueue.items == rest;
    }

    function IsExecuting(): bool
      reads this
    {
      |runningTasks| > 0
    }

    function GetRunningTaskCount(): nat
      reads this
    {
      |runningTasks|
    }

    function GetMaxConcurrentTasks(): int
      reads this
    {
      maxConcurrentTasks
    }
  }

  // ----- Properties -----

  lemma IdsSnoc(s: seq<SchedTask>, t: SchedTask)
    ensures Ids(s + [t]) == Ids(s) + {t.id}
  {
    var s' := s + [t];
    forall x | x in Ids(s')
      ensures x in Ids(s) + {t.id}
    {
      var k :| 0 <= k < |s'| && s'[k].id == x;
      if k < |s| {
        assert s[k] == s'[k];
      }
    }
    forall x | x in Ids(s)
      ensures x in Ids(s')
    {
      var k :| 0 <= k < |s| && s[k].id == x;
      assert s'[k] == s[k];
    }
    assert s'[|s|] == t;
  }

  /** One step of the slot loop: the item at `i` is admitted when its task is known and not yet running. */
  lemma AdmitStep(items: seq<QueueItem>, i: nat, tasks: seq<SchedTask>, running: set<string>, admitted: seq<SchedTask>)
    requires i < |items| && admitted == Admissions(items[..i], tasks, running)
    ensures items[i..][1..] == items[i + 1..]
    ensures var t := SM.FindTask(tasks, items[i].taskId);
            && Admissions(items[..i + 1], tasks, running)
               == (if t.Some? && t.value.id !in running + Ids(admitted) then admitted + [t.value] else admitted)
            && (t.Some? ==> Ids(admitted + [t.value]) == Ids(admitted) + {t.value.id})
  {
    AdmissionsSnoc(items, i, tasks, running);
    var t := SM.FindTask(tasks, items[i].taskId);
    if t.Some? {
      IdsSnoc(admitted, t.value);
    }
  }

  lemma AdmissionsSnoc(items: seq<QueueItem>, i: nat, tasks: seq<SchedTask>, running: set<string>)
    requires i < |items|
    ensures var prev := Admissions(items[..i], tasks, running);
            var t := SM.FindTask(tasks, items[i].taskId);
            Admissions(items[..i + 1], tasks, running)
            == if t.Some? && t.value.id !in running && t.value.id !in Ids(prev) then prev + [t.value] else prev
  {
    assert items[..i + 1][..i] == items[..i];
  }

  /** One more admitted task: the next `RunOne` step, and its id joins the admitted ids. */
  lemma RunAllStep(tasks: seq<SchedTask>, admitted: seq<SchedTask>, failing: set<string>, now: int, j: nat)
    requires j < |admitted|
    ensures var task := admitted[j];
            RunAll(tasks, admitted[..j + 1], failing, now)
            == RunOne(RunAll(tasks, admitted[..j], failing, now), task, task.id in failing, now)
    ensures Ids(admitted[..j + 1]) == Ids(admitted[..j]) + {admitted[j].id}
  {
    assert admitted[..j + 1][..j] == admitted[..j];
    IdsSnoc(admitted[..j], admitted[j]);
    assert admitted[..j + 1] == admitted[..j] + [admitted[j]];
  }

  /** Admitted tasks were not running before, so releasing them restores the running set. */
  lemma AdmittedReleased(items: seq<QueueItem>, tasks: seq<SchedTask>, running: set<string>)
    ensures var a := Ids(Admissions(items, tasks, running));
            (running + a) - a == running
  {
    AdmissionsFacts(items, tasks, running);
    var a := Ids(Admissions(items, tasks, running));
    assert running * a == {};
  }

  /** Running a task and then settling it by its reported result is `RunOne`. */
  lemma RunThenSettle(t0: seq<SchedTask>, task: SchedTask, fails: bool, now: int, t1: seq<SchedTask>, result: ExecutionResult)
    requires SM.FindTask(t0, task.id).None? ==> t1 == t0
    requires SM.FindTask(t0, task.id).Some? ==>
               var i := SM.IndexOfTask(t0, task.id).value;
               result == Outcome(task.id, fails) && t1 == t0[i := SM.Transition(t0[i], Running, None, now)]
    ensures SettleList(t1, task, result, now) == RunOne(t0, task, fails, now)
  {
    match SM.IndexOfTask(t0, task.id)
    case None =>
    case Some(i) =>
      SM.IndexAfterUpdate(t0, task.id, i, t1[i]);
  }

  /** Bumping the retry counter leaves the task where the search finds it. */
  lemma RetryKeepsIndex(t0: seq<SchedTask>, taskId: string, t1: seq<SchedTask>)
    requires SM.IndexOfTask(t0, taskId).None? ==> t1 == t0
    requires SM.IndexOfTask(t0, taskId).Some? ==>
               var i := SM.IndexOfTask(t0, taskId).value;
               t1 == t0 || t1 == t0[i := t0[i].(retryCount := t0[i].retryCount + 1)]
    ensures SM.IndexOfTask(t1, taskId) == SM.IndexOfTask(t0, taskId)
  {
    match SM.IndexOfTask(t0, taskId)
    case None =>
    case Some(i) =>
      SM.IndexAfterUpdate(t0, taskId, i, t1[i]);
  }

  /** Inserting an entry for a task that is not queued keeps each task queued at most once. */
  lemma InsertedFresh(items: seq<QueueItem>, item: QueueItem)
    requires NoDuplicateTasks(items) && !TQ.HasTask(items, item.taskId)
    ensures NoDuplicateTasks(TQ.Inserted(items, item))
  {
    var p := TQ.Position(items, item);
    var s := TQ.Inserted(items, item);
    forall i, j | 0 <= i < j < |s|
      ensures s[i].taskId != s[j].taskId
    {
      var i' := if i < p then i else i - 1;
      var j' := if j < p then j else j - 1;
      if i != p && j != p {
        assert s[i] == items[i'] && s[j] == items[j'];
      } else if i == p {
        assert s[j] == items[j'];
      } else {
        assert s[i] == items[i'];
      }
    }
  }

  lemma DuplicatesAfterPop(items: seq<QueueItem>, i: nat)
    requires NoDuplicateTasks(items) && i < |items|
    ensures NoDuplicateTasks(items[i + 1..])
  {
    var s := items[i + 1..];
    forall a, b | 0 <= a < b < |s|
      ensures s[a].taskId != s[b].taskId
    {
      assert s[a] == items[i + 1 + a] && s[b] == items[i + 1 + b];
    }
  }

  /** The enqueue phase keeps each task queued at most once and the queue sorted. */
  lemma {:induction false} EnqueueKeepsValid(items: seq<QueueItem>, ready: seq<SchedTask>, running: set<string>, now: int)
    requires NoDuplicateTasks(items) && TQ.Sorted(items)
    ensures NoDuplicateTasks(EnqueuePhase(items, ready, running, now))
    ensures TQ.Sorted(EnqueuePhase(items, ready, running, now))
  {
    if |ready| > 0 {
      EnqueueKeepsValid(items, ready[..|ready| - 1], running, now);
      var acc := EnqueuePhase(items, ready[..|ready| - 1], running, now);
      var t := ready[|ready| - 1];
      if !(t.id in running || TQ.HasTask(acc, t.id)) {
        InsertedFresh(acc, QueueItem(t.id, Priority(t), now));
        TQ.InsertedSorted(acc, QueueItem(t.id, Priority(t), now));
      }
    }
  }

  /**
   * After the phase, a task is queued exactly when it was queued before or is a ready task
   * that is not running.
   */
  lemma {:induction false} EnqueueCovers(items: seq<QueueItem>, ready: seq<SchedTask>, running: set<string>, now: int, x: string)
    ensures TQ.HasTask(EnqueuePhase(items, ready, running, now), x) <==>
              TQ.HasTask(items, x) || exists t :: t in ready && t.id == x && x !in running
  {
    if |ready| > 0 {
      var front := ready[..|ready| - 1];
      EnqueueCovers(items, front, running, now, x);
      var acc := EnqueuePhase(items, front, running, now);
      var t := ready[|ready| - 1];
      assert ready == front + [t];
      if !(t.id in running || TQ.HasTask(acc, t.id)) {
        TQ.InsertedHas(acc, QueueItem(t.id, Priority(t), now), x);
      } else if t.id == x && x !in running {
        EnqueueCovers(items, front, running, now, t.id);
      }
    }
  }

  /** The phase queues at most one new entry per ready task and drops none. */
  lemma {:induction false} EnqueueLength(items: seq<QueueItem>, ready: seq<SchedTask>, running: set<string>, now: int)
    ensures |items| <= |EnqueuePhase(items, ready, running, now)| <= |items| + |ready|
  {
    if |ready| > 0 {
      EnqueueLength(items, ready[..|ready| - 1], running, now);
    }
  }

  /**
   * With one priority throughout and no entry stamped later than `now`, the phase only
   * appends: entries leave in the order they were queued.
   */
  lemma {:induction false} EnqueueAppends(items: seq<QueueItem>, ready: seq<SchedTask>, running: set<string>, now: int)
    requires forall k :: 0 <= k < |items| ==> items[k].priority == 1 && items[k].timestamp <= now
    ensures items <= EnqueuePhase(items, ready, running, now)
    ensures var s := EnqueuePhase(items, ready, running, now);
            forall k :: 0 <= k < |s| ==> s[k].priority == 1 && s[k].timestamp <= now
  {
    if |ready| > 0 {
      var front := ready[..|ready| - 1];
      EnqueueAppends(items, front, running, now);
      var acc := EnqueuePhase(items, front, running, now);
      var t := ready[|ready| - 1];
      if !(t.id in running || TQ.HasTask(acc, t.id)) {
        var item := QueueItem(t.id, Priority(t), now);
        TQ.InsertedAtEnd(acc, item);
        PrefixTrans(items, acc, acc + [item]);
      }
    }
  }

  /**
   * Admitted tasks are known tasks that were not running, each admitted once, at most one per
   * dequeued entry.
   */
  lemma {:induction false} AdmissionsFacts(items: seq<QueueItem>, tasks: seq<SchedTask>, running: set<string>)
    ensures var a := Admissions(items, tasks, running);
            && |a| <= |items|
            && (forall k :: 0 <= k < |a| ==> a[k] in tasks && a[k].id !in running)
            && (forall i, j :: 0 <= i < j < |a| ==> a[i].id != a[j].id)
            && |Ids(a)| == |a|
  {
    if |items| > 0 {
      var front := items[..|items| - 1];
      AdmissionsFacts(front, tasks, running);
      var prev := Admissions(front, tasks, running);
      var t := SM.FindTask(tasks, items[|items| - 1].taskId);
      if t.Some? && t.value.id !in running && t.value.id !in Ids(prev) {
        IdsSnoc(prev, t.value);
        var a := prev + [t.value];
        forall i, j | 0 <= i < j < |a|
          ensures a[i].id != a[j].id
        {
          if j == |prev| {
            assert a[i] == prev[i];
            assert prev[i].id in Ids(prev);
          }
        }
      }
    }
  }

  /** Admission never lets the running set grow beyond the concurrency limit. */
  lemma AdmissionBound(items: seq<QueueItem>, tasks: seq<SchedTask>, running: set<string>, maxConcurrent: int)
    requires |running| <= maxConcurrent
    ensures var n := Consumed(maxConcurrent - |running|, |items|);
            |running + Ids(Admissions(items[..n], tasks, running))| <= maxConcurrent
  {
    var n := Consumed(maxConcurrent - |running|, |items|);
    var a := Admissions(items[..n], tasks, running);
    AdmissionsFacts(items[..n], tasks, running);
    assert running * Ids(a) == {};
    assert |running + Ids(a)| == |running| + |Ids(a)|;
  }

  /**
   * The slot loop dequeues one entry per free slot and stops early only when the queue
   * runs out; with no free slot it dequeues nothing.
   */
  lemma ConsumedBounds(slots: int, available: nat)
    ensures Consumed(slots, available) <= available
    ensures slots <= 0 ==> Consumed(slots, available) == 0
    ensures slots > 0 ==> Consumed(slots, available) <= slots
    ensures slots > 0 && Consumed(slots, available) < available ==> Consumed(slots, available) == slots
  {
  }

  /**
   * Running and settling one admitted task changes only the first record with its id: that
   * record ends Succeeded, Pending for a retry, or Failed, and an unknown id changes nothing.
   */
  lemma RunOneFacts(tasks: seq<SchedTask>, snapshot: SchedTask, fails: bool, now: int)
    ensures var r := RunOne(tasks, snapshot, fails, now);
            && |r| == |tasks|
            && (forall k :: 0 <= k < |tasks| ==> r[k].id == tasks[k].id)
            && (SM.IndexOfTask(tasks, snapshot.id).None? ==> r == tasks)
            && (SM.IndexOfTask(tasks, snapshot.id).Some? ==>
                  var i := SM.IndexOfTask(tasks, snapshot.id).value;
                  && (forall k :: 0 <= k < |tasks| && k != i ==> r[k] == tasks[k])
                  && r[i].state == (if !fails then Succeeded
                                    else if snapshot.retryCount < snapshot.maxRetries then Pending
                                    else Failed))
  {
  }

  /**
   * Settling the admitted tasks in turn keeps the list's length and ids, and leaves every
   * record whose id was not admitted as it was.
   */
  lemma {:induction false} RunAllFacts(tasks: seq<SchedTask>, admitted: seq<SchedTask>, failing: set<string>, now: int)
    ensures var r := RunAll(tasks, admitted, failing, now);
            && |r| == |tasks|
            && (forall k :: 0 <= k < |tasks| ==> r[k].id == tasks[k].id)
            && (forall k :: 0 <= k < |tasks| && tasks[k].id !in Ids(admitted) ==> r[k] == tasks[k])
  {
    if |admitted| > 0 {
      var front, last := admitted[..|admitted| - 1], admitted[|admitted| - 1];
      RunAllFacts(tasks, front, failing, now);
      var prev := RunAll(tasks, front, failing, now);
      RunOneFacts(prev, last, last.id in failing, now);
      assert admitted == front + [last];
      IdsSnoc(front, last);
    }
  }
}
