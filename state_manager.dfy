/**
 * `StateManager`: the run record and its task list, with state transitions that stamp
 * times, a bounded retry counter and the rule for which tasks are ready.
 */
module StateManager {
  import opened Wrappers
  import opened SchedulerTypes

  // ----- Queries on the task list -----

  /** The position of the first task with `taskId` (`findIndex`). */
  function IndexOfTask(tasks: seq<SchedTask>, taskId: string): (r: Option<nat>)
    ensures r.None? <==> forall k :: 0 <= k < |tasks| ==> tasks[k].id != taskId
    ensures r.Some? ==> r.value < |tasks| && tasks[r.value].id == taskId
                        && forall k :: 0 <= k < r.value ==> tasks[k].id != taskId
  {
    if |tasks| == 0 then None
    else if tasks[0].id == taskId then Some(0)
    else match IndexOfTask(tasks[1..], taskId)
      case None => None
      case Some(i) => Some(i + 1)
  }

  /** The first task with `taskId` (`find`). */
  function FindTask(tasks: seq<SchedTask>, taskId: string): (r: Option<SchedTask>)
    ensures r.Some? <==> exists k :: 0 <= k < |tasks| && tasks[k].id == taskId
    ensures r.Some? ==> r.value.id == taskId && r.value in tasks
    ensures r.Some? ==> IndexOfTask(tasks, taskId).Some? && r.value == tasks[IndexOfTask(tasks, taskId).value]
  {
    match IndexOfTask(tasks, taskId)
    case None => None
    case Some(i) => Some(tasks[i])
  }

  /** The tasks in `state`, in list order (`filter`). */
  function TasksInState(tasks: seq<SchedTask>, state: TaskState): (r: seq<SchedTask>)
    ensures |r| <= |tasks|
    ensures forall t :: t in r ==> t in tasks && t.state == state
  {
    if |tasks| == 0 then []
    else TasksInState(tasks[..|tasks| - 1], state)
         + (if tasks[|tasks| - 1].state == state then [tasks[|tasks| - 1]] else [])
  }

  /** A dependency is met when the first task with that id has succeeded; an unknown id is never met. */
  predicate DependencyMet(tasks: seq<SchedTask>, depId: string) {
    match FindTask(tasks, depId)
    case None => false
    case Some(t) => t.state == Succeeded
  }

  /** Ready: pending, and every dependency's first task with that id has succeeded. */
  predicate IsReady(tasks: seq<SchedTask>, t: SchedTask)
    ensures IsReady(tasks, t) ==> t.state == Pending
    ensures (exists d :: d in t.dependsOn && forall k :: 0 <= k < |tasks| ==> tasks[k].id != d) ==> !IsReady(tasks, t)
  {
    t.state == Pending && forall d :: d in t.dependsOn ==> DependencyMet(tasks, d)
  }

  /** The pending tasks whose dependencies are all met, in list order. */
  function ReadyTasks(tasks: seq<SchedTask>): (r: seq<SchedTask>)
    ensures forall t :: t in r <==> t in tasks && IsReady(tasks, t)
  {
    ReadyExactly(tasks, tasks);
    ReadyAmong(tasks, tasks)
  }

  function ReadyAmong(tasks: seq<SchedTask>, candidates: seq<SchedTask>): seq<SchedTask> {
    if |candidates| == 0 then []
    else ReadyAmong(tasks, candidates[..|candidates| - 1])
         + (if IsReady(tasks, candidates[|candidates| - 1]) then [candidates[|candidates| - 1]] else [])
  }

  // ----- Transitions -----

  /**
   * The record `updateTaskState` writes: the new state and error, a start stamp and a cleared
   * end on entering Running, an end stamp on entering Succeeded or Failed, and a cleared end on
   * entering Pending, where an empty error also becomes absent (`error || undefined`).
   */
  function Transition(t: SchedTask, newState: TaskState, error: Option<string>, now: int): (r: SchedTask)
    ensures r.state == newState
    ensures newState == Running ==> r.startTime == Some(now) && r.endTime == None
    ensures newState != Running ==> r.startTime == t.startTime
    ensures newState in {Succeeded, Failed} ==> r.endTime == Some(now)
    ensures newState == Pending ==> r.endTime == None
    ensures newState !in {Running, Succeeded, Failed, Pending} ==> r.endTime == t.endTime
    ensures newState != Pending ==> r.error == error
    ensures newState == Pending ==> r.error == if error == Some("") then None else error
    ensures r.(state := t.state, startTime := t.startTime, endTime := t.endTime, error := t.error) == t
    ensures r.id == t.id && r.retryCount == t.retryCount && r.maxRetries == t.maxRetries
  {
    var t1 := t.(state := newState, error := error);
    var t2 := if newState == Running then t1.(startTime := Some(now), endTime := None) else t1;
    var t3 := if newState == Succeeded || newState == Failed then t2.(endTime := Some(now)) else t2;
    if newState == Pending then t3.(endTime := None, error := if error == Some("") then None else error)
    else t3
  }

  /** The retry counter of every task stays within its bound. */
  ghost predicate RetriesBounded(tasks: seq<SchedTask>) {
    forall k :: 0 <= k < |tasks| ==> tasks[k].retryCount <= tasks[k].maxRetries
  }

  class StateManager {
    var id: string
    var tasks: seq<SchedTask>
    var startTime: int
    var endTime: Option<int>
    var status: RunStatus

    constructor(runId: string, now: int)
      ensures id == runId && tasks == [] && status == RunRunning
      ensures startTime == now && endTime == None
    {
      id := runId;
      tasks := [];
      startTime := now;
      endTime := None;
      status := RunRunning;
    }

    method AddTask(task: SchedTask)
      modifies this
      ensures tasks == old(tasks) + [task]
      ensures id == old(id) && startTime == old(startTime) && endTime == old(endTime) && status == old(status)
    {
      tasks := tasks + [task];
    }

    /** `getTask`: the first stored task with `taskId`, or none. */
    function GetTask(taskId: string): (r: Option<SchedTask>)
      reads this
      ensures r == FindTask(tasks, taskId)
    {
      FindTask(tasks, taskId)
    }

    method UpdateTaskState(taskId: string, newState: TaskState, error: Option<string>, now: int) returns (updated: bool)
      modifies this
      ensures updated <==> IndexOfTask(old(tasks), taskId).Some?
      ensures tasks == match IndexOfTask(old(tasks), taskId)
                       case None => old(tasks)
                       case Some(i) => old(tasks)[i := Transition(old(tasks)[i], newState, error, now)]
      ensures id == old(id) && startTime == old(startTime) && endTime == old(endTime) && status == old(status)
    {
      var index := FindIndex(tasks, taskId);
      if index == -1 {
        return false;
      }
      tasks := tasks[index := Transition(tasks[index], newState, error, now)];
      return true;
    }

    method IncrementRetryCount(taskId: string) returns (incremented: bool)
      modifies this
      ensures incremented <==> match IndexOfTask(old(tasks), taskId)
                               case None => false
                               case Some(i) => old(tasks)[i].retryCount < old(tasks)[i].maxRetries
      ensures tasks == if incremented
                       then var i := IndexOfTask(old(tasks), taskId).value;
                            old(tasks)[i := old(tasks)[i].(retryCount := old(tasks)[i].retryCount + 1)]
                       else old(tasks)
      ensures RetriesBounded(old(tasks)) ==> RetriesBounded(tasks)
      ensures id == old(id) && startTime == old(startTime) && endTime == old(endTime) && status == old(status)
    {
      var index := FindIndex(tasks, taskId);
      if index == -1 {
        return false;
      }
      var task := tasks[index];
      if task.retryCount >= task.maxRetries {
        return false;
      }
      tasks := tasks[index := task.(retryCount := task.retryCount + 1)];
      return true;
    }

    function GetTasksByState(state: TaskState): (r: seq<SchedTask>)
      reads this
      ensures forall t :: t in r <==> t in tasks && t.state == state
      ensures r == TasksInState(tasks, state)
    {
      StateFilter(tasks, state);
      TasksInState(tasks, state)
    }

    function GetPendingTasks(): (r: seq<SchedTask>)
      reads this
      ensures forall t :: t in r <==> t in tasks && t.state == Pending
    {
      GetTasksByState(Pending)
    }

    function GetReadyTasks(): (r: seq<SchedTask>)
      reads this
      ensures forall t :: t in r <==> t in tasks && IsReady(tasks, t)
      ensures r == ReadyTasks(tasks)
    {
      ReadyTasks(tasks)
    }

    method SetRunStatus(newStatus: RunStatus, now: int)
      modifies this
      ensures status == newStatus
      ensures endTime == if newStatus == RunRunning then old(endTime) else Some(now)
      ensures id == old(id) && tasks == old(tasks) && startTime == old(startTime)
    {
      status := newStatus;
      if newStatus in {Completed, RunFailed, Cancelled} {
        endTime := Some(now);
      }
    }

    /** A copy of the task list: the same entries in the same order. */
    function GetAllTasks(): (r: seq<SchedTask>)
      reads this
      ensures |r| == |tasks| && forall k :: 0 <= k < |r| ==> r[k] == tasks[k]
    {
      tasks
    }
  }

  /** The `findIndex` loop over the task list. */
  method FindIndex(tasks: seq<SchedTask>, taskId: string) returns (index: int)
    ensures index == match IndexOfTask(tasks, taskId) case None => -1 case Some(i) => i
  {
    var i := 0;
    while i < |tasks|
      invariant i <= |tasks|
      invariant forall k :: 0 <= k < i ==> tasks[k].id != taskId
    {
      if tasks[i].id == taskId {
        return i;
      }
      i := i + 1;
    }
    return -1;
  }

  // ----- Properties -----

  /** Rewriting the found task with a record of the same id leaves the search result in place. */
  lemma IndexAfterUpdate(tasks: seq<SchedTask>, taskId: string, i: nat, t: SchedTask)
    requires IndexOfTask(tasks, taskId) == Some(i) && t.id == taskId
    ensures IndexOfTask(tasks[i := t], taskId) == Some(i)
  {
    var u := tasks[i := t];
    assert u[i].id == taskId;
    assert forall k :: 0 <= k < i ==> u[k].id != taskId by {
      forall k | 0 <= k < i
        ensures u[k].id != taskId
      {
        assert u[k] == tasks[k];
      }
    }
  }

  /** The state filter keeps exactly the tasks in that state (its order: `StateFilterOrder`). */
  lemma {:induction false} StateFilter(tasks: seq<SchedTask>, state: TaskState)
    ensures forall t :: t in TasksInState(tasks, state) <==> t in tasks && t.state == state
    ensures |TasksInState(tasks, state)| <= |tasks|
  {
    if |tasks| > 0 {
      StateFilter(tasks[..|tasks| - 1], state);
      assert tasks == tasks[..|tasks| - 1] + [tasks[|tasks| - 1]];
    }
  }

  /** The ready list holds exactly the pending tasks whose every dependency names a task that has succeeded. */
  lemma {:induction false} ReadyExactly(tasks: seq<SchedTask>, candidates: seq<SchedTask>)
    ensures forall t :: t in ReadyAmong(tasks, candidates) <==>
              t in candidates && t.state == Pending &&
              forall d :: d in t.dependsOn ==> FindTask(tasks, d).Some? && FindTask(tasks, d).value.state == Succeeded
  {
    if |candidates| > 0 {
      ReadyExactly(tasks, candidates[..|candidates| - 1]);
      assert candidates == candidates[..|candidates| - 1] + [candidates[|candidates| - 1]];
    }
  }

  /**
   * The state filter keeps list order and multiplicity: filtering a concatenation filters each
   * part in turn (and `TasksInState([t], state)` is `[t]` or `[]` by definition).
   */
  lemma {:induction false} StateFilterOrder(tasks: seq<SchedTask>, more: seq<SchedTask>, state: TaskState)
    ensures TasksInState(tasks + more, state) == TasksInState(tasks, state) + TasksInState(more, state)
  {
    if |more| == 0 {
      assert tasks + more == tasks;
    } else {
      var front, last := more[..|more| - 1], more[|more| - 1];
      assert more == front + [last];
      assert tasks + more == (tasks + front) + [last];
      StateFilterOrder(tasks, front, state);
      StateFilterSnoc(tasks + front, last, state);
      StateFilterSnoc(front, last, state);
      var a, b := TasksInState(tasks, state), TasksInState(front, state);
      var keep := if last.state == state then [last] else [];
      ConcatAssoc(a, b, keep);
    }
  }

  /** Concatenation of lists is associative. */
  lemma ConcatAssoc<T>(a: seq<T>, b: seq<T>, c: seq<T>)
    ensures (a + b) + c == a + (b + c)
  {
  }

  /** Filtering a list with one more task at its end adds that task exactly when it is in the state. */
  lemma StateFilterSnoc(tasks: seq<SchedTask>, last: SchedTask, state: TaskState)
    ensures TasksInState(tasks + [last], state)
            == TasksInState(tasks, state) + (if last.state == state then [last] else [])
  {
    var all := tasks + [last];
    assert all[..|all| - 1] == tasks;
  }

  /**
   * The ready list keeps list order and multiplicity: the ready tasks among a concatenation are
   * those of each part in turn (and `ReadyAmong(tasks, [t])` is `[t]` or `[]` by definition).
   */
  lemma {:induction false} ReadyOrder(tasks: seq<SchedTask>, front: seq<SchedTask>, back: seq<SchedTask>)
    ensures ReadyAmong(tasks, front + back) == ReadyAmong(tasks, front) + ReadyAmong(tasks, back)
  {
    if |back| == 0 {
      assert front + back == front;
    } else {
      var init, last := back[..|back| - 1], back[|back| - 1];
      var all := front + back;
      assert all[..|all| - 1] == front + init && all[|all| - 1] == last;
      ReadyOrder(tasks, front, init);
      var keep := if IsReady(tasks, last) then [last] else [];
      assert ReadyAmong(tasks, all) == ReadyAmong(tasks, front + init) + keep;
      assert ReadyAmong(tasks, back) == ReadyAmong(tasks, init) + keep;
    }
  }

  /** A task that depends on an id no task has is never ready. */
  lemma UnknownDependencyBlocks(tasks: seq<SchedTask>, t: SchedTask, d: string)
    requires d in t.dependsOn
    requires forall k :: 0 <= k < |tasks| ==> tasks[k].id != d
    ensures t !in ReadyTasks(tasks)
  {
    ReadyExactly(tasks, tasks);
  }
}
