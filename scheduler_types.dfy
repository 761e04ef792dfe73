/** The scheduler's records: task states, the tasks tracked in a run, and queue entries. */
module SchedulerTypes {
  import opened Wrappers

  datatype TaskState = Pending | Running | Succeeded | Failed | Blocked | WaitingReview | WaitingHuman

  /** The status of a whole run. */
  datatype RunStatus = RunRunning | Completed | RunFailed | Cancelled

  /** A task as the scheduler tracks it; times are clock readings in milliseconds. */
  datatype SchedTask = SchedTask(
    id: string,
    title: string,
    repo: string,
    tool: string,
    dependsOn: seq<string>,
    state: TaskState,
    assignedModel: Option<string>,
    startTime: Option<int>,
    endTime: Option<int>,
    error: Option<string>,
    retryCount: int,
    maxRetries: int)

  /** A queue entry: a higher priority goes first, then an earlier timestamp. */
  datatype QueueItem = QueueItem(taskId: string, priority: int, timestamp: int)
}
