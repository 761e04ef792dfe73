/**
 * The task records that the task-file schema produces once defaults are applied
 * (`maxRetries` 1, `timeoutMinutes` 30, `dependsOn` empty, review enabled, and so on).
 */
module TaskTypes {
  import opened Wrappers

  type TaskId = string

  datatype MergePolicy = PrOnly | AutoMerge
  datatype CostTier = Low | Medium | High
  datatype ReviewStrictness = Lenient | Normal | Strict

  datatype TaskExecution = TaskExecution(maxRetries: int, escalateOnRetry: bool, timeoutMinutes: int)

  datatype TaskValidation = TaskValidation(
    enabled: bool, cmd: string, lintCmd: Option<string>, stopOnFailure: bool, maxValidationRetries: int)

  datatype TaskReview = TaskReview(
    enabled: bool, reviewerTool: Option<string>, strictness: ReviewStrictness, humanGate: bool, autoFix: bool)

  datatype Task = Task(
    id: TaskId,
    title: string,
    repo: Option<string>,
    tool: Option<string>,
    dependsOn: seq<TaskId>,
    mergePolicy: Option<MergePolicy>,
    costTier: Option<CostTier>,
    complexityHint: Option<string>,
    execution: TaskExecution,
    validation: Option<TaskValidation>,
    review: TaskReview)

  datatype TasksFile = TasksFile(
    version: string,
    project: string,
    defaultRepo: Option<string>,
    defaultTool: Option<string>,
    defaultMergePolicy: MergePolicy,
    tasks: seq<Task>)

  /** The schema's defaults for an omitted `execution` block. */
  const DefaultExecution := TaskExecution(1, false, 30)
  /** The schema's defaults for an omitted `review` block. */
  const DefaultReview := TaskReview(true, None, Normal, false, false)
}
