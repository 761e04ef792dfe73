/** The records that tool adapters exchange with the orchestrator. */
module AdapterTypes {
  import opened Wrappers
  import opened TaskTypes

  datatype ExecutionResult = ExecutionResult(
    success: bool,
    output: string,
    error: Option<string>,
    inputTokens: int,
    outputTokens: int,
    modifiedFiles: seq<string>,
    durationMs: int)

  datatype ReviewSeverity = SeverityError | SeverityWarning | SeverityInfo | SeveritySuggestion

  datatype ReviewComment = ReviewComment(
    file: string,
    line: Option<int>,
    severity: ReviewSeverity,
    message: string,
    suggestion: Option<string>)

  datatype ReviewResult = ReviewResult(
    approved: bool,
    summary: string,
    comments: seq<ReviewComment>,
    inputTokens: int,
    outputTokens: int,
    durationMs: int)

  datatype CostEstimate = CostEstimate(
    estimatedInputTokens: int,
    estimatedOutputTokens: int,
    estimatedCostUsd: real,
    modelId: string)

  /** What an adapter is given for one task. */
  datatype TaskContext = TaskContext(
    task: Task,
    worktreePath: string,
    dependencyResults: map<string, ExecutionResult>,
    contextFiles: seq<string>,
    additionalPrompt: Option<string>,
    retryAttempt: int)
}
