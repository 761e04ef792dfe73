/**
 * Error codes of the orchestrator (src/errors/index.ts).  Each `OrchestratorError`
 * carries one code; its message is `[<code>] <message>`.
 */
module Errors {

  datatype ErrorCode =
    | TaskNotFound
    | TaskDuplicateId
    | TaskDependencyNotFound
    | TaskTimeout
    | TaskMaxRetriesExceeded
    | DagCycleDetected
    | DagBuildFailed
    | GitBranchCreateFailed
    | GitWorktreeCreateFailed
    | GitConflictDetected
    | GitRebaseFailed
    | GitPrCreateFailed
    | LlmApiKeyInvalid
    | LlmRateLimitExceeded
    | LlmResponseParseFailed
    | LlmModelUnavailable
    | BudgetMonthlyExceeded
    | BudgetDailyTokenExceeded
    | BudgetTaskCostExceeded
    | ValidationTestFailed
    | ValidationLintFailed
    | ValidationTypeCheckFailed
    | SysConfigLoadFailed
    | SysDbConnectionFailed
    | SysInternalError

  /** The string value of each enum member; codes are pairwise distinct. */
  function CodeString(c: ErrorCode): (s: string)
    ensures |s| == 5 && s[0] == 'E'
  {
    match c
    case TaskNotFound => "E1001"
    case TaskDuplicateId => "E1002"
    case TaskDependencyNotFound => "E1003"
    case TaskTimeout => "E1004"
    case TaskMaxRetriesExceeded => "E1005"
    case DagCycleDetected => "E2001"
    case DagBuildFailed => "E2002"
    case GitBranchCreateFailed => "E3001"
    case GitWorktreeCreateFailed => "E3002"
    case GitConflictDetected => "E3003"
    case GitRebaseFailed => "E3004"
    case GitPrCreateFailed => "E3005"
    case LlmApiKeyInvalid => "E4001"
    case LlmRateLimitExceeded => "E4002"
    case LlmResponseParseFailed => "E4003"
    case LlmModelUnavailable => "E4004"
    case BudgetMonthlyExceeded => "E5001"
    case BudgetDailyTokenExceeded => "E5002"
    case BudgetTaskCostExceeded => "E5003"
    case ValidationTestFailed => "E6001"
    case ValidationLintFailed => "E6002"
    case ValidationTypeCheckFailed => "E6003"
    case SysConfigLoadFailed => "E9001"
    case SysDbConnectionFailed => "E9002"
    case SysInternalError => "E9003"
  }

  /** A thrown `OrchestratorError`: its code and the message given to the constructor. */
  datatype OrchestratorError = OrchestratorError(code: ErrorCode, message: string)

  /** The text an `OrchestratorError` reports: the code in brackets, then the message. */
  function ErrorText(c: ErrorCode, message: string): (s: string)
    ensures |s| == 8 + |message|
    ensures s[..7] == "[" + CodeString(c) + "]" && s[8..] == message
  {
    "[" + CodeString(c) + "] " + message
  }

  /** Distinct codes have distinct strings, so the code can be read back from an error text. */
  lemma CodeStringInjective(c: ErrorCode, d: ErrorCode)
    requires CodeString(c) == CodeString(d)
    ensures c == d
  {
  }
}
