/**
 * `BaseAdapter`: the defaults every adapter inherits (an approving review, a zero estimate)
 * and the two helpers that build execution results.
 */
module BaseAdapter {
  import opened Wrappers
  import opened AdapterTypes

  const NoReviewSummary := "No review performed"

  /** The inherited `review`: approve, with nothing said and nothing spent. */
  function DefaultReview(): (r: ReviewResult)
    ensures r.approved && r.summary == NoReviewSummary && r.comments == []
    ensures r.inputTokens == 0 && r.outputTokens == 0 && r.durationMs == 0
  {
    ReviewResult(true, NoReviewSummary, [], 0, 0, 0)
  }

  /** The inherited `estimateCost`: zero, under the adapter's name. */
  function DefaultEstimate(name: string): (e: CostEstimate)
    ensures e.estimatedInputTokens == 0 && e.estimatedOutputTokens == 0 && e.estimatedCostUsd == 0.0
    ensures e.modelId == name
  {
    CostEstimate(0, 0, 0.0, name)
  }

  /** `createSuccessResult`: a successful result carrying the given fields and no error. */
  function SuccessResult(output: string, modifiedFiles: seq<string>, inputTokens: int, outputTokens: int, durationMs: int)
    : (r: ExecutionResult)
    ensures r.success && r.error.None?
    ensures r.output == output && r.modifiedFiles == modifiedFiles
    ensures r.inputTokens == inputTokens && r.outputTokens == outputTokens && r.durationMs == durationMs
  {
    ExecutionResult(true, output, None, inputTokens, outputTokens, modifiedFiles, durationMs)
  }

  /** `createErrorResult`: a failed result with empty output and no files; omitted counts are 0. */
  function ErrorResult(error: string, inputTokens: Option<int>, outputTokens: Option<int>, durationMs: Option<int>)
    : (r: ExecutionResult)
    ensures !r.success && r.error == Some(error)
    ensures r.output == "" && r.modifiedFiles == []
    ensures r.inputTokens == inputTokens.GetOr(0) && r.outputTokens == outputTokens.GetOr(0)
    ensures r.durationMs == durationMs.GetOr(0)
  {
    ExecutionResult(false, "", Some(error), inputTokens.GetOr(0), outputTokens.GetOr(0), [], durationMs.GetOr(0))
  }

  /** The two helpers never build the same result, and a result's error is present exactly when it failed. */
  lemma HelpersDisjoint(output: string, files: seq<string>, i1: int, o1: int, d1: int,
                        error: string, i2: Option<int>, o2: Option<int>, d2: Option<int>)
    ensures SuccessResult(output, files, i1, o1, d1) != ErrorResult(error, i2, o2, d2)
    ensures SuccessResult(output, files, i1, o1, d1).error.None? && ErrorResult(error, i2, o2, d2).error.Some?
  {
  }
}
