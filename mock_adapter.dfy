/**
 * `MockAdapter`: an adapter that answers from its configuration, counting how often it is asked
 * to execute and to review.
 */
module MockAdapter {
  import opened Wrappers
  import opened TaskTypes
  import opened AdapterTypes
  import opened BaseAdapter

  const DefaultName := "mock-adapter"
  const DefaultOutput := "Mock execution completed successfully"
  const FailureMessage := "Mock execution failed"
  const OutputFileName := "/mock-output.ts"
  const MockInputTokens := 100
  const MockOutputTokens := 50
  const CostPerToken: real := 0.0001

  /** The configuration; every field may be absent (`undefined`). */
  datatype MockConfig = MockConfig(
    shouldSucceed: Option<bool>,
    delayMs: Option<int>,
    customOutput: Option<string>,
    isAvailable: Option<bool>,
    shouldApprove: Option<bool>)

  /** A key of a partial configuration: left out, or present with a value that may be `undefined`. */
  datatype Setting<T> = Unset | SetTo(value: Option<T>)

  datatype ConfigUpdate = ConfigUpdate(
    shouldSucceed: Setting<bool>,
    delayMs: Setting<int>,
    customOutput: Setting<string>,
    isAvailable: Setting<bool>,
    shouldApprove: Setting<bool>)

  const NoUpdate := ConfigUpdate(Unset, Unset, Unset, Unset, Unset)

  const DefaultConfig := MockConfig(Some(true), Some(0), Some(DefaultOutput), Some(true), Some(true))

  /** One key of `{ ...current, ...update }`. */
  function Override<T>(current: Option<T>, s: Setting<T>): (r: Option<T>)
    ensures s.Unset? ==> r == current
    ensures s.SetTo? ==> r == s.value
  {
    match s
    case Unset => current
    case SetTo(v) => v
  }

  /** `{ ...config, ...update }`: the keys present in the update win. */
  function Merge(config: MockConfig, update: ConfigUpdate): MockConfig {
    MockConfig(
      Override(config.shouldSucceed, update.shouldSucceed),
      Override(config.delayMs, update.delayMs),
      Override(config.customOutput, update.customOutput),
      Override(config.isAvailable, update.isAvailable),
      Override(config.shouldApprove, update.shouldApprove))
  }

  /** The update that applying `first` and then `second` amounts to. */
  function Then(first: ConfigUpdate, second: ConfigUpdate): ConfigUpdate {
    ConfigUpdate(
      if second.shouldSucceed.SetTo? then second.shouldSucceed else first.shouldSucceed,
      if second.delayMs.SetTo? then second.delayMs else first.delayMs,
      if second.customOutput.SetTo? then second.customOutput else first.customOutput,
      if second.isAvailable.SetTo? then second.isAvailable else first.isAvailable,
      if second.shouldApprove.SetTo? then second.shouldApprove else first.shouldApprove)
  }

  /** JavaScript truthiness of an optional flag. */
  predicate IsSet(flag: Option<bool>) {
    flag == Some(true)
  }

  /** What `execute` returns; `elapsed` is the clock's advance while it runs. */
  function ExecuteOutcome(config: MockConfig, context: TaskContext, elapsed: int): (r: ExecutionResult)
    ensures r.success <==> config.shouldSucceed == Some(true)
    ensures r.success <==> r.error.None?
    ensures r.inputTokens == MockInputTokens && r.durationMs == elapsed + config.delayMs.GetOr(0)
  {
    var duration := elapsed + config.delayMs.GetOr(0);
    if IsSet(config.shouldSucceed) then
      SuccessResult(config.customOutput.GetOr("Executed task: " + context.task.id),
                    [context.worktreePath + OutputFileName], MockInputTokens, MockOutputTokens, duration)
    else
      ErrorResult(FailureMessage, Some(MockInputTokens), Some(0), Some(duration))
  }

  const MockComment := ReviewComment("mock-file.ts", Some(1), SeverityWarning, "Mock review comment",
                                     Some("Consider improving this code"))

  /** What `review` returns; `elapsed` is the clock's advance while it runs. */
  function ReviewOutcome(config: MockConfig, diff: string, elapsed: int): (r: ReviewResult)
    ensures r.approved <==> config.shouldApprove != Some(false)
    ensures r.comments == [] <==> config.shouldApprove == Some(true)
    ensures r.inputTokens == |diff| && r.durationMs == elapsed + config.delayMs.GetOr(0)
  {
    ReviewResult(
      config.shouldApprove.GetOr(true),
      if IsSet(config.shouldApprove) then "Code looks good" else "Code needs improvements",
      if IsSet(config.shouldApprove) then [] else [MockComment],
      |diff|,
      MockOutputTokens,
      elapsed + config.delayMs.GetOr(0))
  }

  /** The estimate from the title: ten input tokens per character, twice that out, at 0.0001 a token. */
  function Estimate(name: string, context: TaskContext): (e: CostEstimate)
    ensures e.estimatedInputTokens == 10 * |context.task.title|
    ensures e.estimatedOutputTokens == 2 * e.estimatedInputTokens
    ensures e.estimatedCostUsd == (e.estimatedInputTokens + e.estimatedOutputTokens) as real * CostPerToken
    ensures e.modelId == name
  {
    var inputTokens := |context.task.title| * 10;
    var outputTokens := inputTokens * 2;
    CostEstimate(inputTokens, outputTokens, (inputTokens + outputTokens) as real * CostPerToken, name)
  }

  class MockAdapter {
    const name: string
    var config: MockConfig
    var executionCount: int
    var reviewCount: int

    /** The name defaults to `mock-adapter`; the given keys override the default configuration. */
    constructor(name: Option<string>, config: Option<ConfigUpdate>)
      ensures this.name == name.GetOr(DefaultName)
      ensures this.config == Merge(DefaultConfig, config.GetOr(NoUpdate))
      ensures executionCount == 0 && reviewCount == 0
    {
      this.name := name.GetOr(DefaultName);
      this.config := Merge(DefaultConfig, config.GetOr(NoUpdate));
      executionCount := 0;
      reviewCount := 0;
    }

    function GetName(): string {
      name
    }

    function IsAvailable(): bool
      reads this
    {
      config.isAvailable.GetOr(true)
    }

    method Execute(context: TaskContext, elapsed: int) returns (result: ExecutionResult)
      modifies this
      ensures executionCount == old(executionCount) + 1
      ensures result == ExecuteOutcome(config, context, elapsed)
      ensures config == old(config) && reviewCount == old(reviewCount)
    {
      executionCount := executionCount + 1;
      result := ExecuteOutcome(config, context, elapsed);
    }

    method Review(context: TaskContext, diff: string, elapsed: int) returns (result: ReviewResult)
      modifies this
      ensures reviewCount == old(reviewCount) + 1
      ensures result == ReviewOutcome(config, diff, elapsed)
      ensures config == old(config) && executionCount == old(executionCount)
    {
      reviewCount := reviewCount + 1;
      result := ReviewOutcome(config, diff, elapsed);
    }

    function EstimateCost(context: TaskContext): CostEstimate {
      Estimate(name, context)
    }

    function GetExecutionCount(): int
      reads this
    {
      executionCount
    }

    function GetReviewCount(): int
      reads this
    {
      reviewCount
    }

    method ResetCounters()
      modifies this
      ensures executionCount == 0 && reviewCount == 0 && config == old(config)
    {
      executionCount := 0;
      reviewCount := 0;
    }

    method UpdateConfig(update: ConfigUpdate)
      modifies this
      ensures config == Merge(old(config), update)
      ensures executionCount == old(executionCount) && reviewCount == old(reviewCount)
    {
      config := Merge(config, update);
    }
  }

  // ----- Properties -----

  /** An empty update changes nothing. */
  lemma NoUpdateKeeps(config: MockConfig)
    ensures Merge(config, NoUpdate) == config
  {
  }

  /** Two updates in a row are one combined update, so later keys win. */
  lemma MergeThen(config: MockConfig, first: ConfigUpdate, second: ConfigUpdate)
    ensures Merge(Merge(config, first), second) == Merge(config, Then(first, second))
  {
  }

  /** Without arguments the adapter succeeds, is available, approves and does not wait. */
  lemma Defaults()
    ensures var c := Merge(DefaultConfig, NoUpdate);
            IsSet(c.shouldSucceed) && c.isAvailable == Some(true) && IsSet(c.shouldApprove)
            && c.delayMs == Some(0) && c.customOutput == Some(DefaultOutput)
  {
  }

  /** A run succeeds exactly when `shouldSucceed` is set, with the outputs and token counts fixed for each outcome. */
  lemma ExecuteShapes(config: MockConfig, context: TaskContext, elapsed: int)
    ensures var r := ExecuteOutcome(config, context, elapsed);
            && (r.success <==> IsSet(config.shouldSucceed))
            && r.inputTokens == MockInputTokens
            && r.durationMs == elapsed + config.delayMs.GetOr(0)
            && (r.success ==> r.modifiedFiles == [context.worktreePath + OutputFileName]
                              && r.outputTokens == MockOutputTokens && r.error.None?
                              && r.output == config.customOutput.GetOr("Executed task: " + context.task.id))
            && (!r.success ==> r.error == Some(FailureMessage) && r.outputTokens == 0
                               && r.modifiedFiles == [] && r.output == "")
  {
  }

  /**
   * Review input tokens are the diff's length. With `shouldApprove` present, approval comes with
   * no comments and rejection with exactly one warning.
   */
  lemma ReviewShapes(config: MockConfig, diff: string, elapsed: int)
    requires config.shouldApprove.Some?
    ensures var r := ReviewOutcome(config, diff, elapsed);
            && r.inputTokens == |diff|
            && (r.approved <==> r.comments == [])
            && (!r.approved ==> |r.comments| == 1 && r.comments[0].severity == SeverityWarning)
  {
  }

  /**
   * With `shouldApprove` explicitly `undefined`, the review approves (`?? true`) yet says the code
   * needs improvements and carries the warning comment (a falsy test).
   */
  lemma ReviewUnsetApproval(config: MockConfig, diff: string, elapsed: int)
    requires config.shouldApprove.None?
    ensures var r := ReviewOutcome(config, diff, elapsed);
            r.approved && |r.comments| == 1
  {
  }

  /** The estimate costs 0.003 a title character. */
  lemma EstimatePerCharacter(name: string, context: TaskContext)
    ensures Estimate(name, context).estimatedCostUsd == (|context.task.title| as real) * 0.003
  {
  }
}
