/** Model profiles, cost estimates and the budget record of the cost policy. */
module PolicyTypes {
  import opened Json

  /**
   * A model's pricing and use. The two list fields keep whatever elements the profile file
   * held: the parser checks only that they are arrays.
   */
  datatype ModelProfile = ModelProfile(
    id: string,
    provider: string,
    model: string,
    costPer1kInputTokens: real,
    costPer1kOutputTokens: real,
    maxTokensPerCall: real,
    qualityTags: seq<Json>,
    defaultUse: seq<Json>,
    tier: real)

  /** The cost tier is compared against "low" and "high"; anything else is treated as medium. */
  datatype TaskAttributes = TaskAttributes(costTier: string, complexityHint: string)

  datatype CostEstimate = CostEstimate(
    inputTokens: real,
    outputTokens: real,
    inputCost: real,
    outputCost: real,
    totalCost: real)

  datatype BudgetState = BudgetState(
    monthlyCostSpent: real,
    dailyTokenSpent: real,
    monthlyCostLimit: real,
    dailyTokenLimit: real)
}
