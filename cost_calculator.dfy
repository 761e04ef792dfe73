/** `calculateCost`: linear pricing per thousand tokens. */
module CostCalculator {
  import opened PolicyTypes

  function CalculateCost(model: ModelProfile, inputTokens: real, outputTokens: real): (e: CostEstimate)
    ensures e.inputTokens == inputTokens && e.outputTokens == outputTokens
    ensures e.inputCost * 1000.0 == inputTokens * model.costPer1kInputTokens
    ensures e.outputCost * 1000.0 == outputTokens * model.costPer1kOutputTokens
    ensures e.totalCost == e.inputCost + e.outputCost
  {
    var inputCost := (inputTokens / 1000.0) * model.costPer1kInputTokens;
    var outputCost := (outputTokens / 1000.0) * model.costPer1kOutputTokens;
    CostEstimate(inputTokens, outputTokens, inputCost, outputCost, inputCost + outputCost)
  }

  // ----- Properties -----

  /** No tokens cost nothing. */
  lemma ZeroTokens(model: ModelProfile)
    ensures var e := CalculateCost(model, 0.0, 0.0);
            e.inputCost == 0.0 && e.outputCost == 0.0 && e.totalCost == 0.0
  {
  }

  /** Pricing is linear: the cost of two requests together is the sum of their costs. */
  lemma Additive(model: ModelProfile, i1: real, o1: real, i2: real, o2: real)
    ensures CalculateCost(model, i1 + i2, o1 + o2).totalCost
            == CalculateCost(model, i1, o1).totalCost + CalculateCost(model, i2, o2).totalCost
  {
    var r1, r2 := model.costPer1kInputTokens, model.costPer1kOutputTokens;
    assert (i1 + i2) / 1000.0 * r1 == i1 / 1000.0 * r1 + i2 / 1000.0 * r1;
    assert (o1 + o2) / 1000.0 * r2 == o1 / 1000.0 * r2 + o2 / 1000.0 * r2;
  }

  /** With non-negative rates, more tokens never cost less. */
  lemma Monotone(model: ModelProfile, i1: real, o1: real, i2: real, o2: real)
    requires model.costPer1kInputTokens >= 0.0 && model.costPer1kOutputTokens >= 0.0
    requires i1 <= i2 && o1 <= o2
    ensures CalculateCost(model, i1, o1).totalCost <= CalculateCost(model, i2, o2).totalCost
  {
    Additive(model, i1, o1, i2 - i1, o2 - o1);
    var e := CalculateCost(model, i2 - i1, o2 - o1);
    assert e.inputCost * 1000.0 >= 0.0 && e.outputCost * 1000.0 >= 0.0;
  }

  /** 1000 input and 500 output tokens at 0.03 and 0.06 per thousand. */
  lemma Example(model: ModelProfile)
    requires model.costPer1kInputTokens == 0.03 && model.costPer1kOutputTokens == 0.06
    ensures var e := CalculateCost(model, 1000.0, 500.0);
            e.inputTokens == 1000.0 && e.outputTokens == 500.0
            && e.inputCost == 0.03 && e.outputCost == 0.03 && e.totalCost == 0.06
  {
  }
}
