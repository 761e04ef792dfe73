/**
 * `BudgetManager`: a monthly cost budget and a daily token budget. A limit of zero allows
 * nothing, a negative limit allows everything, and a positive limit allows spending up to it.
 */
module Budget {
  import opened Wrappers
  import opened PolicyTypes

  datatype Remaining = Remaining(monthlyCostRemaining: real, dailyTokenRemaining: real)
  datatype Utilization = Utilization(monthlyCostUtilization: real, dailyTokenUtilization: real)

  const DefaultWarningThreshold: real := 80.0

  /** What one axis allows: anything under a negative limit, up to the limit under a positive one. */
  predicate Allows(limit: real, newSpent: real) {
    limit < 0.0 || (limit > 0.0 && newSpent <= limit)
  }

  /** One axis is exceeded when its limit is zero, or positive and below the new total. */
  predicate Exceeded(limit: real, newSpent: real)
    ensures Exceeded(limit, newSpent) <==> !Allows(limit, newSpent)
    ensures limit == 0.0 ==> Exceeded(limit, newSpent)
    ensures limit < 0.0 ==> !Exceeded(limit, newSpent)
  {
    limit == 0.0 || (limit > 0.0 && newSpent > limit)
  }

  /** A request is allowed when neither new total exceeds its limit. */
  predicate Available(s: BudgetState, cost: real, tokens: real)
    ensures Available(s, cost, tokens) <==>
            Allows(s.monthlyCostLimit, s.monthlyCostSpent + cost) && Allows(s.dailyTokenLimit, s.dailyTokenSpent + tokens)
  {
    !Exceeded(s.monthlyCostLimit, s.monthlyCostSpent + cost)
    && !Exceeded(s.dailyTokenLimit, s.dailyTokenSpent + tokens)
  }

  function Spend(s: BudgetState, cost: real, tokens: real): (r: BudgetState)
    ensures r.monthlyCostLimit == s.monthlyCostLimit && r.dailyTokenLimit == s.dailyTokenLimit
    ensures r.monthlyCostSpent - s.monthlyCostSpent == cost && r.dailyTokenSpent - s.dailyTokenSpent == tokens
  {
    s.(monthlyCostSpent := s.monthlyCostSpent + cost, dailyTokenSpent := s.dailyTokenSpent + tokens)
  }

  function Max0(x: real): real {
    if x > 0.0 then x else 0.0
  }

  /** What is left under each limit, never below zero. */
  function RemainingOf(s: BudgetState): (r: Remaining)
    ensures r.monthlyCostRemaining >= 0.0 && r.monthlyCostRemaining >= s.monthlyCostLimit - s.monthlyCostSpent
    ensures r.monthlyCostRemaining == 0.0 || r.monthlyCostRemaining == s.monthlyCostLimit - s.monthlyCostSpent
    ensures r.dailyTokenRemaining >= 0.0 && r.dailyTokenRemaining >= s.dailyTokenLimit - s.dailyTokenSpent
    ensures r.dailyTokenRemaining == 0.0 || r.dailyTokenRemaining == s.dailyTokenLimit - s.dailyTokenSpent
  {
    Remaining(Max0(s.monthlyCostLimit - s.monthlyCostSpent), Max0(s.dailyTokenLimit - s.dailyTokenSpent))
  }

  /** Spent as a percentage of a positive limit; zero when there is no positive limit. */
  function Percent(spent: real, limit: real): (p: real)
    ensures limit > 0.0 ==> p * limit == spent * 100.0
    ensures limit <= 0.0 ==> p == 0.0
  {
    if limit > 0.0 then
      assert (spent / limit) * limit == spent;
      (spent / limit) * 100.0
    else 0.0
  }

  /** One axis reaches the threshold: its share of a positive limit does, or, without one, its zero utilisation does. */
  predicate AxisWarns(spent: real, limit: real, threshold: real) {
    if limit > 0.0 then spent * 100.0 >= threshold * limit else threshold <= 0.0
  }

  function UtilizationOf(s: BudgetState): Utilization {
    Utilization(Percent(s.monthlyCostSpent, s.monthlyCostLimit), Percent(s.dailyTokenSpent, s.dailyTokenLimit))
  }

  predicate Warning(s: BudgetState, threshold: real)
    ensures Warning(s, threshold) <==>
            AxisWarns(s.monthlyCostSpent, s.monthlyCostLimit, threshold) || AxisWarns(s.dailyTokenSpent, s.dailyTokenLimit, threshold)
  {
    PercentAxis(s.monthlyCostSpent, s.monthlyCostLimit, threshold);
    PercentAxis(s.dailyTokenSpent, s.dailyTokenLimit, threshold);
    var u := UtilizationOf(s);
    u.monthlyCostUtilization >= threshold || u.dailyTokenUtilization >= threshold
  }

  class BudgetManager {
    var state: BudgetState
    var warningThreshold: real

    constructor(initialState: BudgetState, threshold: Option<real>)
      ensures state == initialState && warningThreshold == threshold.GetOr(DefaultWarningThreshold)
    {
      state := initialState;
      warningThreshold := threshold.GetOr(DefaultWarningThreshold);
    }

    /** A copy of the state. */
    function GetState(): (r: BudgetState)
      reads this
      ensures r.monthlyCostLimit == state.monthlyCostLimit && r.monthlyCostSpent == state.monthlyCostSpent
      ensures r.dailyTokenLimit == state.dailyTokenLimit && r.dailyTokenSpent == state.dailyTokenSpent
    {
      state
    }

    function IsBudgetAvailable(costToAdd: real, tokensToAdd: real): (r: bool)
      reads this
      ensures r <==> Allows(state.monthlyCostLimit, state.monthlyCostSpent + costToAdd)
                     && Allows(state.dailyTokenLimit, state.dailyTokenSpent + tokensToAdd)
    {
      Available(state, costToAdd, tokensToAdd)
    }

    method AddSpending(cost: real, tokens: real)
      modifies this
      ensures state == Spend(old(state), cost, tokens)
      ensures warningThreshold == old(warningThreshold)
    {
      state := state.(monthlyCostSpent := state.monthlyCostSpent + cost,
                      dailyTokenSpent := state.dailyTokenSpent + tokens);
    }

    function GetRemainingBudget(): (r: Remaining)
      reads this
      ensures r.monthlyCostRemaining >= 0.0 && r.monthlyCostRemaining >= state.monthlyCostLimit - state.monthlyCostSpent
      ensures r.monthlyCostRemaining == 0.0 || r.monthlyCostRemaining == state.monthlyCostLimit - state.monthlyCostSpent
      ensures r.dailyTokenRemaining >= 0.0 && r.dailyTokenRemaining >= state.dailyTokenLimit - state.dailyTokenSpent
      ensures r.dailyTokenRemaining == 0.0 || r.dailyTokenRemaining == state.dailyTokenLimit - state.dailyTokenSpent
    {
      RemainingOf(state)
    }

    function GetUtilizationPercentage(): (r: Utilization)
      reads this
      ensures state.monthlyCostLimit > 0.0 ==> r.monthlyCostUtilization * state.monthlyCostLimit == state.monthlyCostSpent * 100.0
      ensures state.monthlyCostLimit <= 0.0 ==> r.monthlyCostUtilization == 0.0
      ensures state.dailyTokenLimit > 0.0 ==> r.dailyTokenUtilization * state.dailyTokenLimit == state.dailyTokenSpent * 100.0
      ensures state.dailyTokenLimit <= 0.0 ==> r.dailyTokenUtilization == 0.0
    {
      UtilizationOf(state)
    }

    function IsWarningThresholdExceeded(): (r: bool)
      reads this
      ensures r <==> AxisWarns(state.monthlyCostSpent, state.monthlyCostLimit, warningThreshold)
                     || AxisWarns(state.dailyTokenSpent, state.dailyTokenLimit, warningThreshold)
    {
      Warning(state, warningThreshold)
    }
  }

  // ----- Properties -----

  /** A zero limit on either axis refuses every request, even one that adds nothing. */
  lemma ZeroLimitDenies(s: BudgetState, cost: real, tokens: real)
    requires s.monthlyCostLimit == 0.0 || s.dailyTokenLimit == 0.0
    ensures !Available(s, cost, tokens)
  {
  }

  /**
   * A negative limit never refuses on its own axis, whatever the other limit is: the decision
   * is then the other axis's alone, and with both limits negative every request is allowed.
   */
  lemma NegativeLimitsAllow(s: BudgetState, cost: real, tokens: real)
    ensures s.monthlyCostLimit < 0.0 ==> !Exceeded(s.monthlyCostLimit, s.monthlyCostSpent + cost)
    ensures s.dailyTokenLimit < 0.0 ==> !Exceeded(s.dailyTokenLimit, s.dailyTokenSpent + tokens)
    ensures s.monthlyCostLimit < 0.0 ==>
              (Available(s, cost, tokens) <==> !Exceeded(s.dailyTokenLimit, s.dailyTokenSpent + tokens))
    ensures s.dailyTokenLimit < 0.0 ==>
              (Available(s, cost, tokens) <==> !Exceeded(s.monthlyCostLimit, s.monthlyCostSpent + cost))
    ensures s.monthlyCostLimit < 0.0 && s.dailyTokenLimit < 0.0 ==> Available(s, cost, tokens)
  {
  }

  /** Under positive limits a request is allowed exactly when both new totals stay within them. */
  lemma AvailableIff(s: BudgetState, cost: real, tokens: real)
    requires s.monthlyCostLimit > 0.0 && s.dailyTokenLimit > 0.0
    ensures Available(s, cost, tokens) <==>
            s.monthlyCostSpent + cost <= s.monthlyCostLimit && s.dailyTokenSpent + tokens <= s.dailyTokenLimit
  {
  }

  /** Spending what was allowed keeps within the limits and lowers the remainders by exactly the amounts spent. */
  lemma SpendAllowed(s: BudgetState, cost: real, tokens: real)
    requires Available(s, cost, tokens)
    requires s.monthlyCostLimit > 0.0 && s.dailyTokenLimit > 0.0
    requires cost >= 0.0 && tokens >= 0.0
    ensures var after := Spend(s, cost, tokens);
            after.monthlyCostSpent <= after.monthlyCostLimit && after.dailyTokenSpent <= after.dailyTokenLimit
    ensures var r, r' := RemainingOf(s), RemainingOf(Spend(s, cost, tokens));
            r'.monthlyCostRemaining == r.monthlyCostRemaining - cost
            && r'.dailyTokenRemaining == r.dailyTokenRemaining - tokens
  {
  }

  /** Two spendings add up to one of their sum. */
  lemma SpendTwice(s: BudgetState, c1: real, t1: real, c2: real, t2: real)
    ensures Spend(Spend(s, c1, t1), c2, t2) == Spend(s, c1 + c2, t1 + t2)
  {
  }

  /** The utilisation of one axis reaches the threshold exactly when that axis warns. */
  lemma PercentAxis(spent: real, limit: real, threshold: real)
    ensures Percent(spent, limit) >= threshold <==> AxisWarns(spent, limit, threshold)
  {
    if limit > 0.0 {
      PercentAtLeast(spent, limit, threshold);
    }
  }

  /** A share of a positive limit reaches a percentage exactly when the amount reaches that fraction of the limit. */
  lemma PercentAtLeast(spent: real, limit: real, threshold: real)
    requires limit > 0.0
    ensures Percent(spent, limit) >= threshold <==> spent * 100.0 >= threshold * limit
  {
    var p := spent / limit;
    assert p * limit == spent;
    assert Percent(spent, limit) * limit == spent * 100.0;
    if Percent(spent, limit) >= threshold {
      assert Percent(spent, limit) * limit >= threshold * limit;
    } else {
      assert Percent(spent, limit) * limit < threshold * limit;
    }
  }

  /** Spending within a positive limit uses between 0 and 100 percent of it. */
  lemma PercentBounds(spent: real, limit: real)
    requires limit > 0.0 && 0.0 <= spent <= limit
    ensures 0.0 <= Percent(spent, limit) <= 100.0
  {
    PercentAtLeast(spent, limit, 0.0);
    assert Percent(spent, limit) * limit == spent * 100.0 <= 100.0 * limit;
  }

  /** Under positive limits the warning fires exactly when either amount reaches the threshold's share of its limit. */
  lemma WarningIff(s: BudgetState, threshold: real)
    requires s.monthlyCostLimit > 0.0 && s.dailyTokenLimit > 0.0
    ensures Warning(s, threshold) <==>
            s.monthlyCostSpent * 100.0 >= threshold * s.monthlyCostLimit
            || s.dailyTokenSpent * 100.0 >= threshold * s.dailyTokenLimit
  {
    PercentAtLeast(s.monthlyCostSpent, s.monthlyCostLimit, threshold);
    PercentAtLeast(s.dailyTokenSpent, s.dailyTokenLimit, threshold);
  }

  /** Without positive limits the utilisation is zero, so only a threshold of zero or less warns. */
  lemma NoLimitNoWarning(s: BudgetState, threshold: real)
    requires s.monthlyCostLimit <= 0.0 && s.dailyTokenLimit <= 0.0
    ensures Warning(s, threshold) <==> threshold <= 0.0
  {
  }

  /** A manager created without a threshold warns at 80 percent. */
  lemma DefaultThreshold(s: BudgetState)
    requires s.monthlyCostLimit > 0.0 && s.dailyTokenLimit > 0.0
    ensures Warning(s, DefaultWarningThreshold) <==>
            s.monthlyCostSpent * 100.0 >= 80.0 * s.monthlyCostLimit
            || s.dailyTokenSpent * 100.0 >= 80.0 * s.dailyTokenLimit
  {
    WarningIff(s, DefaultWarningThreshold);
  }
}
