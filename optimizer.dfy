/** What `max_sharpe_weights` and `quick_max_sharpe_from_csv` hand to the
    solver: the default weight bounds, the default starting point, the
    budget constraint, and the per-period risk-free rate. The solver itself
    is not part of this model. */
module Optimizer {
  import opened Frames
  import opened Series
  import opened Returns
  import opened RiskMetrics
  import opened Portfolio

  /** `[(0.0, 1.0)] * n`: every weight between 0 and 1. */
  function DefaultBounds(n: nat): (b: seq<(real, real)>)
    ensures |b| == n
  {
    seq(n, _ => (0.0, 1.0))
  }

  /** `np.ones(n) / n`: the equally weighted portfolio (empty when `n` is 0). */
  function EqualWeights(n: nat): (w: seq<real>)
    ensures |w| == n
  {
    seq(n, _ requires n > 0 => 1.0 / (n as real))
  }

  /** The bounds and the starting point the solver is given. */
  datatype Setup = Setup(bounds: seq<(real, real)>, start: seq<real>)

  /** The defaults of `max_sharpe_weights`: bounds and `x0` are used as
      given, and otherwise filled in for the `returns.shape[1]` assets. */
  function SolverSetup(rets: Frame<real>, bounds: Option<seq<(real, real)>>, x0: Option<seq<real>>)
    : (s: Setup)
    ensures bounds.Some? ==> s.bounds == bounds.value
    ensures x0.Some? ==> s.start == x0.value
    ensures bounds.None? ==> |s.bounds| == rets.columns
    ensures x0.None? ==> |s.start| == rets.columns
  {
    var n := rets.columns;
    Setup(if bounds.None? then DefaultBounds(n) else bounds.value,
          if x0.None? then EqualWeights(n) else x0.value)
  }

  /** Every weight lies within its bounds. */
  predicate WithinBounds(w: seq<real>, b: seq<(real, real)>)
  {
    |w| == |b| && forall i :: 0 <= i < |w| ==> b[i].0 <= w[i] <= b[i].1
  }

  /** The equality constraint `np.sum(w) - 1.0`; the solver keeps it at 0. */
  function BudgetResidual(w: seq<real>): (r: real)
    ensures r == 0.0 <==> Sum(w) == 1.0
  {
    Sum(w) - 1.0
  }

  /** The default starting point satisfies the budget constraint, lies
      within the default bounds and is fully invested, for any positive
      number of assets. */
  lemma {:induction false} DefaultStartFeasible(n: nat)
    requires n > 0
    ensures BudgetResidual(EqualWeights(n)) == 0.0
    ensures WithinBounds(EqualWeights(n), DefaultBounds(n))
    ensures FullyInvested(EqualWeights(n))
  {
    var w := EqualWeights(n);
    var c := 1.0 / (n as real);
    assert w == seq(n, _ => c);
    SumConstant(n, c);
    assert (n as real) * c == 1.0;
    forall i | 0 <= i < n ensures 0.0 <= w[i] <= 1.0 {
      UnitFractionAtMostOne(n);
    }
  }

  lemma {:induction false} UnitFractionAtMostOne(n: nat)
    requires n > 0
    ensures 0.0 < 1.0 / (n as real) <= 1.0
  {
    var d := n as real;
    assert 1.0 <= d;
    assert 1.0 / d <= d / d;
  }

  /** Without given bounds or starting point, the setup is the default one,
      and its start is feasible. */
  lemma {:induction false} DefaultSetupFeasible(rets: Frame<real>)
    requires rets.columns > 0
    ensures SolverSetup(rets, None, None) == Setup(DefaultBounds(rets.columns), EqualWeights(rets.columns))
    ensures WithinBounds(SolverSetup(rets, None, None).start, SolverSetup(rets, None, None).bounds)
    ensures BudgetResidual(SolverSetup(rets, None, None).start) == 0.0
  {
    DefaultStartFeasible(rets.columns);
  }

  /** Equal weights average: `a @ (ones(n)/n)` is the mean of `a`. */
  lemma {:induction false} EqualWeightsAverage(a: seq<real>)
    requires |a| > 0
    ensures Dot(a, EqualWeights(|a|)) == Mean(a)
  {
    var n := |a|;
    var c := 1.0 / (n as real);
    DotConstant(a, EqualWeights(n), c);
    TimesUnitFraction(Sum(a), n as real);
  }

  lemma {:induction false} TimesUnitFraction(s: real, d: real)
    requires d != 0.0
    ensures s * (1.0 / d) == s / d
  {
  }

  /** Weighting by a constant `c` is scaling the sum by `c`. */
  lemma {:induction false} DotConstant(a: seq<real>, w: seq<real>, c: real)
    requires |a| == |w| && forall i :: 0 <= i < |w| ==> w[i] == c
    ensures Dot(a, w) == Sum(a) * c
  {
    var n := |a|;
    if n > 0 {
      DotConstant(a[..n - 1], w[..n - 1], c);
      Distribute(Sum(a[..n - 1]), a[n - 1], c);
    }
  }

  /** The equally weighted portfolio earns, in every period, the mean of
      the assets' returns in that period. */
  lemma {:induction false} EqualWeightPortfolioReturns(rets: Frame<real>)
    requires rets.WellFormed() && rets.columns > 0
    ensures forall t :: 0 <= t < |rets.rows| ==>
      PortfolioReturns(rets, EqualWeights(rets.columns))[t] == Mean(rets.rows[t])
  {
    var w := EqualWeights(rets.columns);
    forall t | 0 <= t < |rets.rows|
      ensures PortfolioReturns(rets, w)[t] == Mean(rets.rows[t])
    {
      EqualWeightsAverage(rets.rows[t]);
    }
  }

  /** At the default starting point over a nonempty return table with no
      return of -100% or worse, the statistics are all numbers and the
      maximum drawdown lies in (-1, 0]. */
  lemma {:induction false} DefaultStartStats(rets: Frame<real>, periodsPerYear: int)
    requires rets.WellFormed() && rets.columns > 0 && |rets.rows| > 0
    requires forall t, i :: 0 <= t < |rets.rows| && 0 <= i < rets.columns ==> rets.rows[t][i] > -1.0
    ensures DrawdownDefined(GrowthProxy(PortfolioReturns(rets, EqualWeights(rets.columns))))
    ensures PortfolioStats(EqualWeights(rets.columns), rets, periodsPerYear).Ok?
    ensures -1.0 < PortfolioStats(EqualWeights(rets.columns), rets, periodsPerYear).value.maxDrawdown.value <= 0.0
  {
    DefaultStartFeasible(rets.columns);
    StatsOfFullyInvested(EqualWeights(rets.columns), rets, periodsPerYear);
  }

  /** The path of `quick_max_sharpe_from_csv` up to the solver: from a
      table of positive prices with at least one asset and two periods,
      `to_returns(prices, "simple", dropna=True)` is the simple-return
      table, and at the default starting point its statistics are all
      numbers with a maximum drawdown in (-1, 0]. */
  lemma {:induction false} QuickStatsAtDefaultStart(prices: Frame<real>, ln: real -> real, periodsPerYear: int)
    requires prices.WellFormed() && prices.columns > 0 && |prices.rows| > 1
    requires forall t, i :: 0 <= t < |prices.rows| && 0 <= i < prices.columns ==> prices.rows[t][i] > 0.0
    ensures FrameDivisorsNonZero(prices)
    ensures ToReturns(prices, "simple", true, ln) == Ok(Lift(SimpleReturns(prices)))
    ensures DrawdownDefined(GrowthProxy(PortfolioReturns(SimpleReturns(prices), EqualWeights(prices.columns))))
    ensures PortfolioStats(EqualWeights(prices.columns), SimpleReturns(prices), periodsPerYear).Ok?
    ensures -1.0 < PortfolioStats(EqualWeights(prices.columns), SimpleReturns(prices), periodsPerYear)
                     .value.maxDrawdown.value <= 0.0
  {
    SimpleReturnsAboveMinusOne(prices);
    SimpleDropped(prices, ln);
    DefaultStartStats(SimpleReturns(prices), periodsPerYear);
  }

  /** `rf_annual / periods_per_year`; Python refuses a zero divisor. */
  function RfPerPeriod(rfAnnual: real, periodsPerYear: int): (r: Result<real>)
    ensures r.Err? <==> periodsPerYear == 0
    ensures r.Err? ==> r.error == ZeroDivision
    ensures r.Ok? ==> Annualize(r.value, periodsPerYear) == rfAnnual
  {
    if periodsPerYear == 0 then Err(ZeroDivision)
    else Ok(rfAnnual / (periodsPerYear as real))
  }
}
