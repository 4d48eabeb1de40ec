/** `portfolio_stats`: the return series of a weighted portfolio, its
    annualised mean, the price path obtained by compounding it, the maximum
    drawdown of that path and the CVaR of the returns. Volatility and the
    Sharpe ratio need a square root and are not part of this model. */
module Portfolio {
  import opened Frames
  import opened Series
  import opened Returns
  import opened RiskMetrics

  // ---------- the weighted return series ----------

  /** The inner product `a @ w`. */
  function Dot(a: seq<real>, w: seq<real>): real
    requires |a| == |w|
  {
    if |a| == 0 then 0.0
    else Dot(a[..|a| - 1], w[..|w| - 1]) + a[|a| - 1] * w[|w| - 1]
  }

  /** `returns @ w`: the return of the portfolio in every period. */
  function PortfolioReturns(f: Frame<real>, w: seq<real>): (r: seq<real>)
    requires f.WellFormed() && |w| == f.columns
    ensures |r| == |f.rows|
  {
    seq(|f.rows|, t requires 0 <= t < |f.rows| => Dot(f.rows[t], w))
  }

  /** `(1 + port_ret).cumprod()`: the value of one unit invested at the
      start, after every period. */
  function GrowthProxy(r: seq<real>): (g: seq<real>)
    ensures |g| == |r|
  {
    CumProd(Growth(r))
  }

  /** A per-period figure scaled to a year. */
  function Annualize(perPeriod: real, periodsPerYear: int): real
  {
    perPeriod * (periodsPerYear as real)
  }

  /** `port_ret.mean() * periods_per_year`; NaN for an empty series. */
  function AnnualizedReturn(r: seq<real>, periodsPerYear: int): (a: Option<real>)
    ensures a.None? <==> |r| == 0
  {
    if |r| == 0 then None else Some(Annualize(Mean(r), periodsPerYear))
  }

  /** The part of the dictionary `portfolio_stats` returns that this model
      covers; `None` is NaN. */
  datatype Stats = Stats(annReturn: Option<real>, maxDrawdown: Option<real>, cvar95: Option<real>)

  /** `portfolio_stats(weights, returns, rf, periods_per_year)` without
      `ann_vol` and `sharpe`. The matrix product refuses a weight vector
      whose length is not the number of columns. */
  function PortfolioStats(w: seq<real>, rets: Frame<real>, periodsPerYear: int): (r: Result<Stats>)
    requires rets.WellFormed()
    requires |w| == rets.columns ==> DrawdownDefined(GrowthProxy(PortfolioReturns(rets, w)))
    ensures r.Err? <==> |w| != rets.columns
    ensures r.Err? ==> r.error == ShapeMismatch
    ensures r.Ok? ==> (r.value.annReturn.None? <==> |rets.rows| == 0)
    ensures r.Ok? ==> (r.value.maxDrawdown.None? <==> |rets.rows| == 0)
    ensures r.Ok? ==> (r.value.cvar95.None? <==> |rets.rows| == 0)
  {
    if |w| != rets.columns then Err(ShapeMismatch)
    else
      var portRet := PortfolioReturns(rets, w);
      var annRet := AnnualizedReturn(portRet, periodsPerYear);
      var mdd := MaxDrawdown(GrowthProxy(portRet));
      var cvar95 := CVaR(portRet, 0.95);
      Ok(Stats(annRet, mdd, cvar95.value))
  }

  // ---------- the compounded price path ----------

  /** The proxy starts at `1 + r_0` and grows by `1 + r_t` every period. */
  lemma {:induction false} GrowthProxyStep(r: seq<real>, t: nat)
    requires t < |r|
    ensures t == 0 ==> GrowthProxy(r)[0] == 1.0 + r[0]
    ensures t > 0 ==> GrowthProxy(r)[t] == GrowthProxy(r)[t - 1] * (1.0 + r[t])
  {
    var g := Growth(r);
    var c := CumProd(g);
    if t == 0 {
      assert g[..1] == [g[0]];
      ProductOfOne(g[..1]);
    } else {
      ProductPrefix(g, t);
    }
  }

  lemma {:induction false} ProductOfOne(s: seq<real>)
    requires |s| == 1
    ensures Product(s) == s[0]
  {
    assert s[..0] == [];
  }

  /** With one unit put before the proxy, it is a price path whose simple
      returns are exactly the portfolio returns (no return of -100%). */
  lemma {:induction false} GrowthProxyReturns(r: seq<real>)
    requires forall t :: 0 <= t < |r| ==> 1.0 + r[t] != 0.0
    ensures DivisorsNonZero([1.0] + GrowthProxy(r))
    ensures SeriesReturns([1.0] + GrowthProxy(r)) == r
  {
    ProxyIsCompound(r);
    CompoundThenReturns(1.0, r);
  }

  lemma {:induction false} ProxyIsCompound(r: seq<real>)
    ensures Compound(1.0, r) == [1.0] + GrowthProxy(r)
  {
    var q := Compound(1.0, r);
    var p := [1.0] + GrowthProxy(r);
    forall t | 1 <= t < |q| ensures q[t] == p[t] {
      assert q[t] == 1.0 * CumProd(Growth(r))[t - 1];
    }
  }

  /** A product of positive factors is positive. */
  lemma {:induction false} ProductPositive(s: seq<real>)
    requires forall k :: 0 <= k < |s| ==> s[k] > 0.0
    ensures Product(s) > 0.0
  {
    if |s| > 0 {
      ProductPositive(s[..|s| - 1]);
      TimesSign(Product(s[..|s| - 1]), s[|s| - 1]);
    }
  }

  /** When no portfolio return is -100% or worse, the proxy stays positive. */
  lemma {:induction false} GrowthProxyPositive(r: seq<real>)
    requires forall t :: 0 <= t < |r| ==> r[t] > -1.0
    ensures Positive(GrowthProxy(r))
  {
    var g := Growth(r);
    forall t | 0 <= t < |r| ensures GrowthProxy(r)[t] > 0.0 {
      var pre := g[..t + 1];
      forall k | 0 <= k < |pre| ensures pre[k] > 0.0 {
        assert pre[k] == 1.0 + r[k];
      }
      ProductPositive(pre);
    }
  }

  /** The drawdown of the proxy is then defined, and the maximum drawdown
      of a nonempty series lies in (-1, 0]. */
  lemma {:induction false} ProxyDrawdownBounds(r: seq<real>)
    requires |r| > 0
    requires forall t :: 0 <= t < |r| ==> r[t] > -1.0
    ensures DrawdownDefined(GrowthProxy(r))
    ensures -1.0 < MaxDrawdown(GrowthProxy(r)).value <= 0.0
  {
    GrowthProxyPositive(r);
    MaxDrawdownBounds(GrowthProxy(r));
  }

  // ---------- weights ----------

  /** Weights no smaller than zero that add up to one. */
  predicate FullyInvested(w: seq<real>)
  {
    (forall i :: 0 <= i < |w| ==> 0.0 <= w[i]) && Sum(w) == 1.0
  }

  /** With non-negative weights, a combination of values all at least `m`
      is at least `m` times the total weight. */
  lemma {:induction false} DotAtLeast(a: seq<real>, w: seq<real>, m: real)
    requires |a| == |w|
    requires forall i :: 0 <= i < |w| ==> 0.0 <= w[i]
    requires forall i :: 0 <= i < |a| ==> m <= a[i]
    ensures m * Sum(w) <= Dot(a, w)
  {
    var n := |a|;
    if n > 0 {
      var a', w' := a[..n - 1], w[..n - 1];
      DotAtLeast(a', w', m);
      assert Dot(a, w) == Dot(a', w') + a[n - 1] * w[n - 1];
      assert Sum(w) == Sum(w') + w[n - 1];
      WeightedAtLeast(a[n - 1], w[n - 1], m);
      Distribute(Sum(w'), w[n - 1], m);
    }
  }

  lemma {:induction false} WeightedAtLeast(x: real, v: real, m: real)
    requires 0.0 <= v && m <= x
    ensures m * v <= x * v
  {
    assert (x - m) * v >= 0.0;
  }

  /** A fully invested portfolio of assets none of which loses 100% or
      more in a period does not lose 100% or more in that period either. */
  lemma {:induction false} PortfolioAboveMinusOne(f: Frame<real>, w: seq<real>)
    requires f.WellFormed() && |w| == f.columns && FullyInvested(w)
    requires forall t, i :: 0 <= t < |f.rows| && 0 <= i < f.columns ==> f.rows[t][i] > -1.0
    ensures forall t :: 0 <= t < |f.rows| ==> PortfolioReturns(f, w)[t] > -1.0
  {
    var r := PortfolioReturns(f, w);
    WeightsNonEmpty(w);
    forall t | 0 <= t < |f.rows| ensures r[t] > -1.0 {
      var row := f.rows[t];
      var m := Min(row);
      DotAtLeast(row, w, m);
      var k :| 0 <= k < |row| && row[k] == m;
      assert r[t] == Dot(row, w);
    }
  }

  /** Weights adding up to one are at least one weight. */
  lemma {:induction false} WeightsNonEmpty(w: seq<real>)
    requires Sum(w) == 1.0
    ensures |w| > 0
  {
  }

  // ---------- the annualised return is linear in the weights ----------

  /** The sum of every column. */
  function ColumnSums(f: Frame<real>): (s: seq<real>)
    requires f.WellFormed()
    ensures |s| == f.columns
  {
    seq(f.columns, i requires 0 <= i < f.columns => Sum(Column(f, i)))
  }

  /** The mean of every column of a nonempty table. */
  function ColumnMeans(f: Frame<real>): (m: seq<real>)
    requires f.WellFormed() && |f.rows| > 0
    ensures |m| == f.columns
  {
    seq(f.columns, i requires 0 <= i < f.columns => Mean(Column(f, i)))
  }

  /** The inner product distributes over adding two vectors. */
  lemma {:induction false} DotAdd(a: seq<real>, b: seq<real>, c: seq<real>, w: seq<real>)
    requires |a| == |w| && |b| == |w| && |c| == |w|
    requires forall i :: 0 <= i < |w| ==> c[i] == a[i] + b[i]
    ensures Dot(c, w) == Dot(a, w) + Dot(b, w)
  {
    var n := |w|;
    if n > 0 {
      DotAdd(a[..n - 1], b[..n - 1], c[..n - 1], w[..n - 1]);
      Distribute(a[n - 1], b[n - 1], w[n - 1]);
    }
  }

  /** Dividing every entry by `d` divides the inner product by `d`. */
  lemma {:induction false} DotScale(a: seq<real>, b: seq<real>, w: seq<real>, d: real)
    requires |a| == |w| && |b| == |w| && d != 0.0
    requires forall i :: 0 <= i < |w| ==> b[i] == a[i] / d
    ensures Dot(b, w) == Dot(a, w) / d
  {
    var n := |w|;
    if n > 0 {
      DotScale(a[..n - 1], b[..n - 1], w[..n - 1], d);
      DivideTerms(Dot(a[..n - 1], w[..n - 1]), a[n - 1], w[n - 1], d);
    }
  }

  lemma {:induction false} DivideTerms(s: real, x: real, v: real, d: real)
    requires d != 0.0
    ensures s / d + (x / d) * v == (s + x * v) / d
  {
    assert (x / d) * v == (x * v) / d;
  }

  /** The table without its last row. */
  function DropLastRow(f: Frame<real>): (g: Frame<real>)
    requires f.WellFormed() && |f.rows| > 0
    ensures g.WellFormed() && g.columns == f.columns && |g.rows| == |f.rows| - 1
  {
    Frame(f.columns, f.rows[..|f.rows| - 1])
  }

  /** Each column sum is the column sum without the last row, plus the last row. */
  lemma {:induction false} ColumnSumsStep(f: Frame<real>)
    requires f.WellFormed() && |f.rows| > 0
    ensures forall i :: 0 <= i < f.columns ==>
      ColumnSums(f)[i] == ColumnSums(DropLastRow(f))[i] + f.rows[|f.rows| - 1][i]
  {
    var g := DropLastRow(f);
    forall i | 0 <= i < f.columns
      ensures ColumnSums(f)[i] == ColumnSums(g)[i] + f.rows[|f.rows| - 1][i]
    {
      var col := Column(f, i);
      assert col[..|col| - 1] == Column(g, i);
      assert ColumnSums(f)[i] == Sum(col);
    }
  }

  /** The portfolio returns without the last period are those of the table
      without its last row. */
  lemma {:induction false} PortfolioReturnsStep(f: Frame<real>, w: seq<real>)
    requires f.WellFormed() && |w| == f.columns && |f.rows| > 0
    ensures PortfolioReturns(f, w)[..|f.rows| - 1] == PortfolioReturns(DropLastRow(f), w)
  {
  }

  /** Summing the portfolio returns over time is the weighted sum of the
      column sums. */
  lemma {:induction false} SumOfPortfolioReturns(f: Frame<real>, w: seq<real>)
    requires f.WellFormed() && |w| == f.columns
    ensures Sum(PortfolioReturns(f, w)) == Dot(ColumnSums(f), w)
    decreases |f.rows|
  {
    var n := |f.rows|;
    if n == 0 {
      ZeroColumnSums(f, w);
    } else {
      var g := DropLastRow(f);
      var r := PortfolioReturns(f, w);
      SumOfPortfolioReturns(g, w);
      PortfolioReturnsStep(f, w);
      assert Sum(r) == Sum(PortfolioReturns(g, w)) + Dot(f.rows[n - 1], w);
      ColumnSumsStep(f);
      DotAdd(ColumnSums(g), f.rows[n - 1], ColumnSums(f), w);
    }
  }

  /** A table with no rows has zero column sums, and so a zero combination. */
  lemma {:induction false} ZeroColumnSums(f: Frame<real>, w: seq<real>)
    requires f.WellFormed() && |w| == f.columns && |f.rows| == 0
    ensures Dot(ColumnSums(f), w) == 0.0
  {
    var z := ColumnSums(f);
    forall i | 0 <= i < |z| ensures z[i] == 0.0 {
      assert Column(f, i) == [];
    }
    DotOfZeros(z, w);
  }

  lemma {:induction false} DotOfZeros(z: seq<real>, w: seq<real>)
    requires |z| == |w| && forall i :: 0 <= i < |z| ==> z[i] == 0.0
    ensures Dot(z, w) == 0.0
  {
    if |z| > 0 {
      DotOfZeros(z[..|z| - 1], w[..|w| - 1]);
    }
  }

  /** A return vector that is zero except at asset `k` earns `a[k] * w[k]`.
      With DotAdd this fixes the inner product on every input. */
  lemma {:induction false} DotUnit(a: seq<real>, w: seq<real>, k: nat)
    requires |a| == |w| && k < |a|
    requires forall i :: 0 <= i < |a| && i != k ==> a[i] == 0.0
    ensures Dot(a, w) == a[k] * w[k]
  {
    var n := |a|;
    assert Dot(a, w) == Dot(a[..n - 1], w[..n - 1]) + a[n - 1] * w[n - 1];
    if k == n - 1 {
      DotOfZeros(a[..n - 1], w[..n - 1]);
    } else {
      DotUnit(a[..n - 1], w[..n - 1], k);
      assert a[n - 1] * w[n - 1] == 0.0;
    }
  }

  /** The mean portfolio return is the weighted sum of the assets' mean
      returns. */
  lemma {:induction false} MeanIsWeightedColumnMeans(f: Frame<real>, w: seq<real>)
    requires f.WellFormed() && |w| == f.columns && |f.rows| > 0
    ensures Mean(PortfolioReturns(f, w)) == Dot(ColumnMeans(f), w)
  {
    var n := |f.rows| as real;
    SumOfPortfolioReturns(f, w);
    var sums := ColumnSums(f);
    var means := ColumnMeans(f);
    forall i | 0 <= i < |w| ensures means[i] == sums[i] / n {
      assert means[i] == Mean(Column(f, i));
      assert sums[i] == Sum(Column(f, i));
    }
    DotScale(sums, means, w, n);
  }

  /** So the annualised return of the portfolio is the weighted sum of the
      assets' mean returns, times the number of periods in a year. */
  lemma {:induction false} AnnualizedReturnIsWeighted(f: Frame<real>, w: seq<real>, periodsPerYear: int)
    requires f.WellFormed() && |w| == f.columns && |f.rows| > 0
    ensures AnnualizedReturn(PortfolioReturns(f, w), periodsPerYear)
         == Some(Annualize(Dot(ColumnMeans(f), w), periodsPerYear))
  {
    var r := PortfolioReturns(f, w);
    MeanIsWeightedColumnMeans(f, w);
    AnnualizedOfNonEmpty(r, periodsPerYear);
  }

  lemma {:induction false} AnnualizedOfNonEmpty(r: seq<real>, periodsPerYear: int)
    requires |r| > 0
    ensures AnnualizedReturn(r, periodsPerYear) == Some(Annualize(Mean(r), periodsPerYear))
  {
  }

  // ---------- the statistics together ----------

  /** For a fully invested portfolio over a nonempty table of returns that
      never reach -100%, every statistic is a number, the maximum drawdown
      lies in (-1, 0], and the CVaR lies between minus the 5% quantile and
      minus the worst portfolio return. */
  lemma {:induction false} StatsOfFullyInvested(w: seq<real>, f: Frame<real>, periodsPerYear: int)
    requires f.WellFormed() && |w| == f.columns && FullyInvested(w) && |f.rows| > 0
    requires forall t, i :: 0 <= t < |f.rows| && 0 <= i < f.columns ==> f.rows[t][i] > -1.0
    ensures DrawdownDefined(GrowthProxy(PortfolioReturns(f, w)))
    ensures PortfolioStats(w, f, periodsPerYear).Ok?
    ensures -1.0 < PortfolioStats(w, f, periodsPerYear).value.maxDrawdown.value <= 0.0
    ensures -Quantile(PortfolioReturns(f, w), 0.05)
         <= PortfolioStats(w, f, periodsPerYear).value.cvar95.value
         <= -Min(PortfolioReturns(f, w))
  {
    var r := PortfolioReturns(f, w);
    PortfolioAboveMinusOne(f, w);
    ProxyDrawdownBounds(r);
    CVaRBounds(r, 0.95);
    var s := PortfolioStats(w, f, periodsPerYear);
    assert s.value.maxDrawdown == MaxDrawdown(GrowthProxy(r));
    assert s.value.cvar95 == CVaR(r, 0.95).value;
  }
}
