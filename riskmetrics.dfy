/** `max_drawdown` and `cvar`: the two risk measures of the helpers that
    need no square root, over exact reals. */
module RiskMetrics {
  import opened Frames
  import opened Series

  predicate Positive(p: seq<real>)
  {
    forall k :: 0 <= k < |p| ==> p[k] > 0.0
  }

  predicate NonDecreasing(p: seq<real>)
  {
    forall t :: 0 < t < |p| ==> p[t - 1] <= p[t]
  }

  // ---------- running maximum and drawdown ----------

  /** The running maximum is at least the current value and never
      decreases. */
  lemma {:induction false} CumMaxDominates(p: seq<real>)
    ensures forall t :: 0 <= t < |p| ==> p[t] <= CumMax(p)[t]
    ensures forall t :: 0 < t < |p| ==> CumMax(p)[t - 1] <= CumMax(p)[t]
  {
    var c := CumMax(p);
    forall t | 0 <= t < |p| ensures p[t] <= c[t] {
      assert p[..t + 1][t] == p[t];
    }
    forall t | 0 < t < |p| ensures c[t - 1] <= c[t] {
      var m := c[t - 1];
      assert m in p[..t];
      var k :| 0 <= k < t && p[..t][k] == m;
      assert p[..t + 1][k] == m;
    }
  }

  /** The running maximum is one of the values so far and at least every
      one of them. */
  lemma {:induction false} CumMaxAttained(p: seq<real>)
    ensures forall t :: 0 <= t < |p| ==> CumMax(p)[t] in p[..t + 1]
    ensures forall u, t :: 0 <= u <= t < |p| ==> p[u] <= CumMax(p)[t]
  {
    var c := CumMax(p);
    forall u, t | 0 <= u <= t < |p| ensures p[u] <= c[t] {
      assert p[..t + 1][u] == p[u];
    }
  }

  /** On a non-decreasing series the running maximum is the series itself. */
  lemma {:induction false} CumMaxOfNonDecreasing(p: seq<real>)
    requires NonDecreasing(p)
    ensures CumMax(p) == p
  {
    CumMaxDominates(p);
    CumMaxAttained(p);
    RunningBoundIsLast(p, CumMax(p));
  }

  /** A running bound that is always one of the values so far, on a
      non-decreasing series, is the latest value. */
  lemma {:induction false} RunningBoundIsLast(p: seq<real>, c: seq<real>)
    requires NonDecreasing(p) && |c| == |p|
    requires forall t :: 0 <= t < |p| ==> p[t] <= c[t]
    requires forall t :: 0 <= t < |p| ==> c[t] in p[..t + 1]
    ensures c == p
  {
    forall t | 0 <= t < |p| ensures c[t] == p[t] {
      assert c[t] in p[..t + 1];
      var k :| 0 <= k < t + 1 && p[..t + 1][k] == c[t];
      NonDecreasingUpTo(p, k, t);
    }
  }

  lemma {:induction false} NonDecreasingUpTo(p: seq<real>, k: nat, t: nat)
    requires NonDecreasing(p) && k <= t < |p|
    ensures p[k] <= p[t]
  {
    if k < t {
      NonDecreasingUpTo(p, k, t - 1);
    }
  }

  /** Every running maximum is nonzero, so each drawdown can be divided out. */
  predicate DrawdownDefined(p: seq<real>)
  {
    var c := CumMax(p);
    forall t :: 0 <= t < |p| ==> c[t] != 0.0
  }

  /** A positive series has a positive running maximum. */
  lemma {:induction false} PositiveHasDrawdown(p: seq<real>)
    requires Positive(p)
    ensures DrawdownDefined(p)
    ensures Positive(CumMax(p))
  {
    CumMaxDominates(p);
  }

  /** The first value is its own running maximum. */
  lemma {:induction false} CumMaxFirst(p: seq<real>)
    ensures |p| > 0 ==> CumMax(p)[0] == p[0]
  {
    if |p| > 0 {
      assert p[..1] == [p[0]];
    }
  }

  lemma {:induction false} UnitRatio(x: real)
    requires x != 0.0
    ensures x / x - 1.0 == 0.0
  {
  }

  /** `prices / prices.cummax() - 1`. */
  function Drawdown(p: seq<real>): (d: seq<real>)
    requires DrawdownDefined(p)
    ensures |d| == |p|
    ensures |p| > 0 ==> d[0] == 0.0
  {
    CumMaxFirst(p);
    var c := CumMax(p);
    var d := seq(|p|, t requires 0 <= t < |p| => p[t] / c[t] - 1.0);
    if |p| == 0 then d
    else
      assert d[0] == p[0] / c[0] - 1.0 && c[0] == p[0] && c[0] != 0.0;
      UnitRatio(p[0]);
      d
  }

  /** `max_drawdown(prices)`: the least drawdown; NaN for an empty series. */
  function MaxDrawdown(p: seq<real>): (m: Option<real>)
    requires DrawdownDefined(p)
    ensures m.None? <==> |p| == 0
  {
    if |p| == 0 then None else Some(Min(Drawdown(p)))
  }

  /** A value at most its positive ceiling gives a drawdown in (-1, 0]. */
  lemma {:induction false} DrawdownStepBounds(x: real, c: real)
    requires 0.0 < x <= c
    ensures -1.0 < x / c - 1.0 <= 0.0
    ensures x / c - 1.0 == 0.0 <==> x == c
  {
    var r := x / c;
    assert r * c == x;
    assert 0.0 < r;
    assert c / c == 1.0;
    assert x / c <= c / c;
    assert r == 1.0 ==> x == c;
  }

  /** Whenever it is defined, the maximum drawdown of a nonempty series is
      at most 0, since the first value is its own running maximum. */
  lemma {:induction false} MaxDrawdownAtMostZero(p: seq<real>)
    requires DrawdownDefined(p) && |p| > 0
    ensures MaxDrawdown(p).value <= 0.0
  {
    assert Min(Drawdown(p)) <= Drawdown(p)[0];
  }

  /** For positive prices the maximum drawdown lies in (-1, 0]. */
  lemma {:induction false} MaxDrawdownBounds(p: seq<real>)
    requires Positive(p) && |p| > 0
    ensures DrawdownDefined(p)
    ensures -1.0 < MaxDrawdown(p).value <= 0.0
  {
    PositiveHasDrawdown(p);
    CumMaxDominates(p);
    var c := CumMax(p);
    var d := Drawdown(p);
    var k :| 0 <= k < |d| && d[k] == Min(d);
    DrawdownStepBounds(p[k], c[k]);
    DrawdownStepBounds(p[0], c[0]);
    assert Min(d) <= d[0];
  }

  /** For positive prices the maximum drawdown is exactly 0 if and only if
      the series never falls. */
  lemma {:induction false} MaxDrawdownZeroIff(p: seq<real>)
    requires Positive(p) && |p| > 0
    ensures DrawdownDefined(p)
    ensures MaxDrawdown(p) == Some(0.0) <==> NonDecreasing(p)
  {
    PositiveHasDrawdown(p);
    if NonDecreasing(p) {
      ZeroIfNonDecreasing(p);
    }
    if MaxDrawdown(p) == Some(0.0) {
      NonDecreasingIfZero(p);
    }
  }

  lemma {:induction false} ZeroIfNonDecreasing(p: seq<real>)
    requires Positive(p) && |p| > 0 && NonDecreasing(p)
    ensures DrawdownDefined(p) && MaxDrawdown(p) == Some(0.0)
  {
    PositiveHasDrawdown(p);
    DrawdownAt(p);
    CumMaxOfNonDecreasing(p);
    NoDrawdownAtPeaks(p, CumMax(p), Drawdown(p));
  }

  lemma {:induction false} NonDecreasingIfZero(p: seq<real>)
    requires Positive(p) && |p| > 0
    requires DrawdownDefined(p) && MaxDrawdown(p) == Some(0.0)
    ensures NonDecreasing(p)
  {
    assert Min(Drawdown(p)) == 0.0;
    CumMaxDominates(p);
    DrawdownAt(p);
    NeverBelowPeak(p, CumMax(p), Drawdown(p));
  }

  lemma {:induction false} DrawdownAt(p: seq<real>)
    requires DrawdownDefined(p)
    ensures forall t :: 0 <= t < |p| ==> Drawdown(p)[t] == p[t] / CumMax(p)[t] - 1.0
  {
  }

  /** When every value is its own peak, every drawdown and hence the least
      one is 0. */
  lemma {:induction false} NoDrawdownAtPeaks(p: seq<real>, c: seq<real>, d: seq<real>)
    requires |p| > 0 && |c| == |p| && |d| == |p| && Positive(p) && c == p
    requires forall t :: 0 <= t < |p| ==> d[t] == p[t] / c[t] - 1.0
    ensures Min(d) == 0.0
  {
    forall t | 0 <= t < |p| ensures d[t] == 0.0 {
      DrawdownStepBounds(p[t], c[t]);
    }
    var k :| 0 <= k < |d| && d[k] == Min(d);
  }

  /** When no drawdown is negative, every value is its running peak, and a
      series that always sits at a non-decreasing peak never falls. */
  lemma {:induction false} NeverBelowPeak(p: seq<real>, c: seq<real>, d: seq<real>)
    requires |p| > 0 && |c| == |p| && |d| == |p| && Positive(p)
    requires forall t :: 0 <= t < |p| ==> p[t] <= c[t]
    requires forall t :: 0 < t < |p| ==> c[t - 1] <= c[t]
    requires forall t :: 0 <= t < |p| ==> d[t] == p[t] / c[t] - 1.0
    requires Min(d) == 0.0
    ensures NonDecreasing(p)
  {
    forall t | 0 <= t < |p| ensures c[t] == p[t] {
      assert Min(d) <= d[t];
      DrawdownStepBounds(p[t], c[t]);
    }
    forall t | 0 < t < |p| ensures p[t - 1] <= p[t] {
      assert p[t - 1] <= c[t - 1] <= c[t];
    }
  }

  // ---------- conditional value at risk ----------

  /** `cvar(returns, alpha)`: the negated mean of the observations at or
      below the `1 - alpha` quantile, so that a loss reads as a positive
      number. A probability outside [0, 1] is refused by the quantile; an
      empty series gives NaN. */
  function CVaR(s: seq<real>, alpha: real): (r: Result<Option<real>>)
    ensures r.Err? <==> !(0.0 <= alpha <= 1.0)
    ensures r.Err? ==> r.error == QuantileOutOfRange
    ensures r.Ok? ==> (r.value.None? <==> |s| == 0)
  {
    var p := 1.0 - alpha;
    if !(0.0 <= p <= 1.0) then Err(QuantileOutOfRange)
    else if |s| == 0 then Ok(None)
    else Ok(Some(TailLoss(s, p)))
  }

  /** The negated mean of the observations at or below the `p` quantile;
      it lies between minus the quantile and minus the minimum. */
  function TailLoss(s: seq<real>, p: real): (l: real)
    requires |s| > 0 && 0.0 <= p <= 1.0
    ensures -Quantile(s, p) <= l <= -Min(s)
  {
    var q := Quantile(s, p);
    var tail := AtOrBelow(s, q);
    TailNonEmpty(s, p);
    FilterAbove(s, Min(s), q, tail);
    MeanBetween(tail, Min(s), q);
    -Mean(tail)
  }

  /** The tail is never empty: the minimum is at or below the quantile. */
  lemma {:induction false} TailNonEmpty(s: seq<real>, p: real)
    requires |s| > 0 && 0.0 <= p <= 1.0
    ensures Min(s) in AtOrBelow(s, Quantile(s, p))
    ensures |AtOrBelow(s, Quantile(s, p))| > 0
  {
    QuantileWithinRange(s, p);
    AtOrBelowKeeps(s, Quantile(s, p), Min(s));
  }

  /** Every tail observation is at most the quantile `q`, so the reported
      loss is at least `-q`; and no tail observation is below the worst
      return, so the loss is at most `-min(returns)`. */
  lemma {:induction false} CVaRBounds(s: seq<real>, alpha: real)
    requires |s| > 0 && 0.0 <= alpha <= 1.0
    ensures CVaR(s, alpha).Ok? && CVaR(s, alpha).value.Some?
    ensures -Quantile(s, 1.0 - alpha) <= CVaR(s, alpha).value.value <= -Min(s)
  {
    var p := 1.0 - alpha;
    assert CVaR(s, alpha) == Ok(Some(TailLoss(s, p)));
  }

  lemma {:induction false} MeanBetween(s: seq<real>, lo: real, hi: real)
    requires |s| > 0
    requires forall k :: 0 <= k < |s| ==> lo <= s[k] <= hi
    ensures -hi <= -Mean(s) <= -lo
  {
    MeanAtMost(s, hi);
    MeanAtLeast(s, lo);
  }

  /** A sub-multiset of values at least `lo` holds only values at least `lo`. */
  lemma {:induction false} FilterAbove(s: seq<real>, lo: real, q: real, tail: seq<real>)
    requires forall k :: 0 <= k < |s| ==> lo <= s[k]
    requires forall x :: multiset(tail)[x] == if x <= q then multiset(s)[x] else 0
    ensures forall k :: 0 <= k < |tail| ==> lo <= tail[k]
  {
    forall k | 0 <= k < |tail| ensures lo <= tail[k] {
      var x := tail[k];
      assert x in multiset(tail);
      assert multiset(s)[x] > 0;
      var i :| 0 <= i < |s| && s[i] == x;
    }
  }

  /** When the quantile is a loss (negative), the reported CVaR is positive. */
  lemma {:induction false} CVaRReportsLossAsPositive(s: seq<real>, alpha: real)
    requires |s| > 0 && 0.0 <= alpha <= 1.0
    requires Quantile(s, 1.0 - alpha) < 0.0
    ensures CVaR(s, alpha).value.value > 0.0
  {
    CVaRBounds(s, alpha);
  }

  /** A single observation is its own tail, so a return of `x` is reported
      as a loss of `-x` (a tail mean of -0.02 reads 0.02). */
  lemma {:induction false} CVaROfOneObservation(x: real, alpha: real)
    requires 0.0 <= alpha <= 1.0
    ensures CVaR([x], alpha) == Ok(Some(-x))
  {
    OneObservationLoss([x], alpha);
  }

  lemma {:induction false} OneObservationLoss(s: seq<real>, alpha: real)
    requires |s| == 1 && 0.0 <= alpha <= 1.0
    ensures CVaR(s, alpha) == Ok(Some(-s[0]))
  {
    var p := 1.0 - alpha;
    var q, l := Quantile(s, p), TailLoss(s, p);
    assert CVaR(s, alpha) == Ok(Some(l));
    SqueezedLoss(s, q, l);
  }

  /** Of one observation, the minimum and the maximum coincide, so a loss
      squeezed between them is that observation, negated. */
  lemma {:induction false} SqueezedLoss(s: seq<real>, q: real, l: real)
    requires |s| == 1 && Min(s) <= q <= Max(s) && -q <= l <= -Min(s)
    ensures l == -s[0]
  {
    assert Min(s) in s && Max(s) in s;
  }

  /** Of the sorted sample, the first `floor((n-1)*p) + 1` values are at or
      below the quantile, so the tail holds at least that many observations. */
  lemma {:induction false} TailSize(s: seq<real>, p: real)
    requires |s| > 0 && 0.0 <= p <= 1.0
    ensures |AtOrBelow(s, Quantile(s, p))| >= Position(|s|, p).Floor + 1
  {
    var q := Quantile(s, p);
    var t := Sort(s);
    var h := Position(|s|, p);
    InterpolateAtLeastFloor(t, h);
    SortedPrefixAtMost(t, h.Floor, q);
    CountAtOrBelow(t, q, h.Floor + 1);
    SameTailSize(s, t, q);
  }

  /** Rearranging a sample does not change how many of it are at or below `q`. */
  lemma {:induction false} SameTailSize(s: seq<real>, t: seq<real>, q: real)
    requires multiset(s) == multiset(t)
    ensures |AtOrBelow(s, q)| == |AtOrBelow(t, q)|
  {
    assert multiset(AtOrBelow(s, q)) == multiset(AtOrBelow(t, q));
    assert |AtOrBelow(s, q)| == |multiset(AtOrBelow(s, q))|;
    assert |AtOrBelow(t, q)| == |multiset(AtOrBelow(t, q))|;
  }

  /** In a sorted sample every entry up to one at most `q` is at most `q`. */
  lemma {:induction false} SortedPrefixAtMost(t: seq<real>, lo: int, q: real)
    requires Sorted(t) && 0 <= lo < |t| && t[lo] <= q
    ensures forall k :: 0 <= k < lo + 1 ==> t[k] <= q
  {
    forall k | 0 <= k < lo + 1 ensures t[k] <= q {
      SortedPair(t, k, lo);
    }
  }

  /** On a sorted sample the interpolated value is at least the entry at
      the floor of the rank. */
  lemma {:induction false} InterpolateAtLeastFloor(t: seq<real>, h: real)
    requires Sorted(t) && 0.0 <= h <= (|t| - 1) as real
    ensures t[h.Floor] <= Interpolate(t, h)
  {
    var lo := h.Floor;
    if lo + 1 < |t| {
      var g := h - lo as real;
      InterpolationBetween(t[lo], t[lo + 1], g);
      assert Interpolate(t, h) == t[lo] + g * (t[lo + 1] - t[lo]);
    }
  }

  /** If the first `m` values are at or below `q`, at least `m` survive. */
  lemma {:induction false} CountAtOrBelow(t: seq<real>, q: real, m: nat)
    requires m <= |t|
    requires forall k :: 0 <= k < m ==> t[k] <= q
    ensures |AtOrBelow(t, q)| >= m
  {
    var n := |t|;
    if n > 0 {
      if m == n {
        CountAtOrBelow(t[..n - 1], q, m - 1);
      } else {
        CountAtOrBelow(t[..n - 1], q, m);
      }
    }
  }
}
