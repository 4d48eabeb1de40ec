/** The pandas Series operations the helpers build on, over exact reals:
    sum and mean, min and max, sorting, the linear-interpolation quantile,
    boolean filtering, and the running scans `cummax` and `cumprod`. */
module Series {

  /** Sum of a series, accumulated from the first element on. */
  function Sum(s: seq<real>): real
  {
    if |s| == 0 then 0.0 else Sum(s[..|s| - 1]) + s[|s| - 1]
  }

  /** Series.mean of a non-empty series (the empty one gives NaN). */
  function Mean(s: seq<real>): real
    requires |s| > 0
  {
    Sum(s) / (|s| as real)
  }

  /** Product of a series; 1 for the empty one. */
  function Product(s: seq<real>): real
  {
    if |s| == 0 then 1.0 else Product(s[..|s| - 1]) * s[|s| - 1]
  }

  /** The product of the first t+1 factors extends that of the first t. */
  lemma {:induction false} ProductPrefix(g: seq<real>, t: nat)
    requires t < |g|
    ensures Product(g[..t + 1]) == Product(g[..t]) * g[t]
  {
    assert g[..t + 1][..t] == g[..t];
  }

  /** Multiplication distributes over addition. */
  lemma {:induction false} Distribute(x: real, y: real, v: real)
    ensures (x + y) * v == x * v + y * v
  {
  }

  /** A product of two nonzero factors is nonzero, of two positive ones positive. */
  lemma {:induction false} TimesSign(a: real, b: real)
    ensures a != 0.0 && b != 0.0 ==> a * b != 0.0
    ensures a > 0.0 && b > 0.0 ==> a * b > 0.0
  {
  }

  /** Series.min of a non-empty series. */
  function Min(s: seq<real>): (m: real)
    requires |s| > 0
    ensures m in s
    ensures forall k :: 0 <= k < |s| ==> m <= s[k]
  {
    if |s| == 1 then s[0]
    else
      var m' := Min(s[..|s| - 1]);
      assert m' in s by { assert s[..|s| - 1] <= s; }
      if s[|s| - 1] < m' then s[|s| - 1] else m'
  }

  /** Series.max of a non-empty series. */
  function Max(s: seq<real>): (m: real)
    requires |s| > 0
    ensures m in s
    ensures forall k :: 0 <= k < |s| ==> s[k] <= m
  {
    if |s| == 1 then s[0]
    else
      var m' := Max(s[..|s| - 1]);
      assert m' in s by { assert s[..|s| - 1] <= s; }
      if m' < s[|s| - 1] then s[|s| - 1] else m'
  }

  lemma {:induction false} SumAtMost(s: seq<real>, q: real)
    requires forall k :: 0 <= k < |s| ==> s[k] <= q
    ensures Sum(s) <= (|s| as real) * q
  {
    if |s| > 0 {
      SumAtMost(s[..|s| - 1], q);
    }
  }

  lemma {:induction false} SumAtLeast(s: seq<real>, q: real)
    requires forall k :: 0 <= k < |s| ==> q <= s[k]
    ensures (|s| as real) * q <= Sum(s)
  {
    if |s| > 0 {
      SumAtLeast(s[..|s| - 1], q);
    }
  }

  /** A mean never exceeds an upper bound of the series. */
  lemma {:induction false} MeanAtMost(s: seq<real>, q: real)
    requires |s| > 0
    requires forall k :: 0 <= k < |s| ==> s[k] <= q
    ensures Mean(s) <= q
  {
    SumAtMost(s, q);
    var n := |s| as real;
    assert Mean(s) * n == Sum(s);
  }

  /** A mean is never below a lower bound of the series. */
  lemma {:induction false} MeanAtLeast(s: seq<real>, q: real)
    requires |s| > 0
    requires forall k :: 0 <= k < |s| ==> q <= s[k]
    ensures q <= Mean(s)
  {
    SumAtLeast(s, q);
    var n := |s| as real;
    assert Mean(s) * n == Sum(s);
  }

  /** The sum of `n` copies of `c` is `n * c`. */
  lemma {:induction false} SumConstant(n: nat, c: real)
    ensures Sum(seq(n, _ => c)) == (n as real) * c
  {
    if n > 0 {
      var s := seq(n, _ => c);
      assert s[..n - 1] == seq(n - 1, _ => c);
      SumConstant(n - 1, c);
    }
  }

  // ---------- sorting and the quantile ----------

  predicate Sorted(s: seq<real>)
  {
    forall i, j :: 0 <= i < j < |s| ==> s[i] <= s[j]
  }

  function Insert(x: real, s: seq<real>): (r: seq<real>)
    requires Sorted(s)
    ensures |r| == |s| + 1
    ensures multiset(r) == multiset(s) + multiset{x}
    ensures Sorted(r)
  {
    if s == [] || x <= s[0] then
      SortedCons(x, s);
      [x] + s
    else
      var rest := Insert(x, s[1..]);
      assert s == [s[0]] + s[1..];
      FloorOfInsert(s[0], x, s[1..], rest);
      SortedCons(s[0], rest);
      [s[0]] + rest
  }

  /** A value at or below the whole of a sorted sequence can lead it. */
  lemma {:induction false} SortedCons(a: real, t: seq<real>)
    requires Sorted(t)
    requires forall k :: 0 <= k < |t| ==> a <= t[k]
    ensures Sorted([a] + t)
  {
  }

  /** A lower bound of `x` and of every element of `s` bounds every element
      of a sequence that holds exactly those values. */
  lemma {:induction false} FloorOfInsert(a: real, x: real, s: seq<real>, rest: seq<real>)
    requires a <= x
    requires forall k :: 0 <= k < |s| ==> a <= s[k]
    requires multiset(rest) == multiset(s) + multiset{x}
    ensures forall k :: 0 <= k < |rest| ==> a <= rest[k]
  {
    forall k | 0 <= k < |rest| ensures a <= rest[k] {
      assert rest[k] in multiset(rest);
      assert rest[k] == x || rest[k] in multiset(s);
    }
  }

  /** The ascending order of a series (insertion sort). */
  function Sort(s: seq<real>): (r: seq<real>)
    ensures |r| == |s|
    ensures multiset(r) == multiset(s)
    ensures Sorted(r)
  {
    if s == [] then []
    else
      assert s == [s[0]] + s[1..];
      Insert(s[0], Sort(s[1..]))
  }

  /** The first element of the sorted series is the minimum, the last the maximum. */
  lemma {:induction false} SortEnds(s: seq<real>)
    requires |s| > 0
    ensures Sort(s)[0] == Min(s) && Sort(s)[|s| - 1] == Max(s)
  {
    var t := Sort(s);
    SortedFirstIsLeast(s, t);
    SortedLastIsGreatest(s, t);
  }

  /** A sorted rearrangement starts with the minimum ... */
  lemma {:induction false} SortedFirstIsLeast(s: seq<real>, t: seq<real>)
    requires |s| > 0 && |t| == |s| && Sorted(t) && multiset(t) == multiset(s)
    ensures t[0] == Min(s)
  {
    var lo := Min(s);
    assert t[0] in multiset(s) by { assert t[0] in multiset(t); }
    assert lo in multiset(t) by { assert lo in multiset(s); }
    var i :| 0 <= i < |t| && t[i] == lo;
    assert t[0] <= t[i];
  }

  /** ... and ends with the maximum. */
  lemma {:induction false} SortedLastIsGreatest(s: seq<real>, t: seq<real>)
    requires |s| > 0 && |t| == |s| && Sorted(t) && multiset(t) == multiset(s)
    ensures t[|t| - 1] == Max(s)
  {
    var hi := Max(s);
    assert t[|t| - 1] in multiset(s) by { assert t[|t| - 1] in multiset(t); }
    assert hi in multiset(t) by { assert hi in multiset(s); }
    var i :| 0 <= i < |t| && t[i] == hi;
    assert t[i] <= t[|t| - 1];
  }

  /** Series.quantile(p) with pandas' default linear interpolation: the
      sorted sample is read at the position `(n-1)*p` and, between two
      ranks, interpolated linearly. */
  function Quantile(s: seq<real>, p: real): (q: real)
    requires |s| > 0 && 0.0 <= p <= 1.0
    ensures Min(s) <= q <= Max(s)
  {
    SortEnds(s);
    InterpolateWithin(Sort(s), Position(|s|, p));
    Interpolate(Sort(s), Position(|s|, p))
  }

  /** The fractional rank `(n-1)*p` at which the quantile is read. */
  function Position(n: nat, p: real): (h: real)
    requires n > 0 && 0.0 <= p <= 1.0
    ensures 0.0 <= h <= (n - 1) as real
    ensures p == 0.0 ==> h == 0.0
    ensures p == 1.0 ==> h == (n - 1) as real
  {
    ScaleWithin((n - 1) as real, p);
    ((n - 1) as real) * p
  }

  /** Scaling a non-negative number by a weight in [0, 1] keeps it in [0, a]. */
  lemma {:induction false} ScaleWithin(a: real, p: real)
    requires 0.0 <= a && 0.0 <= p <= 1.0
    ensures 0.0 <= a * p <= a
  {
    var e := 1.0 - p;
    assert 0.0 <= a * p;
    assert 0.0 <= a * e;
    assert a * e == a - a * p;
  }

  /** The value at fractional rank `h` of `t`: the entry at `floor(h)`,
      moved linearly towards the next entry by the fractional part of `h`. */
  function Interpolate(t: seq<real>, h: real): real
    requires 0.0 <= h <= (|t| - 1) as real
  {
    var lo := h.Floor;
    if lo + 1 < |t| then t[lo] + (h - lo as real) * (t[lo + 1] - t[lo]) else t[lo]
  }

  /** On a sorted sample the interpolated value lies between the first and
      last entries, and is exactly one of them at rank 0 and rank n-1. */
  lemma {:induction false} InterpolateWithin(t: seq<real>, h: real)
    requires Sorted(t) && 0.0 <= h <= (|t| - 1) as real
    ensures t[0] <= Interpolate(t, h) <= t[|t| - 1]
    ensures h == 0.0 ==> Interpolate(t, h) == t[0]
    ensures h == (|t| - 1) as real ==> Interpolate(t, h) == t[|t| - 1]
  {
    var n := |t|;
    var lo := h.Floor;
    FloorFacts(h, n - 1);
    var v := Interpolate(t, h);
    if lo + 1 < n {
      var g := h - lo as real;
      assert v == t[lo] + g * (t[lo + 1] - t[lo]);
      SortedPair(t, lo, lo + 1);
      SortedPair(t, 0, lo);
      SortedPair(t, lo + 1, n - 1);
      InterpolationBetween(t[lo], t[lo + 1], g);
    } else {
      assert v == t[lo];
      SortedPair(t, 0, lo);
    }
  }

  /** The floor of a rank in [0, m] is an index in [0, m]. */
  lemma {:induction false} FloorFacts(h: real, m: int)
    requires 0.0 <= h <= m as real
    ensures 0 <= h.Floor <= m
    ensures 0.0 <= h - h.Floor as real < 1.0
    ensures h == 0.0 ==> h.Floor == 0
    ensures h == m as real ==> h.Floor == m
  {
  }

  lemma {:induction false} SortedPair(t: seq<real>, i: int, j: int)
    requires Sorted(t) && 0 <= i <= j < |t|
    ensures t[i] <= t[j]
  {
    if i < j {
      assert t[i] <= t[j];
    }
  }

  /** The quantile lies between the sample's minimum and maximum, and its
      two extremes p = 0 and p = 1 are exactly the minimum and the maximum. */
  lemma {:induction false} QuantileWithinRange(s: seq<real>, p: real)
    requires |s| > 0 && 0.0 <= p <= 1.0
    ensures Min(s) <= Quantile(s, p) <= Max(s)
    ensures p == 0.0 ==> Quantile(s, p) == Min(s)
    ensures p == 1.0 ==> Quantile(s, p) == Max(s)
  {
    SortEnds(s);
    InterpolateWithin(Sort(s), Position(|s|, p));
  }

  /** Linear interpolation with a weight in [0, 1) stays in [a, b). */
  lemma {:induction false} InterpolationBetween(a: real, b: real, g: real)
    requires a <= b && 0.0 <= g < 1.0
    ensures a <= a + g * (b - a) <= b
    ensures g == 0.0 ==> a + g * (b - a) == a
  {
    var d := b - a;
    assert 0.0 <= g * d;
    var e := 1.0 - g;
    assert 0.0 <= e * d;
    assert e * d == d - g * d;
  }

  // ---------- boolean filtering ----------

  /** `s[s <= q]`: the observations at or below `q`, in their order. */
  function AtOrBelow(s: seq<real>, q: real): (r: seq<real>)
    ensures forall k :: 0 <= k < |r| ==> r[k] <= q
    ensures forall x :: multiset(r)[x] == if x <= q then multiset(s)[x] else 0
  {
    if |s| == 0 then []
    else
      var last := s[|s| - 1];
      assert s == s[..|s| - 1] + [last];
      AtOrBelow(s[..|s| - 1], q) + (if last <= q then [last] else [])
  }

  /** A value of the series at or below `q` survives the filter. */
  lemma {:induction false} AtOrBelowKeeps(s: seq<real>, q: real, x: real)
    requires x in s && x <= q
    ensures x in AtOrBelow(s, q)
  {
    assert multiset(s)[x] > 0;
    assert multiset(AtOrBelow(s, q))[x] > 0;
  }

  // ---------- running scans ----------

  /** Series.cummax: entry t is the largest of the first t+1 values. */
  function CumMax(p: seq<real>): (c: seq<real>)
    ensures |c| == |p|
    ensures forall t :: 0 <= t < |p| ==> c[t] == Max(p[..t + 1])
  {
    if |p| == 0 then []
    else
      var n := |p|;
      var c' := CumMax(p[..n - 1]);
      var m := if n == 1 then p[0] else if c'[n - 2] < p[n - 1] then p[n - 1] else c'[n - 2];
      CumMaxStep(p, c', m);
      c' + [m]
  }

  /** Extending the running maximum of `p` without its last value by one
      more step gives the running maximum of `p`. */
  lemma {:induction false} CumMaxStep(p: seq<real>, c': seq<real>, m: real)
    requires |p| > 0 && |c'| == |p| - 1
    requires forall t :: 0 <= t < |p| - 1 ==> c'[t] == Max(p[..|p| - 1][..t + 1])
    requires m == if |p| == 1 then p[0]
                  else if c'[|p| - 2] < p[|p| - 1] then p[|p| - 1] else c'[|p| - 2]
    ensures forall t :: 0 <= t < |p| ==> (c' + [m])[t] == Max(p[..t + 1])
  {
    var n := |p|;
    var c := c' + [m];
    forall t | 0 <= t < n ensures c[t] == Max(p[..t + 1]) {
      if t < n - 1 {
        assert p[..n - 1][..t + 1] == p[..t + 1];
        assert c[t] == c'[t];
      } else {
        assert p[..t + 1] == p;
        if n > 1 {
          assert p[..n - 1][..n - 1] == p[..n - 1];
        }
      }
    }
  }

  /** Series.cumprod: entry t is the product of the first t+1 values. */
  function CumProd(s: seq<real>): (c: seq<real>)
    ensures |c| == |s|
    ensures forall t :: 0 <= t < |s| ==> c[t] == Product(s[..t + 1])
  {
    if |s| == 0 then []
    else
      var c' := CumProd(s[..|s| - 1]);
      var n := |s|;
      forall t | 0 <= t < n - 1 ensures c'[t] == Product(s[..t + 1]) {
        assert s[..n - 1][..t + 1] == s[..t + 1];
      }
      var m := (if n == 1 then 1.0 else c'[n - 2]) * s[n - 1];
      assert m == Product(s[..n]) by {
        assert s[..n][..n - 1] == s[..n - 1];
        if n > 1 {
          assert s[..n - 1] == s[..n - 1][..n - 1];
        } else {
          assert s[..0] == [];
        }
      }
      c' + [m]
  }
}
