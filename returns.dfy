/** `to_returns`: turning a price table into a table of period returns,
    either simple (`pct_change`) or logarithmic (`log(...).diff()`), with or
    without the undefined first row. The natural logarithm is a library
    call the model cannot see, so it is a parameter `ln`. */
module Returns {
  import opened Frames
  import opened Series

  // ---------- one price series ----------

  /** Every price that is divided by (all but the last) is nonzero. */
  predicate DivisorsNonZero(p: seq<real>)
  {
    forall k :: 0 <= k < |p| - 1 ==> p[k] != 0.0
  }

  /** Simple returns `P_t / P_{t-1} - 1` of one series, the undefined first
      one dropped. */
  function SeriesReturns(p: seq<real>): (r: seq<real>)
    requires DivisorsNonZero(p)
    ensures |r| == if |p| == 0 then 0 else |p| - 1
  {
    if |p| == 0 then [] else seq(|p| - 1, k requires 0 <= k < |p| - 1 => p[k + 1] / p[k] - 1.0)
  }

  /** Log returns `ln(P_t) - ln(P_{t-1})` of one series, the first dropped. */
  function SeriesLogReturns(p: seq<real>, ln: real -> real): (r: seq<real>)
    ensures |r| == if |p| == 0 then 0 else |p| - 1
  {
    if |p| == 0 then [] else seq(|p| - 1, k requires 0 <= k < |p| - 1 => ln(p[k + 1]) - ln(p[k]))
  }

  /** Entry t of the log returns, spelled out. */
  lemma {:induction false} SeriesLogReturnsAt(p: seq<real>, ln: real -> real, t: nat)
    requires t + 1 < |p|
    ensures SeriesLogReturns(p, ln)[t] == ln(p[t + 1]) - ln(p[t])
  {
  }

  /** The growth factors `1 + r_t` of a return series. */
  function Growth(r: seq<real>): (g: seq<real>)
    ensures |g| == |r|
  {
    seq(|r|, t requires 0 <= t < |r| => 1.0 + r[t])
  }

  /** The price path that starts at `p0` and compounds the returns `r`:
      `P_0` followed by `P_0 * cumprod(1 + r)`. */
  function Compound(p0: real, r: seq<real>): (p: seq<real>)
    ensures |p| == |r| + 1 && p[0] == p0
  {
    var c := CumProd(Growth(r));
    [p0] + seq(|r|, t requires 0 <= t < |r| => p0 * c[t])
  }

  /** Compounding the simple returns of a series from its first price
      gives back the series: `P_0 * prod_{k<=t}(1 + r_k) == P_{t+1}`. */
  lemma {:induction false} ReturnsThenCompound(p: seq<real>)
    requires |p| > 0 && DivisorsNonZero(p)
    ensures Compound(p[0], SeriesReturns(p)) == p
  {
    var q := Compound(p[0], SeriesReturns(p));
    forall t | 1 <= t < |p| ensures q[t] == p[t] {
      CompoundPrefix(p, t - 1);
    }
  }

  /** `P_0` times the first t+1 growth factors is `P_{t+1}`. */
  lemma {:induction false} CompoundPrefix(p: seq<real>, t: nat)
    requires DivisorsNonZero(p) && t + 1 < |p|
    ensures p[0] * Product(Growth(SeriesReturns(p))[..t + 1]) == p[t + 1]
  {
    var g := Growth(SeriesReturns(p));
    assert g[t] == p[t + 1] / p[t];
    assert g[..t + 1][..t] == g[..t];
    if t == 0 {
      assert g[..1][..0] == [];
      assert Product(g[..1]) == g[0];
    } else {
      CompoundPrefix(p, t - 1);
      assert p[0] * Product(g[..t]) == p[t];
      calc {
        p[0] * Product(g[..t + 1]);
        p[0] * (Product(g[..t]) * g[t]);
        (p[0] * Product(g[..t])) * g[t];
        p[t] * (p[t + 1] / p[t]);
        p[t + 1];
      }
    }
  }

  /** Conversely, the simple returns of a compounded path are the returns
      it was built from, provided the start is nonzero and no growth
      factor is zero (no return of exactly -100%). */
  lemma {:induction false} CompoundThenReturns(p0: real, r: seq<real>)
    requires p0 != 0.0
    requires forall t :: 0 <= t < |r| ==> 1.0 + r[t] != 0.0
    ensures DivisorsNonZero(Compound(p0, r))
    ensures SeriesReturns(Compound(p0, r)) == r
  {
    var q := Compound(p0, r);
    forall t | 0 <= t < |r| ensures q[t] != 0.0 && q[t + 1] / q[t] - 1.0 == r[t] {
      CompoundStep(p0, r, t);
    }
    assert DivisorsNonZero(q);
    var s := SeriesReturns(q);
    assert |s| == |r|;
    forall t | 0 <= t < |r| ensures s[t] == r[t] {
    }
  }

  /** One step of a compounded path: entry t is nonzero and entry t+1 is
      entry t grown by `1 + r_t`. */
  lemma {:induction false} CompoundStep(p0: real, r: seq<real>, t: nat)
    requires p0 != 0.0
    requires forall k :: 0 <= k < |r| ==> 1.0 + r[k] != 0.0
    requires t < |r|
    ensures Compound(p0, r)[t] != 0.0
    ensures Compound(p0, r)[t + 1] / Compound(p0, r)[t] - 1.0 == r[t]
  {
    CompoundNonZero(p0, r, t);
    CompoundNext(p0, r, t);
    var q := Compound(p0, r);
    RatioOfGrowth(q[t], q[t + 1], 1.0 + r[t]);
  }

  /** Entry t+1 of a compounded path is entry t times `1 + r_t`. */
  lemma {:induction false} CompoundNext(p0: real, r: seq<real>, t: nat)
    requires t < |r|
    ensures Compound(p0, r)[t + 1] == Compound(p0, r)[t] * (1.0 + r[t])
  {
    var g := Growth(r);
    ProductPrefix(g, t);
    CompoundAt(p0, r, t);
    CompoundAt(p0, r, t + 1);
    Scaled(p0, Product(g[..t]), g[t]);
  }

  /** No entry of a path compounded from a nonzero start by nonzero growth
      factors is zero. */
  lemma {:induction false} CompoundNonZero(p0: real, r: seq<real>, t: nat)
    requires p0 != 0.0
    requires forall k :: 0 <= k < |r| ==> 1.0 + r[k] != 0.0
    requires t <= |r|
    ensures Compound(p0, r)[t] != 0.0
  {
    var pre := Growth(r)[..t];
    forall k | 0 <= k < |pre| ensures pre[k] != 0.0 {
      assert pre[k] == 1.0 + r[k];
    }
    ProductNonZero(pre);
    CompoundAt(p0, r, t);
    TimesSign(p0, Product(pre));
  }

  lemma {:induction false} Scaled(p0: real, b: real, x: real)
    ensures p0 * (b * x) == (p0 * b) * x
  {
  }

  /** Dividing `c == a * x` by a nonzero `a` leaves `x`. */
  lemma {:induction false} RatioOfGrowth(a: real, c: real, x: real)
    requires a != 0.0 && c == a * x
    ensures c / a - 1.0 == x - 1.0
  {
  }

  /** Entry t of a compounded path is `p0` times the first t growth factors. */
  lemma {:induction false} CompoundAt(p0: real, r: seq<real>, t: nat)
    requires t <= |r|
    ensures Compound(p0, r)[t] == p0 * Product(Growth(r)[..t])
  {
    if t == 0 {
      assert Growth(r)[..0] == [];
    }
  }

  /** A product of nonzero factors is nonzero. */
  lemma {:induction false} ProductNonZero(s: seq<real>)
    requires forall k :: 0 <= k < |s| ==> s[k] != 0.0
    ensures Product(s) != 0.0
  {
    if |s| > 0 {
      ProductNonZero(s[..|s| - 1]);
    }
  }

  /** A simple return from a positive price to a positive price exceeds -100%. */
  lemma {:induction false} ReturnsAboveMinusOne(p: seq<real>)
    requires forall k :: 0 <= k < |p| ==> p[k] > 0.0
    ensures DivisorsNonZero(p)
    ensures forall t :: 0 <= t < |SeriesReturns(p)| ==> SeriesReturns(p)[t] > -1.0
  {
    var r := SeriesReturns(p);
    forall t | 0 <= t < |r| ensures r[t] > -1.0 {
      assert p[t + 1] / p[t] > 0.0;
    }
  }

  /** Log returns telescope: their sum is `ln(P_last) - ln(P_first)`. */
  lemma {:induction false} LogReturnsTelescope(p: seq<real>, ln: real -> real)
    requires |p| > 0
    ensures Sum(SeriesLogReturns(p, ln)) == ln(p[|p| - 1]) - ln(p[0])
  {
    var n := |p|;
    if n > 1 {
      var r := SeriesLogReturns(p, ln);
      assert r[..n - 2] == SeriesLogReturns(p[..n - 1], ln);
      LogReturnsTelescope(p[..n - 1], ln);
      assert Sum(r) == Sum(r[..n - 2]) + r[n - 2];
    }
  }

  // ---------- price tables ----------

  /** Every price of the table that is divided by is nonzero. */
  predicate FrameDivisorsNonZero(f: Frame<real>)
    requires f.WellFormed()
  {
    forall t, i :: 0 <= t < |f.rows| - 1 && 0 <= i < f.columns ==> f.rows[t][i] != 0.0
  }

  /** The simple return of every asset from the row `prev` to the row `cur`. */
  function RowReturns(prev: seq<real>, cur: seq<real>): (r: seq<real>)
    requires |prev| == |cur|
    requires forall i :: 0 <= i < |prev| ==> prev[i] != 0.0
    ensures |r| == |cur|
  {
    seq(|cur|, i requires 0 <= i < |cur| => cur[i] / prev[i] - 1.0)
  }

  /** The log return of every asset from the row `prev` to the row `cur`. */
  function RowLogReturns(prev: seq<real>, cur: seq<real>, ln: real -> real): (r: seq<real>)
    requires |prev| == |cur|
    ensures |r| == |cur|
  {
    seq(|cur|, i requires 0 <= i < |cur| => ln(cur[i]) - ln(prev[i]))
  }

  /** A row of defined values. */
  function LiftRow(row: seq<real>): (r: seq<Option<real>>)
    ensures |r| == |row| && Complete(r)
  {
    seq(|row|, i requires 0 <= i < |row| => Some(row[i]))
  }

  /** A row of `n` NaN. */
  function NaNRow(n: nat): (r: seq<Option<real>>)
    ensures |r| == n && forall i :: 0 <= i < n ==> r[i].None?
  {
    seq(n, _ => None)
  }

  /** Every cell of a real table, as a defined value. */
  function Lift(f: Frame<real>): (g: Frame<Option<real>>)
    ensures g.columns == f.columns && |g.rows| == |f.rows|
    ensures f.WellFormed() ==> g.WellFormed()
    ensures forall t :: 0 <= t < |g.rows| ==> Complete(g.rows[t])
  {
    Frame(f.columns, seq(|f.rows|, t requires 0 <= t < |f.rows| => LiftRow(f.rows[t])))
  }

  /** The simple return of every asset for every period after the first,
      as real values (row t holds the returns from period t to t+1). */
  function SimpleReturns(f: Frame<real>): (g: Frame<real>)
    requires f.WellFormed() && FrameDivisorsNonZero(f)
    ensures g.WellFormed() && g.columns == f.columns
    ensures |g.rows| == if |f.rows| == 0 then 0 else |f.rows| - 1
  {
    var n := if |f.rows| == 0 then 0 else |f.rows| - 1;
    Frame(f.columns, seq(n, t requires 0 <= t < n => RowReturns(f.rows[t], f.rows[t + 1])))
  }

  /** The log return of every asset for every period after the first. */
  function LogReturns(f: Frame<real>, ln: real -> real): (g: Frame<real>)
    requires f.WellFormed()
    ensures g.WellFormed() && g.columns == f.columns
    ensures |g.rows| == if |f.rows| == 0 then 0 else |f.rows| - 1
  {
    var n := if |f.rows| == 0 then 0 else |f.rows| - 1;
    Frame(f.columns, seq(n, t requires 0 <= t < n => RowLogReturns(f.rows[t], f.rows[t + 1], ln)))
  }

  /** `prices.pct_change()`: a row of NaN (no earlier price), then the simple
      return of every asset for every later period. */
  function PctChange(f: Frame<real>): (g: Frame<Option<real>>)
    requires f.WellFormed() && FrameDivisorsNonZero(f)
    ensures g.WellFormed() && g.columns == f.columns && |g.rows| == |f.rows|
  {
    if |f.rows| == 0 then Frame(f.columns, [])
    else Frame(f.columns, [NaNRow(f.columns)] + Lift(SimpleReturns(f)).rows)
  }

  /** `np.log(prices).diff()`: a row of NaN, then the difference of the
      logarithms of consecutive prices. */
  function LogDiff(f: Frame<real>, ln: real -> real): (g: Frame<Option<real>>)
    requires f.WellFormed()
    ensures g.WellFormed() && g.columns == f.columns && |g.rows| == |f.rows|
  {
    if |f.rows| == 0 then Frame(f.columns, [])
    else Frame(f.columns, [NaNRow(f.columns)] + Lift(LogReturns(f, ln)).rows)
  }

  /** A row without NaN. */
  predicate Complete<T>(row: seq<Option<T>>)
  {
    forall i :: 0 <= i < |row| ==> row[i].Some?
  }

  /** The rows without NaN, in their order. */
  function CompleteRows<T>(rows: seq<seq<Option<T>>>): (r: seq<seq<Option<T>>>)
    ensures |r| <= |rows|
    ensures forall t :: 0 <= t < |r| ==> Complete(r[t]) && r[t] in rows
    ensures forall t :: 0 <= t < |rows| && Complete(rows[t]) ==> rows[t] in r
  {
    if |rows| == 0 then []
    else
      var rest := CompleteRows(rows[..|rows| - 1]);
      assert forall t :: 0 <= t < |rest| ==> rest[t] in rows by {
        assert rows[..|rows| - 1] <= rows;
      }
      assert forall t :: 0 <= t < |rows| - 1 ==> rows[t] == rows[..|rows| - 1][t];
      rest + if Complete(rows[|rows| - 1]) then [rows[|rows| - 1]] else []
  }

  /** dropna keeps every complete row as often as it occurs, and nothing else. */
  lemma {:induction false} CompleteRowsCount<T>(rows: seq<seq<Option<T>>>)
    ensures forall x :: multiset(CompleteRows(rows))[x] == if Complete(x) then multiset(rows)[x] else 0
  {
    if |rows| > 0 {
      var n := |rows|;
      CompleteRowsCount(rows[..n - 1]);
      assert rows == rows[..n - 1] + [rows[n - 1]];
    }
  }

  /** `DataFrame.dropna()` (how="any"): every row holding a NaN is removed. */
  function DropNa<T>(f: Frame<Option<T>>): (g: Frame<Option<T>>)
    ensures g.columns == f.columns && |g.rows| <= |f.rows|
    ensures f.WellFormed() ==> g.WellFormed()
  {
    Frame(f.columns, CompleteRows(f.rows))
  }

  /** `to_returns(prices, method, dropna)`; `kind` is the `method` string. */
  function ToReturns(prices: Frame<real>, kind: string, dropna: bool, ln: real -> real)
    : (r: Result<Frame<Option<real>>>)
    requires prices.WellFormed()
    requires kind == "simple" ==> FrameDivisorsNonZero(prices)
    ensures r.Err? <==> kind != "simple" && kind != "log"
    ensures r.Err? ==> r.error == InvalidMethod
    ensures r.Ok? ==> r.value.columns == prices.columns && r.value.WellFormed()
    ensures r.Ok? && !dropna ==> |r.value.rows| == |prices.rows|
  {
    if kind == "simple" then
      Ok(if dropna then DropNa(PctChange(prices)) else PctChange(prices))
    else if kind == "log" then
      Ok(if dropna then DropNa(LogDiff(prices, ln)) else LogDiff(prices, ln))
    else
      Err(InvalidMethod)
  }

  /** Cell by cell, pct_change is NaN in the first period and
      `P_t / P_{t-1} - 1` in every later one. */
  lemma {:induction false} PctChangeCell(prices: Frame<real>, t: nat, i: nat)
    requires prices.WellFormed() && FrameDivisorsNonZero(prices)
    requires t < |prices.rows| && i < prices.columns
    ensures t == 0 ==> PctChange(prices).rows[t][i] == None
    ensures t > 0 ==> PctChange(prices).rows[t][i]
                       == Some(prices.rows[t][i] / prices.rows[t - 1][i] - 1.0)
  {
    PctChangeRows(prices);
    if t > 0 {
      LiftedRowAt(SimpleReturns(prices), t - 1);
      SimpleReturnsCell(prices, t - 1, i);
    }
  }

  lemma {:induction false} PctChangeRows(prices: Frame<real>)
    requires prices.WellFormed() && FrameDivisorsNonZero(prices) && |prices.rows| > 0
    ensures PctChange(prices).rows[0] == NaNRow(prices.columns)
    ensures forall t :: 0 < t < |prices.rows| ==>
      PctChange(prices).rows[t] == Lift(SimpleReturns(prices)).rows[t - 1]
  {
  }

  lemma {:induction false} SimpleReturnsCell(prices: Frame<real>, t: nat, i: nat)
    requires prices.WellFormed() && FrameDivisorsNonZero(prices)
    requires t + 1 < |prices.rows| && i < prices.columns
    ensures SimpleReturns(prices).rows[t][i] == prices.rows[t + 1][i] / prices.rows[t][i] - 1.0
  {
    assert SimpleReturns(prices).rows[t] == RowReturns(prices.rows[t], prices.rows[t + 1]);
  }

  /** Cell by cell, the log difference is NaN in the first period and
      `ln(P_t) - ln(P_{t-1})` in every later one. */
  lemma {:induction false} LogDiffCell(prices: Frame<real>, ln: real -> real, t: nat, i: nat)
    requires prices.WellFormed() && t < |prices.rows| && i < prices.columns
    ensures t == 0 ==> LogDiff(prices, ln).rows[t][i] == None
    ensures t > 0 ==> LogDiff(prices, ln).rows[t][i]
                       == Some(ln(prices.rows[t][i]) - ln(prices.rows[t - 1][i]))
  {
    LogDiffRows(prices, ln);
    if t > 0 {
      LiftedRowAt(LogReturns(prices, ln), t - 1);
      LogReturnsCell(prices, ln, t - 1, i);
    }
  }

  lemma {:induction false} LogDiffRows(prices: Frame<real>, ln: real -> real)
    requires prices.WellFormed() && |prices.rows| > 0
    ensures LogDiff(prices, ln).rows[0] == NaNRow(prices.columns)
    ensures forall t :: 0 < t < |prices.rows| ==>
      LogDiff(prices, ln).rows[t] == Lift(LogReturns(prices, ln)).rows[t - 1]
  {
  }

  lemma {:induction false} LogReturnsCell(prices: Frame<real>, ln: real -> real, t: nat, i: nat)
    requires prices.WellFormed() && t + 1 < |prices.rows| && i < prices.columns
    ensures LogReturns(prices, ln).rows[t][i] == ln(prices.rows[t + 1][i]) - ln(prices.rows[t][i])
  {
    assert LogReturns(prices, ln).rows[t] == RowLogReturns(prices.rows[t], prices.rows[t + 1], ln);
  }

  lemma {:induction false} LiftedRowAt(g: Frame<real>, t: nat)
    requires t < |g.rows|
    ensures Lift(g).rows[t] == LiftRow(g.rows[t])
    ensures forall i :: 0 <= i < |g.rows[t]| ==> Lift(g).rows[t][i] == Some(g.rows[t][i])
  {
  }

  /** Dropping the rows with NaN from an incomplete first row followed by
      complete rows leaves exactly the complete rows. */
  lemma {:induction false} DropsOnlyFirst<T>(head: seq<Option<T>>, rest: seq<seq<Option<T>>>)
    requires !Complete(head)
    requires forall t :: 0 <= t < |rest| ==> Complete(rest[t])
    ensures CompleteRows([head] + rest) == rest
  {
    var rows := [head] + rest;
    var n := |rows|;
    if n == 1 {
      assert CompleteRows(rows[..0]) == [];
    } else {
      var shorter := rest[..|rest| - 1];
      assert rows[..n - 1] == [head] + shorter;
      DropsOnlyFirst(head, shorter);
      assert rows[n - 1] == rest[|rest| - 1];
      assert rest == shorter + [rest[|rest| - 1]];
    }
  }

  /** A table whose rows are all complete loses nothing to dropna. */
  lemma {:induction false} KeepsComplete<T>(rows: seq<seq<Option<T>>>)
    requires forall t :: 0 <= t < |rows| ==> Complete(rows[t])
    ensures CompleteRows(rows) == rows
  {
    if |rows| > 0 {
      KeepsComplete(rows[..|rows| - 1]);
      assert rows == rows[..|rows| - 1] + [rows[|rows| - 1]];
    }
  }

  /** With at least one asset, the NaN row followed by a lifted table loses
      exactly the NaN row to dropna. */
  lemma {:induction false} DropsNaNRow(g: Frame<real>)
    requires g.columns > 0
    ensures CompleteRows([NaNRow(g.columns)] + Lift(g).rows) == Lift(g).rows
  {
    var head := NaNRow(g.columns);
    assert !head[0].Some?;
    DropsOnlyFirst(head, Lift(g).rows);
  }

  /** `to_returns(prices, "simple")` with at least one asset is the table of
      simple returns `P_t / P_{t-1} - 1`, one row shorter than the prices. */
  lemma {:induction false} SimpleDropped(prices: Frame<real>, ln: real -> real)
    requires prices.WellFormed() && FrameDivisorsNonZero(prices) && prices.columns > 0
    ensures ToReturns(prices, "simple", true, ln) == Ok(Lift(SimpleReturns(prices)))
  {
    var g := SimpleReturns(prices);
    if |prices.rows| > 0 {
      DropsNaNRow(g);
    } else {
      assert Lift(g).rows == [];
    }
  }

  /** `to_returns(prices, "log")` with at least one asset is the table of
      log returns, one row shorter than the prices. */
  lemma {:induction false} LogDropped(prices: Frame<real>, ln: real -> real)
    requires prices.WellFormed() && prices.columns > 0
    ensures ToReturns(prices, "log", true, ln) == Ok(Lift(LogReturns(prices, ln)))
  {
    var g := LogReturns(prices, ln);
    if |prices.rows| > 0 {
      DropsNaNRow(g);
    } else {
      assert Lift(g).rows == [];
    }
  }

  /** A table with no asset columns has only empty rows, which hold no NaN,
      so dropna keeps every one of them, the first included. */
  lemma {:induction false} NoColumnsKeepsEveryRow(prices: Frame<real>, ln: real -> real)
    requires prices.WellFormed() && FrameDivisorsNonZero(prices) && prices.columns == 0
    ensures ToReturns(prices, "simple", true, ln).Ok?
    ensures |ToReturns(prices, "simple", true, ln).value.rows| == |prices.rows|
  {
    var rows := PctChange(prices).rows;
    forall t | 0 <= t < |rows| ensures Complete(rows[t]) {
      assert |rows[t]| == 0;
    }
    KeepsComplete(rows);
  }

  /** Column `i` of the simple-return table is the simple-return series of
      column `i` of the prices. */
  lemma {:induction false} SimpleReturnsByColumn(f: Frame<real>, i: nat)
    requires f.WellFormed() && FrameDivisorsNonZero(f) && i < f.columns
    ensures DivisorsNonZero(Column(f, i))
    ensures Column(SimpleReturns(f), i) == SeriesReturns(Column(f, i))
  {
    var p := Column(f, i);
    var g := SimpleReturns(f);
    var c := Column(g, i);
    assert DivisorsNonZero(p) by {
      forall k | 0 <= k < |p| - 1 ensures p[k] != 0.0 {
        assert p[k] == f.rows[k][i];
      }
    }
    var s := SeriesReturns(p);
    forall t | 0 <= t < |c| ensures c[t] == s[t] {
      SimpleReturnsCell(f, t, i);
      assert c[t] == g.rows[t][i];
      assert p[t] == f.rows[t][i] && p[t + 1] == f.rows[t + 1][i];
    }
  }

  /** From positive prices no simple return reaches -100%. */
  lemma {:induction false} SimpleReturnsAboveMinusOne(f: Frame<real>)
    requires f.WellFormed()
    requires forall t, i :: 0 <= t < |f.rows| && 0 <= i < f.columns ==> f.rows[t][i] > 0.0
    ensures FrameDivisorsNonZero(f)
    ensures forall t, i :: 0 <= t < |SimpleReturns(f).rows| && 0 <= i < f.columns ==>
      SimpleReturns(f).rows[t][i] > -1.0
  {
    var g := SimpleReturns(f);
    forall t, i | 0 <= t < |g.rows| && 0 <= i < f.columns ensures g.rows[t][i] > -1.0 {
      SimpleReturnsCell(f, t, i);
      PositiveRatio(f.rows[t + 1][i], f.rows[t][i]);
    }
  }

  lemma {:induction false} PositiveRatio(x: real, y: real)
    requires x > 0.0 && y > 0.0
    ensures x / y - 1.0 > -1.0
  {
  }

  /** Column `i` of the log-return table is the log-return series of
      column `i` of the prices. */
  lemma {:induction false} LogReturnsByColumn(f: Frame<real>, ln: real -> real, i: nat)
    requires f.WellFormed() && i < f.columns
    ensures Column(LogReturns(f, ln), i) == SeriesLogReturns(Column(f, i), ln)
  {
    var p := Column(f, i);
    var g := LogReturns(f, ln);
    var c := Column(g, i);
    var s := SeriesLogReturns(p, ln);
    forall t | 0 <= t < |c| ensures c[t] == s[t] {
      LogReturnsCell(f, ln, t, i);
      ColumnAt(g, i, t);
      ColumnAt(f, i, t);
      ColumnAt(f, i, t + 1);
      SeriesLogReturnsAt(p, ln, t);
    }
  }
}
