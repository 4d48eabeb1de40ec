/** Value types shared by the statistics helpers: the errors they raise, a
    Result and an Option wrapper, and the rectangular table they receive
    (a pandas DataFrame whose rows are periods and whose columns are assets). */
module Frames {

  /** The exceptions the helpers (or the library calls they make) raise. */
  datatype Error =
    | InvalidMethod        // to_returns: method is neither "simple" nor "log"
    | QuantileOutOfRange   // Series.quantile: probability outside [0, 1]
    | ShapeMismatch        // DataFrame @ weights: weight count differs from column count
    | ZeroDivision         // Python float division by an integer zero

  datatype Result<T> = Ok(value: T) | Err(error: Error)

  /** `None` stands for pandas' NaN: a missing cell, or the value of a
      reduction (mean, min, quantile) over an empty series. */
  datatype Option<T> = None | Some(value: T)

  /** A table of `columns` series sharing one time index; `rows[t][i]` is
      the value of asset `i` in period `t`. The width is kept apart from
      the rows so that a table with no rows still has its columns. */
  datatype Frame<T> = Frame(columns: nat, rows: seq<seq<T>>) {
    predicate WellFormed() {
      forall t :: 0 <= t < |rows| ==> |rows[t]| == columns
    }
  }

  /** The series of one column of a table. */
  function Column<T>(f: Frame<T>, i: nat): seq<T>
    requires f.WellFormed() && i < f.columns
  {
    seq(|f.rows|, t requires 0 <= t < |f.rows| => f.rows[t][i])
  }

  lemma {:induction false} ColumnAt<T>(f: Frame<T>, i: nat, t: nat)
    requires f.WellFormed() && i < f.columns && t < |f.rows|
    ensures Column(f, i)[t] == f.rows[t][i]
  {
  }
}
