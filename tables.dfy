/**
 * The data the detector works on: a table of named numeric columns (the
 * pandas DataFrame handed to `fit` and `predict`), the floating-point
 * kernels the detector calls, and the optional log transform.
 */
module Tables {

  datatype Option<T> = None | Some(value: T)

  /**
   * A table in row-major form: `rows[i][j]` is the value of the column named
   * `columns[j]` in record `i`. Column names are looked up by name, so two
   * tables that list the same columns in another order are different tables.
   */
  datatype Table = Table(columns: seq<string>, rows: seq<seq<real>>)
  {
    /** Every record has one value per column, as in a DataFrame. */
    ghost predicate WellFormed() {
      forall i :: 0 <= i < |rows| ==> |rows[i]| == |columns|
    }

    /** No column name occurs twice. */
    ghost predicate DistinctColumns() {
      forall j, k :: 0 <= j < k < |columns| ==> columns[j] != columns[k]
    }

    /** The values of the `j`-th column, one per record (`X[col]`, `X.values.T[j]`). */
    function Column(j: nat): (c: seq<real>)
      requires WellFormed() && j < |columns|
      ensures |c| == |rows|
      ensures forall i :: 0 <= i < |rows| ==> c[i] == rows[i][j]
    {
      seq(|rows|, i requires 0 <= i < |rows| => rows[i][j])
    }
  }

  /**
   * The floating-point kernels the detector uses, which this model leaves
   * uninterpreted:
   *   density(mu, sig, x)  the Gaussian density `f` of the detector,
   *   mean(xs)             `np.mean`,
   *   std(xs)              `np.std` (population standard deviation),
   *   ln(v)                `np.log`.
   */
  datatype Numerics = Numerics(
    density: (real, real, real) -> real,
    mean: seq<real> -> real,
    std: seq<real> -> real,
    ln: real -> real)
  {
    /**
     * The standard deviation of a non-empty column is never negative. (Of an
     * empty column it is NaN, which a real cannot hold: it is left free.)
     */
    ghost predicate Valid() {
      forall xs :: xs == [] || std(xs) >= 0.0
    }
  }

  /** The floor added to every fitted standard deviation. */
  const Epsilon: real := 1.0e-100

  /**
   * `ln(v + 1)`, where the negative infinity produced by `v = -1` is
   * replaced by 0.
   */
  function Log1p(num: Numerics, v: real): (r: real)
    ensures v == -1.0 ==> r == 0.0
    ensures v != -1.0 ==> r == num.ln(v + 1.0)
  {
    if v + 1.0 == 0.0 then 0.0 else num.ln(v + 1.0)
  }

  /**
   * The log transform applied to a whole table: same columns, same shape,
   * every value passed through `Log1p`.
   */
  function LogTransform(num: Numerics, t: Table): (r: Table)
    requires t.WellFormed()
    ensures r.WellFormed() && r.columns == t.columns && |r.rows| == |t.rows|
    ensures forall i, j :: 0 <= i < |t.rows| && 0 <= j < |t.columns| ==>
              r.rows[i][j] == Log1p(num, t.rows[i][j])
    ensures forall i, j :: 0 <= i < |t.rows| && 0 <= j < |t.columns| && t.rows[i][j] == -1.0 ==>
              r.rows[i][j] == 0.0
  {
    Table(t.columns,
          seq(|t.rows|, i requires 0 <= i < |t.rows| =>
            seq(|t.rows[i]|, j requires 0 <= j < |t.rows[i]| => Log1p(num, t.rows[i][j]))))
  }
}
