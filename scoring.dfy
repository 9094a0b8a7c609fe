/**
 * The scoring algorithm shared by threshold calibration and prediction:
 * per-feature densities looked up by column name, the row-wise product
 * (joint density), the row-wise first argmin (reason), the strict
 * comparison with the threshold, and the masking of reasons.
 */
module Scoring {
  import opened Tables
  import opened OrderStatistics
  import opened Products

  /** The reason reported for every record that is not flagged. */
  const NotAnomalous: string := "not_anomalous"

  /** The exceptions the detector lets propagate. */
  datatype DetectorError =
    | KeyError(column: string)  // an input column has no fitted mean or std
    | AxisError                 // argmin along axis 1 of a table without columns
    | IndexError(index: int)    // the threshold rank is outside the sorted densities

  datatype Result<T> = Ok(value: T) | Fail(error: DetectorError)

  /** What one scoring call produces: joint densities, reasons and 0/1 flags, one per record. */
  datatype ScoreOutput = ScoreOutput(products: seq<real>, reasons: seq<string>, flags: seq<int>)

  ghost predicate HasStats(means: map<string, real>, stds: map<string, real>, c: string) {
    c in means && c in stds
  }

  /**
   * The position of the first column without fitted statistics, or
   * `|columns|` when every column has them: the column whose lookup raises
   * `KeyError` when the columns are walked in order.
   */
  function FirstMissing(columns: seq<string>, means: map<string, real>, stds: map<string, real>): (k: nat)
    ensures k <= |columns|
    ensures forall j :: 0 <= j < k ==> HasStats(means, stds, columns[j])
    ensures k < |columns| ==> !HasStats(means, stds, columns[k])
  {
    if columns == [] then 0
    else if columns[0] in means && columns[0] in stds then 1 + FirstMissing(columns[1..], means, stds)
    else 0
  }

  /** `k` is the first position holding the minimum of `s`. */
  ghost predicate IsFirstMinimum(s: seq<real>, k: int) {
    && 0 <= k < |s|
    && (forall j :: 0 <= j < |s| ==> s[k] <= s[j])
    && (forall j :: 0 <= j < k ==> s[k] < s[j])
  }

  /** `np.argmin` of one row: the first position of its minimum. */
  function ArgMin(s: seq<real>): (k: nat)
    requires |s| > 0
    ensures IsFirstMinimum(s, k)
  {
    if |s| == 1 then 0
    else
      var m := ArgMin(s[1..]) + 1;
      if s[0] <= s[m] then 0 else m
  }

  /** The densities of one record, column by column, with each column's fitted mean and std. */
  function RowDensities(num: Numerics, means: map<string, real>, stds: map<string, real>,
                        columns: seq<string>, row: seq<real>): (d: seq<real>)
    requires |row| == |columns|
    requires forall j :: 0 <= j < |columns| ==> HasStats(means, stds, columns[j])
    ensures |d| == |columns|
  {
    seq(|columns|, j requires 0 <= j < |columns| && HasStats(means, stds, columns[j]) =>
      num.density(means[columns[j]], stds[columns[j]], row[j]))
  }

  /**
   * Scores a table against fitted statistics and a threshold, as
   * `_compute_score` does. Every input column must have statistics (the
   * first that lacks them raises `KeyError`), and a table without columns
   * raises `AxisError`; otherwise there is one joint density, one reason and
   * one flag per record (what each one is: `ScoreRecord`).
   */
  function Score(num: Numerics, means: map<string, real>, stds: map<string, real>,
                 threshold: real, x: Table): (r: Result<ScoreOutput>)
    requires x.WellFormed()
    ensures r.Ok? <==> |x.columns| > 0 && forall j :: 0 <= j < |x.columns| ==> HasStats(means, stds, x.columns[j])
    ensures r.Fail? ==>
              if |x.columns| == 0 then r.error == AxisError
              else r.error == KeyError(x.columns[FirstMissing(x.columns, means, stds)])
    ensures r.Ok? ==>
              |r.value.products| == |x.rows| && |r.value.flags| == |x.rows| && |r.value.reasons| == |x.rows|
  {
    var k := FirstMissing(x.columns, means, stds);
    if k < |x.columns| then
      Fail(KeyError(x.columns[k]))
    else if |x.columns| == 0 then
      Fail(AxisError)
    else
      var pdf := DensityMatrix(num, means, stds, x);
      var scores := Below(RowProducts(pdf), threshold);
      Ok(ScoreOutput(RowProducts(pdf), MaskReasons(x.columns, RowArgMins(pdf), scores), AsInt(scores)))
  }

  /** Scoring fails at the first column without statistics. */
  lemma ScoreMissingColumn(num: Numerics, means: map<string, real>, stds: map<string, real>,
                           threshold: real, x: Table, i: nat)
    requires x.WellFormed() && i < |x.columns|
    requires forall j :: 0 <= j < i ==> HasStats(means, stds, x.columns[j])
    requires !HasStats(means, stds, x.columns[i])
    ensures Score(num, means, stds, threshold, x) == Fail(KeyError(x.columns[i]))
  {
    FirstMissingIs(x.columns, means, stds, i);
  }

  lemma {:induction false} FirstMissingIs(columns: seq<string>, means: map<string, real>, stds: map<string, real>, i: nat)
    requires i < |columns|
    requires forall j :: 0 <= j < i ==> HasStats(means, stds, columns[j])
    requires !HasStats(means, stds, columns[i])
    ensures FirstMissing(columns, means, stds) == i
  {
    if i > 0 {
      FirstMissingIs(columns[1..], means, stds, i - 1);
    }
  }

  /** With statistics for every one of its columns, a table with columns is scored in full. */
  lemma ScoreAllColumns(num: Numerics, means: map<string, real>, stds: map<string, real>,
                        threshold: real, x: Table)
    requires x.WellFormed() && |x.columns| > 0
    requires forall j :: 0 <= j < |x.columns| ==> HasStats(means, stds, x.columns[j])
    ensures var pdf := DensityMatrix(num, means, stds, x);
            var scores := Below(RowProducts(pdf), threshold);
            Score(num, means, stds, threshold, x)
              == Ok(ScoreOutput(RowProducts(pdf), MaskReasons(x.columns, RowArgMins(pdf), scores), AsInt(scores)))
  {
  }

  /** The records-by-columns matrix of densities (`pdf_mat`). */
  function DensityMatrix(num: Numerics, means: map<string, real>, stds: map<string, real>, x: Table): (m: seq<seq<real>>)
    requires x.WellFormed()
    requires forall j :: 0 <= j < |x.columns| ==> HasStats(means, stds, x.columns[j])
    ensures |m| == |x.rows|
    ensures forall i :: 0 <= i < |x.rows| ==> |m[i]| == |x.columns|
  {
    seq(|x.rows|, i requires 0 <= i < |x.rows| => RowDensities(num, means, stds, x.columns, x.rows[i]))
  }

  /** `np.product(pdf_mat, axis=1)`. */
  function RowProducts(pdf: seq<seq<real>>): (p: seq<real>)
    ensures |p| == |pdf|
  {
    seq(|pdf|, i requires 0 <= i < |pdf| => Product(pdf[i]))
  }

  /** `np.argmin(pdf_mat, axis=1)`. */
  function RowArgMins(pdf: seq<seq<real>>): (a: seq<nat>)
    requires forall i :: 0 <= i < |pdf| ==> |pdf[i]| > 0
    ensures |a| == |pdf|
  {
    seq(|pdf|, i requires 0 <= i < |pdf| => ArgMin(pdf[i]))
  }

  /** `product_pd < cutoff_threshold`, element by element. */
  function Below(products: seq<real>, threshold: real): (b: seq<bool>)
    ensures |b| == |products|
  {
    seq(|products|, i requires 0 <= i < |products| => products[i] < threshold)
  }

  /** `scores.astype(int)`. */
  function AsInt(scores: seq<bool>): (f: seq<int>)
    ensures |f| == |scores|
  {
    seq(|scores|, i requires 0 <= i < |scores| => if scores[i] then 1 else 0)
  }

  /** The reason of each record: the column of its argmin if flagged, the sentinel otherwise. */
  function MaskReasons(columns: seq<string>, argMins: seq<nat>, scores: seq<bool>): (r: seq<string>)
    requires |argMins| == |scores|
    requires forall i :: 0 <= i < |argMins| ==> argMins[i] < |columns|
    ensures |r| == |scores|
  {
    seq(|scores|, i requires 0 <= i < |scores| => if scores[i] then columns[argMins[i]] else NotAnomalous)
  }

  /** Every row's argmin is the first position of that row's minimum. */
  lemma RowArgMinsAreFirstMinima(pdf: seq<seq<real>>)
    requires forall i :: 0 <= i < |pdf| ==> |pdf[i]| > 0
    ensures forall i :: 0 <= i < |pdf| ==> IsFirstMinimum(pdf[i], RowArgMins(pdf)[i])
  {
  }

  /**
   * A flagged record's reason is one of the columns, and every other
   * record's reason is the sentinel; when no column is named like the
   * sentinel, the reason tells exactly whether the record was flagged.
   */
  lemma MaskedReasons(columns: seq<string>, argMins: seq<nat>, scores: seq<bool>)
    requires |argMins| == |scores|
    requires forall i :: 0 <= i < |argMins| ==> argMins[i] < |columns|
    ensures var r := MaskReasons(columns, argMins, scores);
            forall i :: 0 <= i < |r| ==>
              (scores[i] ==> r[i] in columns) && (!scores[i] ==> r[i] == NotAnomalous)
    ensures var r := MaskReasons(columns, argMins, scores);
            NotAnomalous !in columns ==>
              forall i :: 0 <= i < |r| ==> (r[i] == NotAnomalous <==> !scores[i])
  {
  }

  /**
   * What scoring says about record `i`: its joint density is the product of
   * its per-column densities, it is flagged 1 exactly when that product is
   * strictly below the threshold and 0 otherwise, and its reason is
   * `NotAnomalous` when it is flagged 0 and otherwise the name of the first
   * column of minimum density.
   */
  lemma ScoreRecord(num: Numerics, means: map<string, real>, stds: map<string, real>,
                    threshold: real, x: Table, i: int)
    requires x.WellFormed() && Score(num, means, stds, threshold, x).Ok?
    requires 0 <= i < |x.rows|
    ensures var s := Score(num, means, stds, threshold, x).value;
            var d := RowDensities(num, means, stds, x.columns, x.rows[i]);
            && s.products[i] == Product(d)
            && (s.flags[i] == 1 <==> Product(d) < threshold)
            && (s.flags[i] == 0 <==> !(Product(d) < threshold))
            && (s.flags[i] == 0 ==> s.reasons[i] == NotAnomalous)
            && (s.flags[i] == 1 ==> exists k :: IsFirstMinimum(d, k) && s.reasons[i] == x.columns[k])
  {
  }

  /** Number of records flagged 1. */
  function CountFlagged(flags: seq<int>): (n: nat)
    ensures n <= |flags|
  {
    if flags == [] then 0 else (if flags[0] == 1 then 1 else 0) + CountFlagged(flags[1..])
  }

  // ---------------------------------------------------------------------
  // Properties of scoring

  /** `ArgMin` is the only first minimum: the reason of a flagged record is determined. */
  lemma FirstMinimumUnique(s: seq<real>, k: int)
    requires IsFirstMinimum(s, k)
    ensures k == ArgMin(s)
  {
  }

  /**
   * When no input column is itself called `not_anomalous`, the reason is the
   * sentinel exactly for the records flagged 0.
   */
  lemma SentinelMarksNormalRecords(num: Numerics, means: map<string, real>, stds: map<string, real>,
                                   threshold: real, x: Table, i: int)
    requires x.WellFormed() && Score(num, means, stds, threshold, x).Ok?
    requires forall j :: 0 <= j < |x.columns| ==> x.columns[j] != NotAnomalous
    requires 0 <= i < |x.rows|
    ensures var s := Score(num, means, stds, threshold, x).value;
            s.reasons[i] == NotAnomalous <==> s.flags[i] == 0
  {
    ScoreRecord(num, means, stds, threshold, x, i);
  }

  /**
   * A column named `not_anomalous` is indistinguishable from the sentinel:
   * here a record is flagged 1 and still reported as `not_anomalous`.
   */
  lemma SentinelCollision()
    ensures var num := Numerics((mu, sig, v) => 0.5, xs => 0.0, xs => 0.0, v => 0.0);
            var x := Table([NotAnomalous], [[3.0]]);
            var s := Score(num, map[NotAnomalous := 0.0], map[NotAnomalous := 1.0], 1.0, x);
            s.Ok? && s.value.flags == [1] && s.value.reasons == [NotAnomalous]
  {
    var num := Numerics((mu, sig, v) => 0.5, xs => 0.0, xs => 0.0, v => 0.0);
    var x := Table([NotAnomalous], [[3.0]]);
    var d := RowDensities(num, map[NotAnomalous := 0.0], map[NotAnomalous := 1.0], x.columns, x.rows[0]);
    assert d == [0.5];
    assert Product(d) == 0.5 * Product([]);
  }

  /** A detector with no fitted statistics rejects every table that has a column. */
  lemma UnfittedRejects(num: Numerics, threshold: real, x: Table)
    requires x.WellFormed() && |x.columns| >= 1
    ensures Score(num, map[], map[], threshold, x) == Fail(KeyError(x.columns[0]))
  {
  }

  /**
   * Only the statistics of the input's own columns matter: fitted features
   * that the input lacks are not scored, and their values are never read.
   */
  lemma ScoreIgnoresUnusedKeys(num: Numerics, m1: map<string, real>, s1: map<string, real>,
                               m2: map<string, real>, s2: map<string, real>, threshold: real, x: Table)
    requires x.WellFormed()
    requires forall j :: 0 <= j < |x.columns| ==>
               var c := x.columns[j];
               (c in m1 <==> c in m2) && (c in s1 <==> c in s2) &&
               (c in m1 ==> m1[c] == m2[c]) && (c in s1 ==> s1[c] == s2[c])
    ensures Score(num, m1, s1, threshold, x) == Score(num, m2, s2, threshold, x)
  {
    SameFirstMissing(x.columns, m1, s1, m2, s2);
    var k := FirstMissing(x.columns, m1, s1);
    if k == |x.columns| && k > 0 {
      var pdf1 := seq(|x.rows|, i requires 0 <= i < |x.rows| => RowDensities(num, m1, s1, x.columns, x.rows[i]));
      var pdf2 := seq(|x.rows|, i requires 0 <= i < |x.rows| => RowDensities(num, m2, s2, x.columns, x.rows[i]));
      forall i | 0 <= i < |x.rows|
        ensures pdf1[i] == pdf2[i]
      {
      }
      assert pdf1 == pdf2;
    }
  }

  lemma {:induction false} SameFirstMissing(columns: seq<string>, m1: map<string, real>, s1: map<string, real>,
                                            m2: map<string, real>, s2: map<string, real>)
    requires forall j :: 0 <= j < |columns| ==>
               (columns[j] in m1 <==> columns[j] in m2) && (columns[j] in s1 <==> columns[j] in s2)
    ensures FirstMissing(columns, m1, s1) == FirstMissing(columns, m2, s2)
  {
    if columns != [] {
      SameFirstMissing(columns[1..], m1, s1, m2, s2);
    }
  }

  /**
   * The joint densities, and whether scoring succeeds at all, do not depend
   * on the threshold.
   */
  lemma ProductsIgnoreThreshold(num: Numerics, means: map<string, real>, stds: map<string, real>,
                                t1: real, t2: real, x: Table)
    requires x.WellFormed()
    ensures Score(num, means, stds, t1, x).Ok? == Score(num, means, stds, t2, x).Ok?
    ensures Score(num, means, stds, t1, x).Ok? ==>
              Score(num, means, stds, t1, x).value.products == Score(num, means, stds, t2, x).value.products
  {
  }

  /** The cells of one record: each column name paired with the record's value in that column. */
  function Cells(columns: seq<string>, row: seq<real>): (c: seq<(string, real)>)
    requires |row| == |columns|
    ensures |c| == |columns|
  {
    seq(|columns|, j requires 0 <= j < |columns| => (columns[j], row[j]))
  }

  /** The density of every cell, with the fitted statistics of its column. */
  function CellDensities(num: Numerics, means: map<string, real>, stds: map<string, real>,
                         cells: seq<(string, real)>): (d: seq<real>)
    requires forall j :: 0 <= j < |cells| ==> HasStats(means, stds, cells[j].0)
    ensures |d| == |cells|
  {
    seq(|cells|, j requires 0 <= j < |cells| && HasStats(means, stds, cells[j].0) =>
      num.density(means[cells[j].0], stds[cells[j].0], cells[j].1))
  }

  /** The same cells in any order have the same densities, in that order. */
  lemma {:induction false} CellDensitiesReorder(num: Numerics, means: map<string, real>, stds: map<string, real>,
                                                c1: seq<(string, real)>, c2: seq<(string, real)>)
    requires multiset(c1) == multiset(c2)
    requires forall j :: 0 <= j < |c1| ==> HasStats(means, stds, c1[j].0)
    requires forall j :: 0 <= j < |c2| ==> HasStats(means, stds, c2[j].0)
    ensures multiset(CellDensities(num, means, stds, c1)) == multiset(CellDensities(num, means, stds, c2))
  {
    if c1 == [] {
      assert |c2| == |multiset(c2)| == 0;
    } else {
      var j, rest := RemoveOne(c1, c2);
      CellDensitiesReorder(num, means, stds, c1[1..], rest);
      var d1, d2 := CellDensities(num, means, stds, c1), CellDensities(num, means, stds, c2);
      var pre, post := CellDensities(num, means, stds, c2[..j]), CellDensities(num, means, stds, c2[j + 1..]);
      assert d1 == [d1[0]] + CellDensities(num, means, stds, c1[1..]);
      assert CellDensities(num, means, stds, rest) == pre + post;
      assert d2 == pre + [d1[0]] + post;
    }
  }

  /**
   * The order of the columns does not matter: a table `y` listing the same
   * columns as `x` in another order, each record holding the same value
   * under each column name, scores exactly like `x` — it fails the same way
   * or not at all, and yields the same joint densities and flags.
   */
  lemma ScoreIgnoresColumnOrder(num: Numerics, means: map<string, real>, stds: map<string, real>,
                                threshold: real, x: Table, y: Table)
    requires x.WellFormed() && y.WellFormed() && |x.rows| == |y.rows|
    requires multiset(x.columns) == multiset(y.columns)
    requires forall i :: 0 <= i < |x.rows| ==>
               multiset(Cells(x.columns, x.rows[i])) == multiset(Cells(y.columns, y.rows[i]))
    ensures Score(num, means, stds, threshold, x).Ok? == Score(num, means, stds, threshold, y).Ok?
    ensures Score(num, means, stds, threshold, x).Fail? ==>
              Score(num, means, stds, threshold, x).error.AxisError? == Score(num, means, stds, threshold, y).error.AxisError?
    ensures Score(num, means, stds, threshold, x).Ok? ==>
              && Score(num, means, stds, threshold, x).value.products == Score(num, means, stds, threshold, y).value.products
              && Score(num, means, stds, threshold, x).value.flags == Score(num, means, stds, threshold, y).value.flags
  {
    assert |x.columns| == |multiset(x.columns)| == |y.columns|;
    var allX := forall j :: 0 <= j < |x.columns| ==> HasStats(means, stds, x.columns[j]);
    var allY := forall j :: 0 <= j < |y.columns| ==> HasStats(means, stds, y.columns[j]);
    if allX {
      forall j | 0 <= j < |y.columns|
        ensures HasStats(means, stds, y.columns[j])
      {
        assert y.columns[j] in multiset(x.columns);
      }
    }
    if allY {
      forall j | 0 <= j < |x.columns|
        ensures HasStats(means, stds, x.columns[j])
      {
        assert x.columns[j] in multiset(y.columns);
      }
    }
    if allX && |x.columns| > 0 {
      var px := RowProducts(DensityMatrix(num, means, stds, x));
      var py := RowProducts(DensityMatrix(num, means, stds, y));
      forall i | 0 <= i < |x.rows|
        ensures px[i] == py[i]
      {
        var cx, cy := Cells(x.columns, x.rows[i]), Cells(y.columns, y.rows[i]);
        assert RowDensities(num, means, stds, x.columns, x.rows[i]) == CellDensities(num, means, stds, cx);
        assert RowDensities(num, means, stds, y.columns, y.rows[i]) == CellDensities(num, means, stds, cy);
        CellDensitiesReorder(num, means, stds, cx, cy);
        ProductReorder(CellDensities(num, means, stds, cx), CellDensities(num, means, stds, cy));
      }
      assert px == py;
    }
  }

  /** The number of flagged records is the number of joint densities strictly below the threshold. */
  lemma FlaggedCount(num: Numerics, means: map<string, real>, stds: map<string, real>,
                     threshold: real, x: Table)
    requires x.WellFormed() && Score(num, means, stds, threshold, x).Ok?
    ensures var s := Score(num, means, stds, threshold, x).value;
            CountFlagged(s.flags) == CountBelow(s.products, threshold)
  {
    var s := Score(num, means, stds, threshold, x).value;
    CountFlaggedIsCountBelow(s.flags, s.products, threshold);
  }

  lemma {:induction false} CountFlaggedIsCountBelow(flags: seq<int>, products: seq<real>, threshold: real)
    requires |flags| == |products|
    requires forall i :: 0 <= i < |flags| ==> (flags[i] == 1 <==> products[i] < threshold)
    ensures CountFlagged(flags) == CountBelow(products, threshold)
  {
    if flags != [] {
      CountFlaggedIsCountBelow(flags[1..], products[1..], threshold);
    }
  }
}
