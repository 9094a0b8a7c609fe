/**
 * The Gaussian anomaly detector: an estimator whose `Fit` stores a mean and
 * a standard deviation per column and calibrates a threshold, and whose
 * `Predict` flags the records whose joint density lies strictly below that
 * threshold, naming for each flagged record its least likely column.
 */
module Detector {
  import opened Tables
  import opened OrderStatistics
  import opened Scoring

  /** The threshold a detector holds before its first fit. */
  const InitialCutoffThreshold: real := 0.00001

  /** How a call that returns nothing useful ends: normally, or with an exception. */
  datatype Outcome = Pass | Raised(error: DetectorError)

  class GaussianAnomalyDetector {
    const num: Numerics
    const contamination: real
    const logTransform: bool

    var meanDict: map<string, real>
    var stdDict: map<string, real>
    var cutoffThreshold: real
    var productPd: seq<real>
    var reason: seq<string>

    /** Means and stds are stored for the same columns. */
    ghost predicate Valid()
      reads this
    {
      && num.Valid()
      && meanDict.Keys == stdDict.Keys
    }

    /** Every stored std is strictly positive. */
    ghost predicate PositiveStds()
      reads this
    {
      forall c :: c in stdDict ==> stdDict[c] > 0.0
    }

    /** The table statistics are computed on: the input, log transformed when configured. */
    function Prepared(x: Table): (t: Table)
      requires x.WellFormed()
      ensures t.WellFormed() && t.columns == x.columns && |t.rows| == |x.rows|
      ensures logTransform ==> t == LogTransform(num, x)
      ensures !logTransform ==> t == x
    {
      if logTransform then LogTransform(num, x) else x
    }

    constructor(num: Numerics, contamination: real := 0.01, logTransform: bool := false)
      requires num.Valid()
      ensures Valid() && PositiveStds()
      ensures this.num == num && this.contamination == contamination && this.logTransform == logTransform
      ensures meanDict == map[] && stdDict == map[]
      ensures cutoffThreshold == InitialCutoffThreshold && productPd == [] && reason == []
    {
      this.num := num;
      this.contamination := contamination;
      this.logTransform := logTransform;
      meanDict := map[];
      stdDict := map[];
      cutoffThreshold := InitialCutoffThreshold;
      productPd := [];
      reason := [];
    }

    /**
     * Stores the mean and the floored std of every column of the (prepared)
     * table, overwriting those columns and keeping every other entry, then
     * calibrates the threshold on the same table.
     */
    method Fit(x: Table) returns (out: Outcome)
      requires Valid() && x.WellFormed() && x.DistinctColumns()
      modifies this
      ensures Valid()
      ensures meanDict == Fitted(num, Prepared(x), |x.columns|, old(meanDict), false)
      ensures stdDict == Fitted(num, Prepared(x), |x.columns|, old(stdDict), true)
      ensures old(PositiveStds()) && |x.rows| >= 1 ==> PositiveStds()
      ensures CalibrationOutcome(Prepared(x), out,
                                 old(cutoffThreshold), old(productPd), old(reason))
      ensures |x.rows| == 0 ==> out != Pass
      ensures |x.rows| >= 1 && |x.columns| >= 1 && 0.0 <= contamination < 1.0 ==> out == Pass
      ensures out == Pass && 0.0 <= contamination ==>
                var k := CutoffIndex(|x.rows|, contamination);
                var s := Score(num, meanDict, stdDict, cutoffThreshold, Prepared(x));
                && cutoffThreshold in productPd
                && CountBelow(productPd, cutoffThreshold) <= k
                && CountAtMost(productPd, cutoffThreshold) >= k + 1
                && s.Ok? && CountFlagged(s.value.flags) <= k
    {
      var t := Prepared(x);
      StoreStatistics(t);
      FittedCoversColumns(num, t, old(meanDict), old(stdDict));
      if old(PositiveStds()) && |x.rows| >= 1 {
        FittedStdsPositive(num, t, old(stdDict));
      }
      out := ComputeCutoffThreshold(t);
    }

    /** The loop of `fit`: one mean and one floored std per column of `t`, written in place. */
    method StoreStatistics(t: Table)
      requires Valid() && t.WellFormed() && t.DistinctColumns()
      modifies this`meanDict, this`stdDict
      ensures meanDict == Fitted(num, t, |t.columns|, old(meanDict), false)
      ensures stdDict == Fitted(num, t, |t.columns|, old(stdDict), true)
      ensures Valid()
    {
      var j := 0;
      while j < |t.columns|
        invariant 0 <= j <= |t.columns|
        invariant meanDict == Fitted(num, t, j, old(meanDict), false)
        invariant stdDict == Fitted(num, t, j, old(stdDict), true)
      {
        var col := t.columns[j];
        meanDict := meanDict[col := num.mean(t.Column(j))];
        stdDict := stdDict[col := num.std(t.Column(j)) + Epsilon];
        j := j + 1;
      }
      FittedSameKeys(num, t, |t.columns|, old(meanDict), old(stdDict));
    }

    /**
     * What calibrating on table `t` leaves behind, given the threshold and
     * scoring artifacts held before: the scoring of `t` runs with the old
     * threshold and replaces `productPd` and `reason` (a table without
     * columns raises `AxisError` first and changes nothing); then the
     * threshold becomes the sorted densities at rank
     * `int(N * contamination)`, or `IndexError` leaves it unchanged.
     */
    ghost predicate CalibrationOutcome(t: Table, out: Outcome,
                                       oldThreshold: real, oldProducts: seq<real>, oldReason: seq<string>)
      reads this
      requires t.WellFormed()
    {
      var s := Score(num, meanDict, stdDict, oldThreshold, t);
      if s.Fail? then
        && out == Raised(s.error)
        && cutoffThreshold == oldThreshold && productPd == oldProducts && reason == oldReason
      else
        && productPd == s.value.products && reason == s.value.reasons
        && match SelectThreshold(productPd, contamination)
           case Some(threshold) => out == Pass && cutoffThreshold == threshold
           case None =>
             && out == Raised(IndexError(CutoffIndex(|t.rows|, contamination)))
             && cutoffThreshold == oldThreshold
    }

    /** `_compute_cutoff_threshold`: scores `t`, sorts the densities and picks the threshold by rank. */
    method ComputeCutoffThreshold(t: Table) returns (out: Outcome)
      requires Valid() && t.WellFormed()
      modifies this`cutoffThreshold, this`productPd, this`reason
      ensures Valid()
      ensures CalibrationOutcome(t, out, old(cutoffThreshold), old(productPd), old(reason))
      ensures |t.rows| == 0 ==> out != Pass
      ensures && |t.rows| >= 1 && |t.columns| >= 1 && 0.0 <= contamination < 1.0
              && (forall j :: 0 <= j < |t.columns| ==> HasStats(meanDict, stdDict, t.columns[j]))
              ==> out == Pass
      ensures out == Pass && 0.0 <= contamination ==>
                var k := CutoffIndex(|t.rows|, contamination);
                var s := Score(num, meanDict, stdDict, cutoffThreshold, t);
                && cutoffThreshold in productPd
                && CountBelow(productPd, cutoffThreshold) <= k
                && CountAtMost(productPd, cutoffThreshold) >= k + 1
                && s.Ok? && CountFlagged(s.value.flags) <= k
    {
      var cutoffIndex := CutoffIndex(|t.rows|, contamination);
      var scored := ComputeScore(t);
      if scored.Fail? {
        return Raised(scored.error);
      }
      var sortedPd := Sort(productPd);
      var selected := PyIndex(sortedPd, cutoffIndex);
      assert selected == SelectThreshold(productPd, contamination);
      if selected.None? {
        return Raised(IndexError(cutoffIndex));
      }
      cutoffThreshold := selected.value;
      out := Pass;
      if 0.0 <= contamination {
        TrainingCalibration(num, meanDict, stdDict, old(cutoffThreshold), t, contamination);
      }
    }

    /**
     * Scores the input (log transformed when configured) against the stored
     * statistics and threshold. Only the scoring artifacts change.
     */
    method Predict(x: Table) returns (res: Result<seq<int>>)
      requires Valid() && x.WellFormed()
      modifies this`productPd, this`reason
      ensures Valid()
      ensures ScoredAs(Score(num, meanDict, stdDict, cutoffThreshold, Prepared(x)), res,
                       old(productPd), old(reason))
      ensures res.Ok? ==> |res.value| == |x.rows| && |productPd| == |x.rows| && |reason| == |x.rows|
      ensures res.Ok? ==> forall i :: 0 <= i < |x.rows| ==>
                (res.value[i] == 1 <==> productPd[i] < cutoffThreshold) &&
                (res.value[i] == 0 <==> !(productPd[i] < cutoffThreshold))
      ensures res.Fail? ==>
                (|x.columns| == 0 && res.error == AxisError) ||
                (res.error.KeyError? && res.error.column in x.columns &&
                 !HasStats(meanDict, stdDict, res.error.column))
    {
      var t := Prepared(x);
      res := ComputeScore(t);
    }

    /**
     * `res` and the scoring artifacts are those of scoring result `s`; an
     * exception leaves the previous artifacts in place.
     */
    ghost predicate ScoredAs(s: Result<ScoreOutput>, res: Result<seq<int>>,
                             oldProducts: seq<real>, oldReason: seq<string>)
      reads this
    {
      match s
      case Ok(scoring) =>
        res == Ok(scoring.flags) && productPd == scoring.products && reason == scoring.reasons
      case Fail(e) =>
        res == Fail(e) && productPd == oldProducts && reason == oldReason
    }

    /**
     * `_compute_score`: walks the input's columns in order, looking each one
     * up in the fitted statistics, builds the density matrix, and derives the
     * joint densities, reasons and flags.
     */
    method ComputeScore(x: Table) returns (res: Result<seq<int>>)
      requires Valid() && x.WellFormed()
      modifies this`productPd, this`reason
      ensures Valid()
      ensures ScoredAs(Score(num, meanDict, stdDict, cutoffThreshold, x), res, old(productPd), old(reason))
    {
      var columnNames := x.columns;
      var n := |x.rows|;
      var mat: seq<seq<real>> := [];
      var i := 0;
      while i < |columnNames|
        invariant 0 <= i <= |columnNames|
        invariant |mat| == i
        invariant forall j :: 0 <= j < i ==> HasStats(meanDict, stdDict, columnNames[j])
        invariant forall j :: 0 <= j < i ==> |mat[j]| == n
        invariant forall j, r :: 0 <= j < i && 0 <= r < n ==>
                    mat[j][r] == num.density(meanDict[columnNames[j]], stdDict[columnNames[j]], x.rows[r][j])
      {
        var name := columnNames[i];
        if name !in meanDict || name !in stdDict {
          ScoreMissingColumn(num, meanDict, stdDict, cutoffThreshold, x, i);
          return Fail(KeyError(name));
        }
        var mu := meanDict[name];
        var sigma := stdDict[name];
        var columnValues := x.Column(i);
        var fi := seq(n, r requires 0 <= r < n => num.density(mu, sigma, columnValues[r]));
        mat := mat + [fi];
        i := i + 1;
      }
      if |mat| == 0 {
        return Fail(AxisError);
      }
      var pdfMat := seq(n, r requires 0 <= r < n => seq(|mat|, j requires 0 <= j < |mat| => mat[j][r]));
      var means, stds := meanDict, stdDict;
      assert pdfMat == DensityMatrix(num, means, stds, x) by {
        forall r | 0 <= r < n
          ensures pdfMat[r] == RowDensities(num, means, stds, x.columns, x.rows[r])
        {
        }
      }
      ScoreAllColumns(num, means, stds, cutoffThreshold, x);
      var reasonsForMinProb := RowArgMins(pdfMat);
      productPd := RowProducts(pdfMat);
      var scores := Below(productPd, cutoffThreshold);
      reason := MaskReasons(columnNames, reasonsForMinProb, scores);
      res := Ok(AsInt(scores));
    }
  }

  /** The statistic `fit` stores for column `j`: its mean, or its std floored by `Epsilon`. */
  function ColumnStat(num: Numerics, t: Table, j: nat, std: bool): real
    requires t.WellFormed() && j < |t.columns|
  {
    if std then num.std(t.Column(j)) + Epsilon else num.mean(t.Column(j))
  }

  /** `stats` after the loop of `fit` has stored the statistic of the first `j` columns of `t`. */
  function Fitted(num: Numerics, t: Table, j: nat, stats: map<string, real>, std: bool): map<string, real>
    requires t.WellFormed() && j <= |t.columns|
  {
    if j == 0 then stats
    else Fitted(num, t, j - 1, stats, std)[t.columns[j - 1] := ColumnStat(num, t, j - 1, std)]
  }

  /** Storing means and stds for the same columns keeps the two key sets equal. */
  lemma {:induction false} FittedSameKeys(num: Numerics, t: Table, j: nat, means: map<string, real>, stds: map<string, real>)
    requires t.WellFormed() && j <= |t.columns| && means.Keys == stds.Keys
    ensures Fitted(num, t, j, means, false).Keys == Fitted(num, t, j, stds, true).Keys
  {
    if j > 0 {
      FittedSameKeys(num, t, j - 1, means, stds);
    }
  }

  /**
   * After the first `j` columns (with distinct names) are stored, the keys
   * are the old keys and those columns, every other entry is unchanged, and
   * each of those columns holds its own statistic.
   */
  lemma {:induction false} FittedEntries(num: Numerics, t: Table, j: nat, stats: map<string, real>, std: bool)
    requires t.WellFormed() && t.DistinctColumns() && j <= |t.columns|
    ensures forall c :: c in Fitted(num, t, j, stats, std) <==> c in stats || c in t.columns[..j]
    ensures forall c :: c in stats && c !in t.columns[..j] ==> Fitted(num, t, j, stats, std)[c] == stats[c]
    ensures forall l :: 0 <= l < j ==> Fitted(num, t, j, stats, std)[t.columns[l]] == ColumnStat(num, t, l, std)
  {
    if j > 0 {
      FittedEntries(num, t, j - 1, stats, std);
      assert t.columns[..j] == t.columns[..j - 1] + [t.columns[j - 1]];
    }
  }

  /**
   * What the loop of `fit` leaves in the dictionaries, for a table with
   * distinct column names: the keys are the old keys and the table's
   * columns, every other entry keeps its value, every column holds its mean
   * and its std floored by `Epsilon`, and with at least one row every
   * stored std is positive (given the old ones were).
   */
  lemma FittedStatistics(num: Numerics, t: Table, means: map<string, real>, stds: map<string, real>)
    requires num.Valid() && t.WellFormed() && t.DistinctColumns()
    ensures var m, s := Fitted(num, t, |t.columns|, means, false), Fitted(num, t, |t.columns|, stds, true);
            && (forall c :: c in m <==> c in means || c in t.columns)
            && (forall c :: c in s <==> c in stds || c in t.columns)
            && (forall c :: c in means && c !in t.columns ==> m[c] == means[c])
            && (forall c :: c in stds && c !in t.columns ==> s[c] == stds[c])
            && (forall j :: 0 <= j < |t.columns| ==>
                  && m[t.columns[j]] == num.mean(t.Column(j))
                  && s[t.columns[j]] == num.std(t.Column(j)) + Epsilon
                  && (|t.rows| >= 1 ==> s[t.columns[j]] > 0.0))
  {
    FittedEntries(num, t, |t.columns|, means, false);
    FittedEntries(num, t, |t.columns|, stds, true);
    assert t.columns[..|t.columns|] == t.columns;
    var s := Fitted(num, t, |t.columns|, stds, true);
    forall j | 0 <= j < |t.columns| && |t.rows| >= 1
      ensures s[t.columns[j]] > 0.0
    {
      assert |t.Column(j)| >= 1;
    }
  }

  /** After the loop of `fit` every column of the table has both statistics. */
  lemma FittedCoversColumns(num: Numerics, t: Table, means: map<string, real>, stds: map<string, real>)
    requires t.WellFormed() && t.DistinctColumns()
    ensures forall j :: 0 <= j < |t.columns| ==>
              HasStats(Fitted(num, t, |t.columns|, means, false), Fitted(num, t, |t.columns|, stds, true), t.columns[j])
  {
    FittedEntries(num, t, |t.columns|, means, false);
    FittedEntries(num, t, |t.columns|, stds, true);
    assert t.columns[..|t.columns|] == t.columns;
  }

  /**
   * With at least one row, storing the floored stds of a table's columns
   * over positive stds leaves every stored std positive.
   */
  lemma FittedStdsPositive(num: Numerics, t: Table, stds: map<string, real>)
    requires num.Valid() && t.WellFormed() && t.DistinctColumns() && |t.rows| >= 1
    requires forall c :: c in stds ==> stds[c] > 0.0
    ensures var s := Fitted(num, t, |t.columns|, stds, true);
            forall c :: c in s ==> s[c] > 0.0
  {
    FittedEntries(num, t, |t.columns|, stds, true);
    assert t.columns[..|t.columns|] == t.columns;
    var s := Fitted(num, t, |t.columns|, stds, true);
    forall c | c in s
      ensures s[c] > 0.0
    {
      if c in t.columns {
        var j :| 0 <= j < |t.columns| && t.columns[j] == c;
        assert |t.Column(j)| >= 1;
      }
    }
  }

  /**
   * On the training table itself, once the threshold has been selected with
   * a non-negative contamination and `k = int(N * contamination)`: the
   * threshold is one of the training densities, at most `k` densities lie
   * strictly below it, at least `k + 1` lie at or below it, and scoring the
   * training table again flags at most `k` records.
   */
  lemma TrainingCalibration(num: Numerics, means: map<string, real>, stds: map<string, real>,
                            oldThreshold: real, t: Table, contamination: real)
    requires t.WellFormed() && Score(num, means, stds, oldThreshold, t).Ok?
    requires SelectThreshold(Score(num, means, stds, oldThreshold, t).value.products, contamination).Some?
    requires 0.0 <= contamination
    ensures var products := Score(num, means, stds, oldThreshold, t).value.products;
            var threshold := SelectThreshold(products, contamination).value;
            var k := CutoffIndex(|t.rows|, contamination);
            var s := Score(num, means, stds, threshold, t);
            && threshold in products
            && CountBelow(products, threshold) <= k
            && CountAtMost(products, threshold) >= k + 1
            && s.Ok? && CountFlagged(s.value.flags) <= k
  {
    var products := Score(num, means, stds, oldThreshold, t).value.products;
    var k := CutoffIndex(|products|, contamination);
    SelectedRank(products, contamination);
    var threshold := Sort(products)[k];
    OrderStatistic(products, k);
    ProductsIgnoreThreshold(num, means, stds, oldThreshold, threshold, t);
    FlaggedCount(num, means, stds, threshold, t);
  }

  /**
   * Predicting twice on the same input gives the same flags and leaves the
   * same reasons behind: prediction reads nothing it writes.
   */
  method PredictTwice(d: GaussianAnomalyDetector, x: Table)
    returns (first: Result<seq<int>>, second: Result<seq<int>>,
             ghost firstReason: seq<string>, ghost firstProducts: seq<real>)
    requires d.Valid() && x.WellFormed()
    modifies d
    ensures first == second
    ensures firstReason == d.reason && firstProducts == d.productPd
    ensures d.meanDict == old(d.meanDict) && d.stdDict == old(d.stdDict)
    ensures d.cutoffThreshold == old(d.cutoffThreshold)
  {
    first := d.Predict(x);
    firstReason, firstProducts := d.reason, d.productPd;
    second := d.Predict(x);
  }

  /** A detector that was never fitted rejects any table with a column, naming its first column. */
  method PredictUnfitted(num: Numerics, contamination: real, logTransform: bool, x: Table)
    returns (res: Result<seq<int>>)
    requires num.Valid() && x.WellFormed() && |x.columns| >= 1
    ensures res == Fail(KeyError(x.columns[0]))
  {
    var d := new GaussianAnomalyDetector(num, contamination, logTransform);
    res := d.Predict(x);
  }
}
