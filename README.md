# Gaussian anomaly detector — a verified Dafny model

This project models the `GaussianAnomalyDetector` estimator of the
`gaussian_anomaly_detector` package. The estimator fits, for each numeric
column of a training table, a mean and a standard deviation. It then sets a
decision threshold from the training joint densities, using a contamination
rate. When it predicts, it flags the records whose joint density (the product
of their per-column Gaussian densities) lies strictly below that threshold.
For each flagged record it names the column with the lowest density.

The model keeps the estimator's own shape:

- `tables.dfy` (module `Tables`): the table (named columns, row-major values),
  the log transform `ln(v + 1)` with `-1 ↦ 0`, and `Numerics`. `Numerics`
  holds the floating-point kernels as uninterpreted function values: the
  density `f`, `np.mean`, `np.std` and `np.log`. Its only assumption is that
  the standard deviation of a non-empty column is never negative.
- `order_statistics.dfy` (module `OrderStatistics`): `np.sort`, the rank
  `int(N * contamination)` (truncation toward zero), and Python indexing of
  the sorted densities (negative indices count from the end, and anything
  else raises `IndexError`). It also holds the lemmas on threshold
  calibration.
- `products.dfy` (module `Products`): the joint density of a record, the
  product of its per-column densities (`np.product` along a row), with the
  lemmas showing that it does not depend on the column order.
- `scoring.dfy` (module `Scoring`): the scoring algorithm as functions, and
  the lemmas about it. The algorithm looks each input column up by name,
  builds the density matrix, takes the row products, the first row argmin and
  the strict threshold comparison, and masks the reasons.
- `detector.dfy` (module `Detector`): the class `GaussianAnomalyDetector`.
  Its fields `meanDict`, `stdDict`, `cutoffThreshold`, `productPd` and
  `reason` are updated in place by `Fit`, `ComputeCutoffThreshold`,
  `ComputeScore` and `Predict`, each proved against the functions of
  `Scoring` and `OrderStatistics`.

The model follows the branches, error conditions and constants of the code,
within the limits listed under "Left out" below (exact reals instead of
floating point above all). It keeps these behaviours of the code that a
reader of the estimator's docstrings might not expect:

- Scoring walks the columns of the input table, not the fitted features. An
  input column without fitted statistics raises `KeyError`. A fitted feature
  missing from the input is silently not scored.
- A never-fitted detector is not rejected as such. It raises `KeyError` on
  the first column of any table that has a column.
- A table without columns raises numpy's `AxisError` from the row argmin,
  before any scoring artifact is written.
- An empty training table raises `IndexError` at the threshold lookup. At
  that point the statistics have already been overwritten, and `productPd`
  and `reason` have already been replaced.
- The scoring run inside `fit` uses the threshold held before the fit. So
  the `reason` list left behind by `fit` is masked with the previous
  threshold (initially `0.00001`), not with the new one.
- Fitting a table without rows stores, for each column, the std of an empty
  column (NaN in numpy) plus the floor, and then raises `IndexError`; those
  entries stay behind. The model leaves that std an arbitrary real, so it
  promises positive stds only after fitting a table with a row.
- A column literally named `not_anomalous` makes the reason ambiguous: a
  flagged record can carry that reason (`Scoring.SentinelCollision`).

## Model

| member | source | states |
|---|---|---|
| `Tables.LogTransform` | gaussian_anomaly_detector/gaussian_anomaly_detector.py:101-109 | same columns and shape; every value becomes `ln(v + 1)`, and a value of exactly `-1` becomes `0` instead of negative infinity |
| `OrderStatistics.Sort` | gaussian_anomaly_detector/gaussian_anomaly_detector.py:98 | the result is ascending and a permutation of the input (same multiset, same length) |
| `OrderStatistics.Trunc` | gaussian_anomaly_detector/gaussian_anomaly_detector.py:96 | `int()` truncates toward zero: the result is within one of the argument on the side of zero |
| `OrderStatistics.CutoffIndex` | gaussian_anomaly_detector/gaussian_anomaly_detector.py:96 | for a non-negative contamination the rank `int(N * contamination)` is the whole part of `N * contamination`; for `N >= 1` and `0 <= contamination < 1` it lies in `0 .. N-1` |
| `OrderStatistics.PyIndex` | gaussian_anomaly_detector/gaussian_anomaly_detector.py:99 | indexing succeeds exactly for `-N <= i < N`; a non-negative index selects `a[i]`, a negative one `a[N + i]` |
| `OrderStatistics.SelectThreshold` | gaussian_anomaly_detector/gaussian_anomaly_detector.py:98-99 | `np.sort(product_pd)[cutoff_index]` yields a threshold exactly when the rank is a valid Python index of the densities, and the threshold is then one of the densities |
| `OrderStatistics.SelectedRank` | gaussian_anomaly_detector/gaussian_anomaly_detector.py:96-99 | with a non-negative contamination, a selected threshold is the sorted densities at the in-range rank `int(N * contamination)` |
| `OrderStatistics.EmptyTrainingSetHasNoThreshold` | gaussian_anomaly_detector/gaussian_anomaly_detector.py:96-99 | with no training densities no threshold is selected, whatever the contamination (the lookup fails) |
| `OrderStatistics.OrderStatistic` | gaussian_anomaly_detector/gaussian_anomaly_detector.py:98-99 | the sorted element at rank `k` is one of the inputs, at most `k` inputs are strictly below it and at least `k + 1` are at or below it |
| `OrderStatistics.ThresholdCalibration` | gaussian_anomaly_detector/gaussian_anomaly_detector.py:96-99 | for `N >= 1` and `0 <= contamination < 1` a threshold is selected; it is a training density, at most `k` densities are strictly below it and at least `k + 1` at or below it |
| `OrderStatistics.ThresholdMonotone` | gaussian_anomaly_detector/gaussian_anomaly_detector.py:96-99 | raising the contamination never lowers the threshold, nor the number of training densities strictly below it |
| `OrderStatistics.SingleOutlierThreshold` | gaussian_anomaly_detector/gaussian_anomaly_detector.py:96-99 | four equal densities and one smaller one with contamination 0.2: the threshold is the common density and exactly one density lies below it |
| `Products.ProductSign` | gaussian_anomaly_detector/gaussian_anomaly_detector.py:134 | `np.product` along a row: non-negative densities give a non-negative joint density, and a zero density in any column makes the joint density zero |
| `Products.ProductMiddle` | gaussian_anomaly_detector/gaussian_anomaly_detector.py:134 | the product of a row with one density `x` between two parts is `x` times the product of the two parts (in exact arithmetic) |
| `Products.ProductRemove` | gaussian_anomaly_detector/gaussian_anomaly_detector.py:134 | the product of a row is any one of its densities times the product of the remaining ones (in exact arithmetic) |
| `Products.ProductReorder` | gaussian_anomaly_detector/gaussian_anomaly_detector.py:134 | in exact arithmetic, the product of a row does not depend on the order of its densities (column order) |
| `Scoring.FirstMissing` | gaussian_anomaly_detector/gaussian_anomaly_detector.py:121-130 | the position of the first input column without a mean or std; every earlier column has both |
| `Scoring.ArgMin` | gaussian_anomaly_detector/gaussian_anomaly_detector.py:133 | the result holds the row minimum, and every earlier position is strictly larger (ties go to the earliest column) |
| `Scoring.RowArgMinsAreFirstMinima` | gaussian_anomaly_detector/gaussian_anomaly_detector.py:133 | `np.argmin(pdf_mat, axis=1)`: each record's entry is the first column of minimum density in that record |
| `Scoring.FirstMinimumUnique` | gaussian_anomaly_detector/gaussian_anomaly_detector.py:133 | any first position of the minimum is the one `ArgMin` returns, so the reason is determined |
| `Scoring.MaskedReasons` | gaussian_anomaly_detector/gaussian_anomaly_detector.py:138 | a flagged record's reason is one of the columns and any other record's reason is `not_anomalous`; with no column of that name, the reason is `not_anomalous` exactly for unflagged records |
| `Scoring.Score` | gaussian_anomaly_detector/gaussian_anomaly_detector.py:111-140 | scoring succeeds exactly when the table has a column and every column has statistics; otherwise `AxisError` for no columns, else `KeyError` naming the first column without statistics; on success one density, reason and flag per record |
| `Scoring.ScoreMissingColumn` | gaussian_anomaly_detector/gaussian_anomaly_detector.py:121-130 | when every earlier column has statistics and column `i` lacks one, scoring fails with `KeyError` naming column `i` |
| `Scoring.ScoreRecord` | gaussian_anomaly_detector/gaussian_anomaly_detector.py:132-138 | per record: the density is the product of its per-column densities; the flag is 1 iff it is strictly below the threshold, else 0; the reason is `not_anomalous` for flag 0 and otherwise a first minimum-density column |
| `Scoring.SentinelMarksNormalRecords` | gaussian_anomaly_detector/gaussian_anomaly_detector.py:138 | when no column is named `not_anomalous`, the reason is `not_anomalous` exactly for the records flagged 0 |
| `Scoring.SentinelCollision` | gaussian_anomaly_detector/gaussian_anomaly_detector.py:138 | a column named `not_anomalous` yields a flagged record whose reason is `not_anomalous` |
| `Scoring.UnfittedRejects` | gaussian_anomaly_detector/gaussian_anomaly_detector.py:121-130 | with empty dictionaries, any table with a column fails with `KeyError` on its first column |
| `Scoring.ScoreIgnoresUnusedKeys` | gaussian_anomaly_detector/gaussian_anomaly_detector.py:119-130 | the result depends only on the statistics of the input's own columns; other fitted features are never read |
| `Scoring.ProductsIgnoreThreshold` | gaussian_anomaly_detector/gaussian_anomaly_detector.py:132-136 | whether scoring succeeds, and the joint densities, do not depend on the threshold |
| `Scoring.FlaggedCount` | gaussian_anomaly_detector/gaussian_anomaly_detector.py:136 | the number of records flagged 1 equals the number of joint densities strictly below the threshold |
| `Scoring.CellDensitiesReorder` | gaussian_anomaly_detector/gaussian_anomaly_detector.py:119-131 | the same (column, value) cells in another order give the same densities, as a multiset |
| `Scoring.ScoreIgnoresColumnOrder` | gaussian_anomaly_detector/gaussian_anomaly_detector.py:111-136 | in exact arithmetic, a table listing the same columns in another order, each record keeping its value under each column name, scores the same: same success or failure kind, same joint densities and same flags |
| `Detector.GaussianAnomalyDetector.constructor` | gaussian_anomaly_detector/gaussian_anomaly_detector.py:20-35 | empty dictionaries, threshold `0.00001`, empty artifacts, the given contamination and log-transform flag |
| `Detector.GaussianAnomalyDetector.Prepared` | gaussian_anomaly_detector/gaussian_anomaly_detector.py:85-86 | with `log_transform` set the input becomes `LogTransform` of it, otherwise it is left as is; either way its columns and record count are kept |
| `Detector.GaussianAnomalyDetector.Fit` | gaussian_anomaly_detector/gaussian_anomaly_detector.py:56-72 | the dictionaries become the old ones with every column's mean and floored std stored in column order (`Fitted`); after a table with a row, positive stds stay positive; the calibration outcome; `N = 0` never passes; `N >= 1`, a column and `0 <= c < 1` always pass; after a pass, at most `int(N*c)` training records are flagged |
| `Detector.GaussianAnomalyDetector.StoreStatistics` | gaussian_anomaly_detector/gaussian_anomaly_detector.py:68-70 | the loop leaves each dictionary equal to `Fitted` of the old one: every column's mean, or std plus `1e-100`, written in column order; the two key sets stay equal |
| `Detector.FittedStatistics` | gaussian_anomaly_detector/gaussian_anomaly_detector.py:68-70 | after the loop the keys are the old keys and the table's columns, other entries keep their values, each column holds its mean and its std plus `1e-100`, and with a row that std is positive |
| `Detector.FittedStdsPositive` | gaussian_anomaly_detector/gaussian_anomaly_detector.py:68-70 | after fitting a table with a row over positive stds, every stored std is positive |
| `Detector.FittedCoversColumns` | gaussian_anomaly_detector/gaussian_anomaly_detector.py:68-70 | after the loop every column of the table has both a mean and a std |
| `Detector.GaussianAnomalyDetector.ComputeCutoffThreshold` | gaussian_anomaly_detector/gaussian_anomaly_detector.py:91-99 | scores with the old threshold and stores those artifacts, then sets the threshold to the sorted densities at rank `int(N * c)`, or raises `IndexError` leaving it unchanged; no rows never passes; rows, columns with statistics and `0 <= c < 1` always pass; after a pass the threshold is a training density with at most `k` below it and at most `k` records flagged on rescoring |
| `Detector.GaussianAnomalyDetector.Predict` | gaussian_anomaly_detector/gaussian_anomaly_detector.py:74-89 | changes only `productPd` and `reason`; returns the scoring of the (transformed) input: one flag per record, 1 iff its density is strictly below the threshold; errors are `AxisError` for no columns or `KeyError` naming an unfitted input column |
| `Detector.GaussianAnomalyDetector.ComputeScore` | gaussian_anomaly_detector/gaussian_anomaly_detector.py:111-140 | the column walk with lookups equals `Scoring.Score` on the stored state; on an exception nothing is written |
| `Detector.TrainingCalibration` | gaussian_anomaly_detector/gaussian_anomaly_detector.py:96-99 | after calibration on a table, the threshold is a training density with at most `k` strictly below and at least `k + 1` at or below it, and re-scoring that table flags at most `k` records |
| `Detector.PredictTwice` | gaussian_anomaly_detector/gaussian_anomaly_detector.py:85-89 | two predictions on the same input give the same result and leave the same `reason` and `productPd` behind, with statistics and threshold unchanged |
| `Detector.PredictUnfitted` | gaussian_anomaly_detector/gaussian_anomaly_detector.py:28-29 | a freshly constructed detector fails prediction on any table with a column, with `KeyError` on its first column |

## Left out

- Products.ProductReorder and Scoring.ScoreIgnoresColumnOrder hold in exact arithmetic only: with IEEE doubles the order of the factors can change the product (one order underflows to zero, another does not).
- The floating-point content of the density `f`, `np.mean`, `np.std` and `np.log` is left out. These are parameters of the model (`Tables.Numerics`), assumed only to give non-negative standard deviations. IEEE rounding, underflow of the product, NaN and infinities are not modelled; `ln` of a value below `-1` is whatever the parameter returns.
- `int(len(X) * contamination)` is computed on exact reals, not on a floating-point product.
- Detector.GaussianAnomalyDetector.Fit: on a table without rows, `np.std` of an empty column is NaN; a real cannot be NaN, so the model leaves that std unconstrained and promises positive stds only after fitting a table with at least one row.
- Detector.GaussianAnomalyDetector.Fit: requires distinct column names. With a duplicated name, pandas returns a sub-frame from `X[col]`, which is not modelled.
- Detector.GaussianAnomalyDetector.StoreStatistics: requires distinct column names, for the same reason.
- `fit` returning `self` for chaining is not modelled; `Fit` returns an `Outcome` (normal end or the exception raised). The ignored `y` argument is dropped.
- The getters `get_mean`, `get_std` and `get_reason` only read fields; the model's fields are read directly.
- The `print` before the `KeyError` is re-raised is left out, as is the scikit-learn base-class machinery (`BaseEstimator`, `TransformerMixin`).
- Persistence and model keying (`train.py`, `predict.py`) are filesystem I/O and are not part of this model. This includes the md5 key, which hashes the text `None` returned by `list.sort()` and so does not depend on the feature list. The framework adapter `main.py` and packaging `setup.py` are not part of this model either.
- Concurrent use of one detector is not modelled.
