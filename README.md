# Transition-matrix estimator, modelled in Dafny

This project models `TransitionMatrixLearner` from
`Risco_de_Credito/transition_matrix_estimator.py`. It is the credit-risk
estimator that turns a panel of monthly delinquency observations into
empirical transition matrices between delinquency buckets. The matrices are
kept for three modalities: the whole portfolio, each homogeneous group, and
each stage.

The model follows the program step by step:

- **Configuration** (`__init__`). The estimator refuses to re-bin and drop at
  the same time, sorts the bucket thresholds, and starts unfitted.
- **Bucket location** (`np.searchsorted(buckets, v, side="right") - 1`).
  This is `Buckets.Locate`, which counts the thresholds at most `v`.
- **Pairing** (the self-join in `fit`). Periods are integer month indices.
  A panel row at period p is joined with the same entity's row from period
  p - 1, on (entity, period). A joined row carries no entity, so two
  entities making the same move give two equal rows. `Pairing.JoinCount`
  states how many times each row occurs.
- **Counting** (`_count_matrix`). Zeros, then one increment per pair, on an
  `array2<int>`. It is proved against the value-level `Counting.Counts`.
- **Cleaning** (`_clean_matrix`):
  - Re-binning mutates the caller's matrix in place. It is a loop over the
    rows, proved against the recursive `Rebin.RebinFrom`; each merge is the
    four numpy statements, in order.
  - Dropping takes the principal submatrix on the buckets that reach
    `min_count`.
  - Otherwise the matrix is left alone.
  - After any of these, add-alpha smoothing is applied row by row into a
    fresh `final` array.
  - `cleaned_buckets` is overwritten on every call.
- **Fitting** (`fit`). It fits the global matrix, then the per-group
  matrices, then the per-stage matrices. Each loop is proved against a ghost
  function that folds its iterations over a `Store`: a dictionary of
  matrices plus `cleaned_buckets`.
- **Lookup** (`get_matrix`). It returns a `Result`. Each exception the
  program raises is a `Failure` case.

Counts are mathematical integers and probabilities are exact reals. Because
the reals are exact, "every row with mass sums to one" holds exactly.

Where the docstrings and the code disagree, the model follows the code:

- **Orientation.** The docstring of `fit` (line 71) speaks of t -> t+1
  transitions. But `shifted` moves every row one month forward before the
  merge, so the `_t` columns hold the observation at month p and the `_t1`
  columns hold the one at p - 1. `_count_matrix(bucket_t, bucket_t1)`
  therefore indexes rows by the LATER bucket and columns by the EARLIER one.
  `Pairing.JoinOrientation` states this on a two-row panel. The group label
  and the stage key also come from the later observation.
- **Both selectors.** When `get_matrix` is given both `gh` and `stage`, the
  group wins and the stage is ignored (`GroupWinsOverStage`).
- **Refitting.** `fit` never clears the two dictionaries, so keys from an
  earlier fit survive a refit (`FitContents`).
- **`cleaned_buckets`.** After `fit` it describes only the last matrix
  cleaned: the highest stage, not the global matrix (`FitLabels`).

## Model

| member | source | states |
|---|---|---|
| Sequences.SortAscending | Risco_de_Credito/transition_matrix_estimator.py:48 | `sorted(buckets)`: the result is in ascending order and is a permutation of the input |
| Buckets.Locate | Risco_de_Credito/transition_matrix_estimator.py:112-113 | the search result lies in -1..n-1, and is a real bucket index whenever the value reaches the first threshold |
| Buckets.LocateBrackets | Risco_de_Credito/transition_matrix_estimator.py:112-113 | for a value at or above the first threshold, the located bucket's threshold is at most the value and the next threshold (if any) exceeds it; with repeated thresholds the last repeat wins |
| Buckets.LocateUnique | Risco_de_Credito/transition_matrix_estimator.py:112-113 | any index whose interval contains the value is the located index, so the location is the unique bracketing interval |
| Buckets.LocateBelowFirst | Risco_de_Credito/transition_matrix_estimator.py:112-113 | a value below the first threshold yields -1 |
| Pairing.Join | Risco_de_Credito/transition_matrix_estimator.py:79-84 | `panel.merge(shifted, on=[id, time], how="inner")` with months as integers; an inner merge yields at most one row per ordered pair of panel rows |
| Pairing.JoinMembership | Risco_de_Credito/transition_matrix_estimator.py:76-84 | which row values the join contains: a value occurs exactly when some pair of one entity's observations in consecutive months yields it, the later one on the `_t` side; a gap yields none |
| Pairing.JoinCount | Risco_de_Credito/transition_matrix_estimator.py:76-84 | how often each row occurs: its multiplicity in the join is the number of ordered pairs of panel positions (same entity, consecutive months) that yield it, so two entities making the same move give two equal rows |
| Pairing.Filter | Risco_de_Credito/transition_matrix_estimator.py:94-101 | selecting one `groupby` group keeps exactly the rows passing the test, each with its multiplicity, and drops the rest |
| Pairing.JoinOrientation | Risco_de_Credito/transition_matrix_estimator.py:77-84 | for a panel of just two observations of one entity, at months p and p+1, the join is one row whose `_t` bucket and group are those of month p+1 and whose `_t1` bucket is that of month p (for any panel, the orientation follows from `Joined(a, b)` in `JoinMembership`) |
| Pairing.GroupKeys | Risco_de_Credito/transition_matrix_estimator.py:94 | the keys of `groupby(group_t)`: exactly the group labels present in the joined rows, each once |
| Pairing.StageKeys | Risco_de_Credito/transition_matrix_estimator.py:101 | the keys of `groupby(bucket_t)`: exactly the raw `_t` bucket values present, strictly ascending |
| Learner.GroupRows | Risco_de_Credito/transition_matrix_estimator.py:94 | one group of `groupby(group_t)`: exactly the joined rows carrying that label, each as often as in the join |
| Learner.StageRows | Risco_de_Credito/transition_matrix_estimator.py:101 | one group of `groupby(bucket_t)`: exactly the joined rows whose `_t` bucket is that key, each as often as in the join |
| Learner.PanelInScale | Risco_de_Credito/transition_matrix_estimator.py:79-88 | if every delinquency value of the panel reaches the first threshold, so does every value in both columns of the join |
| Learner.ModalitiesInScale | Risco_de_Credito/transition_matrix_estimator.py:93-105 | the rows of every group and every stage can be located whenever all joined rows can |
| Learner.GroupsNeedStages | Risco_de_Credito/transition_matrix_estimator.py:93-105 | when the per-group loop has any key, the per-stage loop has one too |
| Matrices.BumpTotal | Risco_de_Credito/transition_matrix_estimator.py:114 | one increment adds exactly one to the total mass |
| Counting.Counts | Risco_de_Credito/transition_matrix_estimator.py:109-115 | `_count_matrix` as a value (zeros, then one increment per pair at the located cell) is n-by-n for n thresholds; its cells are stated by `CountsCell` |
| Counting.CountsCell | Risco_de_Credito/transition_matrix_estimator.py:109-115 | cell (r, c) of the counts is exactly the number of pairs whose source locates to r and whose destination locates to c |
| Counting.CountsNonNegative | Risco_de_Credito/transition_matrix_estimator.py:109-115 | no count is negative |
| Counting.CountsTotal | Risco_de_Credito/transition_matrix_estimator.py:109-115 | the total mass equals the number of pairs counted |
| Counting.CountMatrix | Risco_de_Credito/transition_matrix_estimator.py:109-115 | the loop returns a fresh n-by-n array holding exactly those counts |
| Rebin.Dist | Risco_de_Credito/transition_matrix_estimator.py:127 | `abs(buckets[x] - buckets[i])`: the absolute difference of two thresholds |
| Rebin.InWindow | Risco_de_Credito/transition_matrix_estimator.py:127 | the candidate list comprehension; every candidate is a bucket index |
| Rebin.InWindowMembers | Risco_de_Credito/transition_matrix_estimator.py:127 | the candidates are exactly the non-empty rows within `rebin_window` of bucket i, in ascending order |
| Rebin.NearestPos | Risco_de_Credito/transition_matrix_estimator.py:130 | `min(candidates, key=...)` as a position in the candidate list, which is always a valid position |
| Rebin.NearestPosMinimal | Risco_de_Credito/transition_matrix_estimator.py:130 | `min(..., key=distance)` picks a candidate at minimal distance, and every earlier candidate is strictly farther |
| Rebin.Donor | Risco_de_Credito/transition_matrix_estimator.py:122-130 | the donor j of a sparse row i: the nearest candidate in the window, or the nearest non-empty row when the window is empty; it is always a bucket index |
| Rebin.DonorIsNonEmpty | Risco_de_Credito/transition_matrix_estimator.py:122-130 | the donor is always one of the rows that reached `min_count` at the start |
| Rebin.DonorNearest | Risco_de_Credito/transition_matrix_estimator.py:127-130 | if some non-empty row lies within the window, the donor is within it and no row in the window is nearer; among equally near rows the donor has the lowest index |
| Rebin.DonorFallback | Risco_de_Credito/transition_matrix_estimator.py:128-130 | if no non-empty row lies within the window, the donor is the nearest of all non-empty rows, the lowest index among ties |
| Rebin.Merge | Risco_de_Credito/transition_matrix_estimator.py:131-134 | the four numpy statements as a value, in order; the shape is kept |
| Rebin.MergeCell | Risco_de_Credito/transition_matrix_estimator.py:131-134 | every cell after merging row/column i into j, in terms of the cells before |
| Rebin.MergeRowSumsVector | Risco_de_Credito/transition_matrix_estimator.py:131-136 | after a merge the true row sums are `row_sums[j] += s; row_sums[i] = 0` applied to the old ones, so the bookkeeping stays exact |
| Rebin.MergeTotal | Risco_de_Credito/transition_matrix_estimator.py:131-134 | a merge of two distinct rows conserves total mass |
| Rebin.MergeClears | Risco_de_Credito/transition_matrix_estimator.py:131-134 | after a merge, row i and column i are entirely zero |
| Rebin.StepKeepsReady | Risco_de_Credito/transition_matrix_estimator.py:122-136 | a sparse row is never merged into itself, and every row of `non_empty` still reaches `min_count` afterwards |
| Rebin.RebinFrom | Risco_de_Credito/transition_matrix_estimator.py:123-136 | the loop from row i on, where s is always the current sum of row i; the shape is kept |
| Rebin.Rebinned | Risco_de_Credito/transition_matrix_estimator.py:121-136 | the whole re-binning branch from row 0, with `non_empty` taken from the starting sums; the shape is kept |
| Rebin.RebinnedConservesMass | Risco_de_Credito/transition_matrix_estimator.py:121-136 | re-binning keeps the dimension, keeps counts non-negative and conserves total mass exactly |
| Rebin.RebinnedClearsSparseRows | Risco_de_Credito/transition_matrix_estimator.py:121-136 | when some row reaches `min_count`, every row below it ends with its whole row and column zero |
| Rebin.RebinnedWithoutDonors | Risco_de_Credito/transition_matrix_estimator.py:122-126 | when no row reaches `min_count`, the matrix is unchanged |
| Rebin.MergeInPlace | Risco_de_Credito/transition_matrix_estimator.py:131-134 | the four in-place numpy statements leave the array holding the merged matrix |
| Rebin.MergeRow | Risco_de_Credito/transition_matrix_estimator.py:124-136 | the merging branch of one iteration: the array then holds the merged matrix, `row_sums` are its true sums, every `non_empty` row still reaches `min_count`, and the rest of the pass is unchanged |
| Rebin.RebinRow | Risco_de_Credito/transition_matrix_estimator.py:123-136 | one iteration of the loop, merging or skipping: the same four facts, so the rest of the pass from i + 1 on the new array equals the pass from i on the old one |
| Rebin.RebinInPlace | Risco_de_Credito/transition_matrix_estimator.py:121-136 | the in-place loop over `enumerate(row_sums)` leaves the array equal to the re-binned value of its old contents |
| Matrices.NonEmpty | Risco_de_Credito/transition_matrix_estimator.py:122 | `non_empty`: ascending bucket indices, exactly those whose row sum reaches `min_count` |
| Drop.Principal | Risco_de_Credito/transition_matrix_estimator.py:155 | `mat[np.ix_(keep, keep)]`: one row per kept position, each the kept entries of that original row |
| Drop.Dropped | Risco_de_Credito/transition_matrix_estimator.py:147-155 | the drop branch's matrix: square over the buckets reaching `min_count` |
| Drop.DroppedLabels | Risco_de_Credito/transition_matrix_estimator.py:147-156 | the drop branch's `cleaned_buckets`: one label per bucket reaching `min_count`, the threshold of that bucket, in order |
| Drop.KeptAreNonEmpty | Risco_de_Credito/transition_matrix_estimator.py:147 | the kept positions are exactly the rows whose sum reaches `min_count`, ascending, the same rows re-binning calls non-empty |
| Drop.DroppedIsPrincipal | Risco_de_Credito/transition_matrix_estimator.py:147-156 | the result is k-by-k for the k kept rows, cell (a, b) is the cell at the a-th and b-th kept rows, and the labels are those of the kept rows in order |
| Drop.DroppedNonNegative | Risco_de_Credito/transition_matrix_estimator.py:155 | dropping keeps counts non-negative |
| Drop.KeptRowCanBeEmpty | Risco_de_Credito/transition_matrix_estimator.py:147-155 | a kept row can lose all its mass: a row reaching `min_count` only through a dropped column becomes zero |
| Smoothing.SmoothRow | Risco_de_Credito/transition_matrix_estimator.py:161-165 | one row of `final` (`(row + alpha) / sum` when the row has mass, zeros otherwise) has the length of the row of counts; its values are stated by the four lemmas that follow |
| Smoothing.Smoothed | Risco_de_Credito/transition_matrix_estimator.py:160-166 | `final` as a value: row r is the smoothed row r of the counts |
| Smoothing.SmoothRowSumsToOne | Risco_de_Credito/transition_matrix_estimator.py:163-165 | a row with mass, smoothed with alpha >= 0, sums to exactly one |
| Smoothing.SmoothRowBounded | Risco_de_Credito/transition_matrix_estimator.py:163-165 | every smoothed entry lies in [0, 1] |
| Smoothing.SmoothRowPositive | Risco_de_Credito/transition_matrix_estimator.py:163-165 | with alpha > 0, every entry of a row with mass is strictly positive |
| Smoothing.SmoothRowZeroIffEmpty | Risco_de_Credito/transition_matrix_estimator.py:161-165 | a smoothed row is the zero vector exactly when its row of counts is |
| Smoothing.SmoothedStochastic | Risco_de_Credito/transition_matrix_estimator.py:160-166 | smoothing keeps the shape and leaves every row either zero or a probability vector |
| Smoothing.Smooth | Risco_de_Credito/transition_matrix_estimator.py:160-166 | the row-by-row loop returns a fresh square array equal to the smoothed matrix |
| Learner.Prepared | Risco_de_Credito/transition_matrix_estimator.py:119-158 | the counts after the strategy step (re-binned, dropped or left alone), still square |
| Learner.PreparedLabels | Risco_de_Credito/transition_matrix_estimator.py:144-158 | `cleaned_buckets` after the strategy step: every label is one of the thresholds |
| Learner.Clean | Risco_de_Credito/transition_matrix_estimator.py:118-166 | `_clean_matrix` as a value: the smoothed prepared counts with their labels, square over those labels |
| Learner.CleanWellFormed | Risco_de_Credito/transition_matrix_estimator.py:118-166 | under every strategy the cleaned matrix is square over the cleaned labels with every row zero or stochastic; the labels are the thresholds, or under dropping exactly the thresholds of the kept rows |
| Learner.CleanRebinEmptiesSparseRows | Risco_de_Credito/transition_matrix_estimator.py:121-166 | under re-binning, a sparse bucket's final row is all zeros whenever some bucket reaches `min_count` |
| Learner.CleanPlainIsPositive | Risco_de_Credito/transition_matrix_estimator.py:157-166 | with alpha > 0 and no strategy, a bucket with any observed transition has positive probability to every bucket |
| Learner.TransitionMatrixLearner.constructor | Risco_de_Credito/transition_matrix_estimator.py:48-58 | the thresholds are stored sorted, `n` is their count, `cleaned_buckets` equals them, the settings are stored, and no matrix is fitted |
| Learner.TransitionMatrixLearner.Create | Risco_de_Credito/transition_matrix_estimator.py:46-58 | fails exactly when both strategies are requested, with that error; otherwise yields a fresh, valid, unfitted estimator with sorted thresholds, `n` their count, `cleaned_buckets` equal to them, and alpha, both strategy flags, `min_count` and `rebin_window` stored as given |
| Learner.TransitionMatrixLearner.PrepareCounts | Risco_de_Credito/transition_matrix_estimator.py:119-158 | the strategy step: re-bins the caller's array in place (and only then changes it), or drops, or keeps; `cleaned_buckets` is set to match |
| Learner.TransitionMatrixLearner.CleanMatrix | Risco_de_Credito/transition_matrix_estimator.py:118-166 | `_clean_matrix` returns the cleaned value of the old counts with every row zero or stochastic, sets `cleaned_buckets` to its labels, and mutates the argument only when re-binning |
| Learner.TransitionMatrixLearner.CleanedOf | Risco_de_Credito/transition_matrix_estimator.py:109-166 | what `_clean_matrix(_count_matrix(...))` yields for some joined rows: square over its labels, every row zero or stochastic, and the labels are the thresholds unless dropping |
| Learner.TransitionMatrixLearner.CountAndClean | Risco_de_Credito/transition_matrix_estimator.py:87-90 | counting then cleaning one modality's rows gives that modality's cleaned matrix and labels |
| Learner.TransitionMatrixLearner.FitGlobal | Risco_de_Credito/transition_matrix_estimator.py:86-90 | the global matrix becomes the cleaned matrix of all joined rows |
| Learner.TransitionMatrixLearner.StoreGroup | Risco_de_Credito/transition_matrix_estimator.py:95-98 | one group iteration stores that group's cleaned matrix under its key and sets `cleaned_buckets` |
| Learner.TransitionMatrixLearner.StoreStage | Risco_de_Credito/transition_matrix_estimator.py:102-105 | one stage iteration stores that stage's cleaned matrix under its key and sets `cleaned_buckets` |
| Learner.TransitionMatrixLearner.FitGroups | Risco_de_Credito/transition_matrix_estimator.py:93-98 | the per-group loop leaves the dictionary and `cleaned_buckets` as the fold of its iterations |
| Learner.TransitionMatrixLearner.FitStages | Risco_de_Credito/transition_matrix_estimator.py:100-105 | the per-stage loop leaves the dictionary and `cleaned_buckets` as the fold of its iterations |
| Learner.TransitionMatrixLearner.AfterGroupsDomain | Risco_de_Credito/transition_matrix_estimator.py:93-98 | after the group loop the keys are exactly the earlier keys plus the visited groups |
| Learner.TransitionMatrixLearner.AfterGroupsValues | Risco_de_Credito/transition_matrix_estimator.py:93-98 | each visited group holds the cleaned matrix of its own rows |
| Learner.TransitionMatrixLearner.AfterGroupsKeeps | Risco_de_Credito/transition_matrix_estimator.py:93-98 | entries whose keys the loop does not visit are left as they were |
| Learner.TransitionMatrixLearner.AfterStagesDomain | Risco_de_Credito/transition_matrix_estimator.py:100-105 | after the stage loop the keys are exactly the earlier keys plus the visited stages |
| Learner.TransitionMatrixLearner.AfterStagesValues | Risco_de_Credito/transition_matrix_estimator.py:100-105 | each visited stage holds the cleaned matrix of its own rows |
| Learner.TransitionMatrixLearner.AfterStagesKeeps | Risco_de_Credito/transition_matrix_estimator.py:100-105 | entries whose keys the loop does not visit are left as they were |
| Learner.TransitionMatrixLearner.FitJoined | Risco_de_Credito/transition_matrix_estimator.py:86-105 | once the rows are joined, the global matrix is their cleaned matrix and what `get_matrix()` returns; the dictionaries and `cleaned_buckets` are the group loop followed by the stage loop |
| Learner.TransitionMatrixLearner.Fit | Risco_de_Credito/transition_matrix_estimator.py:62-106 | after `fit` the global matrix is the cleaned matrix of the whole join and is what `get_matrix()` returns; the dictionaries and `cleaned_buckets` are the group loop followed by the stage loop, in ascending stage order |
| Learner.TransitionMatrixLearner.FitContents | Risco_de_Credito/transition_matrix_estimator.py:93-105 | after `fit` every fitted group key (when groups are used) and every stage key holds the cleaned matrix of its own rows, and keys of an earlier fit that were not refitted survive |
| Learner.TransitionMatrixLearner.FitLabels | Risco_de_Credito/transition_matrix_estimator.py:90-105 | after `fit`, `cleaned_buckets` holds the labels of the highest stage's matrix, or of the global matrix when nothing was joined |
| Learner.TransitionMatrixLearner.GetMatrix | Risco_de_Credito/transition_matrix_estimator.py:169-178 | succeeds exactly when the selected matrix exists (group if given, else stage if given, else global) and returns that matrix, which is zero-or-stochastic row by row; otherwise fails with the matching error |
| Learner.TransitionMatrixLearner.GroupWinsOverStage | Risco_de_Credito/transition_matrix_estimator.py:174-177 | given a group, adding a stage does not change the answer |

## Left out

- `plot_heatmaps` (lines 182-274) is not modelled. It only renders figures through matplotlib and seaborn.
- Logging (line 59, lines 137-142 and 150-154) is not modelled. It has no effect on the estimator's state.
- The commented-out demo at the end of the file is not modelled.
- Dates are integer month indices. `pd.to_datetime` and `pd.DateOffset(months=1)` (lines 73 and 78) and their day clamping at month ends are not modelled.
- The column selection and `sort_values` (lines 72-74) are not modelled. The join is built in panel order. Counts do not depend on the order of the pairs, but the model does not prove that.
- Missing values are not modelled: no NaN group labels, and no rows that `groupby` would silently drop.
- Floating point is not modelled. Probabilities are exact reals, and the count matrix holds integers rather than floats.
- The casts `int(min_count)`, `int(rebin_window)` and `int(idx)` take integer inputs here.
- Learner.TransitionMatrixLearner.Fit: requires every bucket value of the joined rows to reach the first threshold, and at least one threshold when anything is joined. Below the first threshold the search returns -1, which numpy wraps to the last row; with no thresholds, line 114 raises IndexError. Neither case is modelled.
- Learner.TransitionMatrixLearner.FitJoined: requires the same of the rows it is given.
- Learner.TransitionMatrixLearner.FitGroups: visits the group keys in order of first appearance, whereas `groupby` sorts them. The stored dictionary does not depend on the order. `cleaned_buckets` after `fit` is then overwritten by the stage loop (`GroupsNeedStages`, `FitLabels`).
- Learner.TransitionMatrixLearner.Create: requires alpha >= 0, which the program never checks. With a negative alpha a row could sum to zero before division.
- Learner.TransitionMatrixLearner.constructor: requires alpha >= 0 for the same reason, and also that the two strategies do not clash (`Create` models the error).
- Learner.TransitionMatrixLearner.Fit: returns nothing, whereas `fit` returns `self` for chaining.
- Learner.TransitionMatrixLearner.GetMatrix: returns the stored matrix as a value. Python returns the stored array itself, so a caller could mutate the estimator's state through it; that aliasing is not modelled.
- Learner.TransitionMatrixLearner.GetMatrix: has no case for the `ValueError` at line 178. That line cannot be reached, because the three tests before it cover every combination of the two selectors.
