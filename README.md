# Sufficient sample size for Bayesian linear regression, in Dafny

This project models the algorithmic core of a small Python research code
base that estimates how many observations a Bayesian linear regression
needs before its posterior stops changing. Two parts of `code/stuff.py`
are modelled and proved:

* **The sufficiency resolver** (module `Sufficiency`, file
  `sufficiency.dfy`). `sufficient_sample_size` scans (sample size,
  value) pairs, keeping a candidate `m_star` that a converged value sets
  when it is infinity and that a non-converged value resets to infinity.
  A KL divergence is converged when it is `<= eps`; an s-score is
  converged when it is `>= 1 - eps`. The loop is proved equal to a closed
  form: the result is the size at which the final maximal run of
  converged values begins, or infinity when that run is empty. An unknown
  method name gives `NotImplementedError` before any scanning.
  `sufficient_vs_threshold` builds the map with the keys `kl-div` and
  `s-score`, one entry per threshold, in input order.
* **The shrinkage sampler** (module `Shrinkage`, file `shrinkage.dfy`).
  `get_divergences_scores_eigvals` runs `B` trials. Each trial starts
  from the full data with `k = n - 1` and repeats the following while
  `k >= p + 1`:
  - draw `idx < k`;
  - delete row `idx` from `X` and `y`;
  - recompute the posterior from the original prior;
  - record the KL divergence and the s-score of the new posterior
    against the previous one, and the smallest eigenvalue of the Gram
    matrix of the reduced design matrix (no posterior involved).

  The per-trial lists are then averaged elementwise and reversed. The
  numerical kernels are fields of a `Numerics` value, so every property
  holds for any kernels. The random draw is a nondeterministic choice
  `idx :| idx < k`. The method returns the draws it made, and each output
  is stated as a function of those draws.

The proved properties are:

* the number of steps per trial is `max(0, n - 1 - p)`;
* the row counts before and after each step;
* deletion keeps `X` and `y` paired and in their original order;
* the original last row is never deleted;
* every posterior is computed from the original prior;
* output `i` is the mean over trials of entry `L - 1 - i`, which is the
  step down to `p + 1 + i` rows.

Two details of the code shape these results:

* Each trial yields `n - p - 1` entries, because `k` runs from `n - 1`
  down to `p + 1`. For `n = 50` and `p = 3` that is 46.
* The draw bound is `k` while `k + 1` rows are present, so the last row
  present is never eligible. The model keeps this bound.
  `Shrinkage.LastRowNeverDeleted` proves what it implies: the original
  last row of the data survives every trial, so the deletion order is not
  uniform over all rows.

## Model

| member | source | states |
|---|---|---|
| Sufficiency.MethodOf | code/stuff.py:99-100 | only "kl-div" and "s-score" are accepted; every other name is rejected |
| Sufficiency.Converged | code/stuff.py:112-121 | a divergence is converged when it is at most eps, a score when it is at least 1 - eps; the reset tests (divergence above eps, score below 1 - eps) are exactly the non-converged values |
| Sufficiency.ZipLength | code/stuff.py:111 | the scan covers as many pairs as the shorter of sizes and values, as zip does |
| Sufficiency.RunStart | code/stuff.py:108-124 | the index where the final converged run of the scanned values begins: everything from it on is converged, the value before it is not, and it equals the scan length exactly when there is nothing to scan or the last value is not converged |
| Sufficiency.RunStartUnique | code/stuff.py:108-124 | that characterisation determines the run start: any index with the property is the one RunStart gives |
| Sufficiency.SufficientSizeCharacterised | code/stuff.py:108-124 | the result is infinity iff nothing is scanned or the last value misses the threshold (so when every value misses it); otherwise it is sizes[i] for the i where the final converged run begins, and that i exists |
| Sufficiency.RunStartAntitone | code/stuff.py:111-122 | a looser threshold never moves the start of the final converged run later |
| Sufficiency.SufficientSizeMonotone | code/stuff.py:111-122 | with non-decreasing sizes, a looser threshold gives a finite size no larger than a tighter one does |
| Sufficiency.WorkedExample | code/stuff.py:110-115 | divergences 0.5, 0.2, 0.05, 0.001, 0.0005 at sizes 10..50 with eps 0.01 give 40 |
| Sufficiency.SufficientSampleSize | code/stuff.py:90-124 | the m_star scan returns NotImplementedError exactly for an unknown method name, and otherwise the closed-form sufficient size of the divergences (kl-div) or of the scores (s-score) |
| Sufficiency.SufficientVsThreshold | code/stuff.py:127-145 | the map has exactly the keys kl-div and s-score, each list has one entry per threshold, and entry i is the sufficient size for thresholds[i] with that method |
| Shrinkage.Delete | code/stuff.py:70 | deleting index i removes one entry and keeps the others in order |
| Shrinkage.Shrink | code/stuff.py:64-77 | after the deletions d, |d| rows fewer remain |
| Shrinkage.ShrinkKeepsPositions | code/stuff.py:70-75 | the rows left after any deletions are the original rows at a strictly increasing list of positions; that list depends only on the draws, so X and y stay paired |
| Shrinkage.LastRowNeverDeleted | code/stuff.py:68-70 | with draws below k while k + 1 rows are present, the original last row is never deleted and stays last |
| Shrinkage.RowsAfter | code/stuff.py:70-75 | the shrunk design matrix keeps the column count and has |d| rows fewer |
| Shrinkage.PosteriorAfter | code/stuff.py:66-71 | the posterior is posterior_parameters on the prior and the current rows; with no deletions it is the posterior of the full data |
| Shrinkage.PosteriorDependsOnlyOnSurvivors | code/stuff.py:66-76 | two deletion paths that leave the same original rows give the same posterior: it is recomputed from the prior, never carried over |
| Shrinkage.Trial | code/stuff.py:61-77 | a trial records one divergence, one score and one eigenvalue per deletion |
| Shrinkage.TrialAt | code/stuff.py:66-76 | entry t compares the posterior after t + 1 deletions with the one after t deletions, both computed from the original mu_0 and Sigma_0; the eigenvalue is that of the smaller subset |
| Shrinkage.PerTrial | code/stuff.py:79-81 | one list per trial, in trial order, each of the per-trial step count |
| Shrinkage.StepsPerTrial | code/stuff.py:64-68 | the trial loop does no step when n - 1 < p + 1; otherwise its last step leaves p + 1 rows |
| Shrinkage.ColumnMeans | code/stuff.py:83-85 | the elementwise mean has one entry per step, and where all trials agree the mean is that common value |
| Shrinkage.Reverse | code/stuff.py:83-85 | reversal keeps the length |
| Shrinkage.ReverseAt | code/stuff.py:83-85 | entry i of the reversal is entry len - 1 - i of the input |
| Shrinkage.MeanReversed | code/stuff.py:83-85 | the averaged and reversed curve has the per-trial length |
| Shrinkage.MeanReversedAt | code/stuff.py:83-85 | output i is the mean over the B trials of entry len - 1 - i |
| Shrinkage.ColumnSumOfAgreeingTrials | code/stuff.py:83-85 | when all trials agree on an entry, the mean there is that value |
| Shrinkage.CurveIndexSizes | code/stuff.py:64-85 | output index i belongs to the step from p + 2 + i rows down to p + 1 + i rows, so index 0 is the smallest size p + 1 |
| Shrinkage.GetDivergencesScoresEigvals | code/stuff.py:34-87 | B trials, each of exactly max(0, n - 1 - p) draws with draw t below n - 1 - t; the three outputs have that length and are the elementwise means over the trials, reversed, of the lists each trial records for its draws |

## Left out

- posterior_parameters, KL, s_score and np.linalg.eigvalsh (code/stuff.py:5-31, 74) are floating-point linear algebra: inverse, determinant, log, exp and eigenvalues. They are parameters of the model (`Shrinkage.Numerics`), not definitions, and they are total. Errors raised by these kernels are not modelled: singular matrices, and the empty Gram matrix when X has no columns (then `eigvalsh(...)[0]` at code/stuff.py:74 raises IndexError on the first step, where the model records a value).
- Default arguments are not modelled: the model takes eps and method (defaults 1e-4 and "kl-div", code/stuff.py:93-94) and B (default 100, code/stuff.py:38) explicitly. The noise variance sigma2 (default 1, code/stuff.py:5) is part of the abstract posterior kernel, which every call site uses with its default.
- np.random.randint (code/stuff.py:69) is a nondeterministic choice of an index below k. The model does not claim a distribution; the draws made are returned.
- tqdm progress reporting (code/stuff.py:59) is presentation only.
- The None-argument checks (code/stuff.py:102-106) are not modelled, because the curves are typed sequences here. As written they are quirks: the check at line 102 tests the spelling 'kl_div', so it never fires. The check at line 106 returns the ValueError class instead of raising it.
- Values are exact reals. NaN, for which neither `<= eps` nor `> eps` holds, is not modelled. The floating-point rounding of np.mean is not modelled either.
- Shrinkage.GetDivergencesScoresEigvals requires B >= 1. With B = 0 the source takes the mean of an empty list, which is a NaN scalar, and then fails when it reverses it.
- Shrinkage.GetDivergencesScoresEigvals requires one target per row. With mismatched shapes the source fails in the first posterior computation.
- code/visualize.py (plotting) and code/data.py (data generation and download) are I/O and are not part of this model.
