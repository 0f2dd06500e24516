/** The sequential shrinkage sampler of code/stuff.py
    (get_divergences_scores_eigvals): B independent trials, each deleting
    one random row at a time from the data set and comparing the posterior
    on the smaller subset with the one on the subset before, then the
    elementwise mean over trials, read from the smallest size upwards.

    The numerical kernels (posterior_parameters, KL, s_score and the
    smallest eigenvalue of a Gram matrix) are not modelled: they are
    supplied as the fields of a Numerics value, so everything proved here
    holds for any choice of them. */
module Shrinkage {

  /** A dense matrix: its rows, and its column count (X.shape[1]), which
      stays meaningful when there are no rows. */
  datatype Matrix = Matrix(rows: seq<seq<real>>, cols: nat)

  /** Posterior parameters: a mean vector and a covariance matrix. */
  datatype Gaussian = Gaussian(mean: seq<real>, cov: Matrix)

  /** The numerical kernels, left abstract.
      posterior(mu_0, Sigma_0, X, y) is posterior_parameters with the
      default noise variance; kl(next, prev) and sScore(next, prev) are KL
      and s_score with the smaller subset's posterior first; minEigvalGram(X)
      is the smallest eigenvalue of X^T X. */
  datatype Numerics = Numerics(
    posterior: (seq<real>, Matrix, Matrix, seq<real>) -> Gaussian,
    kl: (Gaussian, Gaussian) -> real,
    sScore: (Gaussian, Gaussian) -> real,
    minEigvalGram: Matrix -> real)

  /** Everything a trial reads: the kernels, the prior and the data. */
  datatype Setup = Setup(num: Numerics, mu0: seq<real>, sigma0: Matrix, X: Matrix, y: seq<real>)
  {
    /** One target per row. */
    predicate Shaped() { |y| == |X.rows| }
  }

  /** np.delete(s, i, axis=0): drop entry i, keep the others in order. */
  function Delete<T>(s: seq<T>, i: nat): (r: seq<T>)
    requires i < |s|
    ensures |r| == |s| - 1
    ensures forall j :: 0 <= j < i ==> r[j] == s[j]
    ensures forall j :: i <= j < |r| ==> r[j] == s[j + 1]
  {
    s[..i] + s[i + 1..]
  }

  /** The deletions d can be applied in turn to n rows: the t-th one
      names one of the n - t rows still present. */
  ghost predicate Deletable(n: nat, d: seq<nat>)
  {
    forall t :: 0 <= t < |d| ==> d[t] < n - t
  }

  /** The draws the source can make on n rows: at step t the counter k is
      n - 1 - t and the index is drawn by randint(k), so it is below k. */
  ghost predicate RandintDraws(n: nat, d: seq<nat>)
  {
    forall t :: 0 <= t < |d| ==> d[t] < n - 1 - t
  }

  /** A prefix of applicable deletions is applicable, and the source's
      draws are applicable deletions. */
  lemma PrefixDeletable(n: nat, d: seq<nat>, m: nat)
    requires Deletable(n, d) || RandintDraws(n, d)
    requires m <= |d|
    ensures Deletable(n, d) && Deletable(n, d[..m])
    ensures RandintDraws(n, d) ==> RandintDraws(n, d[..m])
  {
  }

  /** The rows left after applying the deletions d in order. */
  function Shrink<T>(s: seq<T>, d: seq<nat>): (r: seq<T>)
    requires Deletable(|s|, d)
    ensures |r| == |s| - |d|
    decreases |d|
  {
    if d == [] then s
    else
      var before := d[..|d| - 1];
      PrefixDeletable(|s|, d, |d| - 1);
      Delete(Shrink(s, before), d[|d| - 1])
  }

  /** 0, 1, ..., n - 1: the original row positions. */
  function Positions(n: nat): (r: seq<nat>)
    ensures |r| == n && forall i :: 0 <= i < n ==> r[i] == i
  {
    seq(n, i requires 0 <= i < n => i)
  }

  /** Strictly increasing: relative order is kept. */
  ghost predicate Increasing(s: seq<nat>)
  {
    forall i, j :: 0 <= i < j < |s| ==> s[i] < s[j]
  }

  /** Deletions pick rows by position only, so any two sequences of the
      same length (X's rows and y) keep the same original positions, in
      their original order: after d, entry j of Shrink(s, d) is the entry
      of s at position kept[j], where kept is the same for every s. */
  lemma {:induction false} ShrinkKeepsPositions<T>(s: seq<T>, d: seq<nat>)
    requires Deletable(|s|, d)
    ensures var kept := Shrink<nat>(Positions(|s|), d);
      Increasing(kept) &&
      forall j :: 0 <= j < |kept| ==> kept[j] < |s| && Shrink(s, d)[j] == s[kept[j]]
    decreases |d|
  {
    if d != [] {
      var before := d[..|d| - 1];
      PrefixDeletable(|s|, d, |d| - 1);
      ShrinkKeepsPositions(s, before);
    }
  }

  /** The source's draw bound is k while k + 1 rows are present, so the
      last row present is never eligible; by induction the original last
      row of the data set survives the whole trial, and it stays last. */
  lemma {:induction false} LastRowNeverDeleted<T>(s: seq<T>, d: seq<nat>)
    requires RandintDraws(|s|, d) && |d| < |s|
    ensures Deletable(|s|, d)
    ensures Shrink(s, d)[|s| - |d| - 1] == s[|s| - 1]
    decreases |d|
  {
    if d != [] {
      var before := d[..|d| - 1];
      PrefixDeletable(|s|, d, |d| - 1);
      LastRowNeverDeleted(s, before);
    }
  }

  /** The design matrix after the deletions d. */
  function RowsAfter(s: Setup, d: seq<nat>): (m: Matrix)
    requires Deletable(|s.X.rows|, d)
    ensures m.cols == s.X.cols && |m.rows| == |s.X.rows| - |d|
  {
    Matrix(Shrink(s.X.rows, d), s.X.cols)
  }

  /** The posterior after the deletions d, computed from the original prior. */
  function PosteriorAfter(s: Setup, d: seq<nat>): (g: Gaussian)
    requires s.Shaped() && Deletable(|s.X.rows|, d)
    ensures d == [] ==> g == s.num.posterior(s.mu0, s.sigma0, s.X, s.y)
  {
    s.num.posterior(s.mu0, s.sigma0, RowsAfter(s, d), Shrink(s.y, d))
  }

  /** The posterior after a run of deletions depends only on which
      original rows survive, not on the path that led there: it is
      recomputed from the prior on the surviving rows, never carried over
      from an earlier posterior. */
  lemma PosteriorDependsOnlyOnSurvivors(s: Setup, d1: seq<nat>, d2: seq<nat>)
    requires s.Shaped() && Deletable(|s.X.rows|, d1) && Deletable(|s.X.rows|, d2)
    requires Shrink<nat>(Positions(|s.X.rows|), d1) == Shrink<nat>(Positions(|s.X.rows|), d2)
    ensures PosteriorAfter(s, d1) == PosteriorAfter(s, d2)
  {
    ShrinkKeepsPositions(s.X.rows, d1);
    ShrinkKeepsPositions(s.X.rows, d2);
    ShrinkKeepsPositions(s.y, d1);
    ShrinkKeepsPositions(s.y, d2);
    assert Shrink(s.X.rows, d1) == Shrink(s.X.rows, d2);
    assert Shrink(s.y, d1) == Shrink(s.y, d2);
  }

  /** The three per-step lists of one trial (tmp_divergences, tmp_scores,
      tmp_eigvals). */
  datatype TrialCurves = TrialCurves(divergences: seq<real>, scores: seq<real>, eigvals: seq<real>)

  /** Which of the three diagnostics. */
  datatype Diagnostic = Divergence | Score | Eigval

  function Pick(c: TrialCurves, which: Diagnostic): seq<real>
  {
    match which
    case Divergence => c.divergences
    case Score => c.scores
    case Eigval => c.eigvals
  }

  /** The lists one trial records when its draws are d: one entry of each
      per deletion. */
  function Trial(s: Setup, d: seq<nat>): (c: TrialCurves)
    requires s.Shaped() && Deletable(|s.X.rows|, d)
    ensures |c.divergences| == |d| && |c.scores| == |d| && |c.eigvals| == |d|
    decreases |d|
  {
    if d == [] then TrialCurves([], [], [])
    else
      var before := d[..|d| - 1];
      PrefixDeletable(|s.X.rows|, d, |d| - 1);
      var c := Trial(s, before);
      var prev := PosteriorAfter(s, before);
      var next := PosteriorAfter(s, d);
      TrialCurves(c.divergences + [s.num.kl(next, prev)],
                  c.scores + [s.num.sScore(next, prev)],
                  c.eigvals + [s.num.minEigvalGram(RowsAfter(s, d))])
  }

  /** Entry t of a trial compares the posterior after t + 1 deletions with
      the one after t deletions, both computed from the original prior
      mu0, sigma0 (never from an earlier posterior); the eigenvalue entry
      is that of the smaller subset. */
  lemma {:induction false} TrialAt(s: Setup, d: seq<nat>, t: nat)
    requires s.Shaped() && Deletable(|s.X.rows|, d)
    requires t < |d|
    ensures Deletable(|s.X.rows|, d[..t]) && Deletable(|s.X.rows|, d[..t + 1])
    ensures var next := s.num.posterior(s.mu0, s.sigma0, RowsAfter(s, d[..t + 1]), Shrink(s.y, d[..t + 1]));
      var prev := s.num.posterior(s.mu0, s.sigma0, RowsAfter(s, d[..t]), Shrink(s.y, d[..t]));
      Trial(s, d).divergences[t] == s.num.kl(next, prev) &&
      Trial(s, d).scores[t] == s.num.sScore(next, prev) &&
      Trial(s, d).eigvals[t] == s.num.minEigvalGram(RowsAfter(s, d[..t + 1]))
    decreases |d|
  {
    var before := d[..|d| - 1];
    PrefixDeletable(|s.X.rows|, d, |d| - 1);
    if t < |d| - 1 {
      TrialAt(s, before, t);
      assert before[..t] == d[..t] && before[..t + 1] == d[..t + 1];
    } else {
      assert d[..t + 1] == d && d[..t] == before;
    }
  }

  /** Steps of one trial: k runs from n - 1 down to p + 1. */
  function StepsPerTrial(n: nat, p: nat): (r: nat)
    ensures r == 0 <==> n - 1 < p + 1
    ensures r > 0 ==> n - r == p + 1
  {
    if n >= p + 2 then n - 1 - p else 0
  }

  /** Draws for a whole run: one full-length list of randint draws per trial. */
  ghost predicate ValidDraws(s: Setup, draws: seq<seq<nat>>)
  {
    forall b :: 0 <= b < |draws| ==>
      |draws[b]| == StepsPerTrial(|s.X.rows|, s.X.cols) && RandintDraws(|s.X.rows|, draws[b])
  }

  /** The lists of one diagnostic, one per trial, in trial order. */
  function PerTrial(s: Setup, draws: seq<seq<nat>>, which: Diagnostic): (r: seq<seq<real>>)
    requires s.Shaped() && ValidDraws(s, draws)
    ensures |r| == |draws|
    ensures forall b :: 0 <= b < |r| ==> |r[b]| == StepsPerTrial(|s.X.rows|, s.X.cols)
  {
    seq(|draws|, b requires 0 <= b < |draws| => Pick(Trial(s, draws[b]), which))
  }

  /** Sum over the trials of entry t. */
  function ColumnSum(trials: seq<seq<real>>, t: nat): real
    requires forall b :: 0 <= b < |trials| ==> t < |trials[b]|
    decreases |trials|
  {
    if trials == [] then 0.0
    else ColumnSum(trials[..|trials| - 1], t) + trials[|trials| - 1][t]
  }

  /** np.mean(trials, axis=0): the elementwise mean over the trials. */
  function ColumnMeans(trials: seq<seq<real>>, len: nat): (r: seq<real>)
    requires |trials| > 0 && forall b :: 0 <= b < |trials| ==> |trials[b]| == len
    ensures |r| == len
    ensures forall t :: 0 <= t < len && Agree(trials, t) ==> r[t] == trials[0][t]
  {
    AgreeingColumnsKeepValue(trials, len);
    seq(len, t requires 0 <= t < len => ColumnSum(trials, t) / |trials| as real)
  }

  /** Every trial has the same value at entry t. */
  ghost predicate Agree(trials: seq<seq<real>>, t: nat)
    requires |trials| > 0 && forall b :: 0 <= b < |trials| ==> t < |trials[b]|
  {
    forall b :: 0 <= b < |trials| ==> trials[b][t] == trials[0][t]
  }

  lemma AgreeingColumnsKeepValue(trials: seq<seq<real>>, len: nat)
    requires |trials| > 0 && forall b :: 0 <= b < |trials| ==> |trials[b]| == len
    ensures forall t :: 0 <= t < len && Agree(trials, t) ==>
      ColumnSum(trials, t) / |trials| as real == trials[0][t]
  {
    forall t | 0 <= t < len && Agree(trials, t)
      ensures ColumnSum(trials, t) / |trials| as real == trials[0][t]
    {
      ColumnSumOfAgreeingTrials(trials, t, trials[0][t]);
    }
  }

  /** s[::-1]. */
  function Reverse(s: seq<real>): (r: seq<real>)
    ensures |r| == |s|
    decreases |s|
  {
    if s == [] then [] else [s[|s| - 1]] + Reverse(s[..|s| - 1])
  }

  /** Reversal reads the sequence from its far end. */
  lemma {:induction false} ReverseAt(s: seq<real>, i: nat)
    requires i < |s|
    ensures Reverse(s)[i] == s[|s| - 1 - i]
    decreases |s|
  {
    if i > 0 {
      ReverseAt(s[..|s| - 1], i - 1);
    }
  }

  /** np.mean(trials, axis=0)[::-1]. */
  function MeanReversed(trials: seq<seq<real>>, len: nat): (r: seq<real>)
    requires |trials| > 0 && forall b :: 0 <= b < |trials| ==> |trials[b]| == len
    ensures |r| == len
  {
    Reverse(ColumnMeans(trials, len))
  }

  /** Output i is the mean over the trials of entry len - 1 - i. */
  lemma MeanReversedAt(trials: seq<seq<real>>, len: nat, i: nat)
    requires |trials| > 0 && forall b :: 0 <= b < |trials| ==> |trials[b]| == len
    requires i < len
    ensures MeanReversed(trials, len)[i] == ColumnSum(trials, len - 1 - i) / |trials| as real
  {
    ReverseAt(ColumnMeans(trials, len), i);
  }

  /** When every trial has the same value v at entry t, the sum is
      B * v, so the mean at t is v. */
  lemma {:induction false} ColumnSumOfAgreeingTrials(trials: seq<seq<real>>, t: nat, v: real)
    requires forall b :: 0 <= b < |trials| ==> t < |trials[b]| && trials[b][t] == v
    ensures ColumnSum(trials, t) == |trials| as real * v
    ensures |trials| > 0 ==> ColumnSum(trials, t) / |trials| as real == v
    decreases |trials|
  {
    if trials != [] {
      ColumnSumOfAgreeingTrials(trials[..|trials| - 1], t, v);
    }
  }

  /** Output index i belongs to the step whose smaller subset has p + 1 + i
      rows (index 0 to the smallest size p + 1) and whose larger subset
      has p + 2 + i rows. */
  lemma CurveIndexSizes(s: Setup, d: seq<nat>, i: nat)
    requires RandintDraws(|s.X.rows|, d)
    requires |d| == StepsPerTrial(|s.X.rows|, s.X.cols) && i < |d|
    ensures Deletable(|s.X.rows|, d[..|d| - i]) && Deletable(|s.X.rows|, d[..|d| - 1 - i])
    ensures |RowsAfter(s, d[..|d| - i]).rows| == s.X.cols + 1 + i
    ensures |RowsAfter(s, d[..|d| - 1 - i]).rows| == s.X.cols + 2 + i
  {
  }

  /** get_divergences_scores_eigvals: B trials; each starts from the full
      data with k = n - 1 and, while k >= p + 1, draws idx < k, deletes
      row idx from X and y, recomputes the posterior from the prior,
      records the three diagnostics against the previous posterior and
      decrements k; then the per-trial lists are averaged elementwise and
      reversed. The draws made are returned, and every output is the
      function of them that the specification functions above describe. */
  method GetDivergencesScoresEigvals(num: Numerics, mu0: seq<real>, sigma0: Matrix,
                                     X: Matrix, y: seq<real>, B: nat)
    returns (divergences: seq<real>, scores: seq<real>, eigvals: seq<real>, draws: seq<seq<nat>>)
    requires |y| == |X.rows|
    requires B >= 1
    ensures |draws| == B && ValidDraws(Setup(num, mu0, sigma0, X, y), draws)
    ensures |divergences| == |scores| == |eigvals| == StepsPerTrial(|X.rows|, X.cols)
    ensures var s := Setup(num, mu0, sigma0, X, y); var len := StepsPerTrial(|X.rows|, X.cols);
      divergences == MeanReversed(PerTrial(s, draws, Divergence), len) &&
      scores == MeanReversed(PerTrial(s, draws, Score), len) &&
      eigvals == MeanReversed(PerTrial(s, draws, Eigval), len)
  {
    ghost var s := Setup(num, mu0, sigma0, X, y);
    var n, p := |X.rows|, X.cols;
    var divs: seq<seq<real>> := [];
    var scs: seq<seq<real>> := [];
    var eigs: seq<seq<real>> := [];
    draws := [];
    for b := 0 to B
      invariant |draws| == b && ValidDraws(s, draws)
      invariant |divs| == b && |scs| == b && |eigs| == b
      invariant forall i :: 0 <= i < b ==>
        divs[i] == Trial(s, draws[i]).divergences &&
        scs[i] == Trial(s, draws[i]).scores &&
        eigs[i] == Trial(s, draws[i]).eigvals
    {
      var tmpDivs, tmpScores, tmpEigs := [], [], [];
      var d: seq<nat> := [];
      var k := n - 1;
      var Xkp1, ykp1 := X, y;
      var postKp1 := num.posterior(mu0, sigma0, Xkp1, ykp1);
      while k >= p + 1
        invariant RandintDraws(n, d) && Deletable(n, d)
        invariant k == n - 1 - |d|
        invariant d == [] || k >= p
        invariant Xkp1 == RowsAfter(s, d) && ykp1 == Shrink(y, d)
        invariant postKp1 == PosteriorAfter(s, d)
        invariant tmpDivs == Trial(s, d).divergences
        invariant tmpScores == Trial(s, d).scores
        invariant tmpEigs == Trial(s, d).eigvals
        decreases k
      {
        // the k + 1 rows present; randint(k) never picks the last one
        var idx: nat :| idx < k;
        var Xk := Matrix(Delete(Xkp1.rows, idx), Xkp1.cols);
        var yk := Delete(ykp1, idx);
        var postK := num.posterior(mu0, sigma0, Xk, yk);
        tmpDivs := tmpDivs + [num.kl(postK, postKp1)];
        tmpScores := tmpScores + [num.sScore(postK, postKp1)];
        tmpEigs := tmpEigs + [num.minEigvalGram(Xk)];
        ghost var before := d;
        d := d + [idx];
        assert d[..|d| - 1] == before;
        Xkp1, ykp1 := Xk, yk;
        postKp1 := postK;
        k := k - 1;
      }
      divs, scs, eigs := divs + [tmpDivs], scs + [tmpScores], eigs + [tmpEigs];
      draws := draws + [d];
    }
    var len := StepsPerTrial(n, p);
    assert divs == PerTrial(s, draws, Divergence);
    assert scs == PerTrial(s, draws, Score);
    assert eigs == PerTrial(s, draws, Eigval);
    divergences := MeanReversed(divs, len);
    scores := MeanReversed(scs, len);
    eigvals := MeanReversed(eigs, len);
  }
}
