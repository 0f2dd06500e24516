/** The sufficiency resolver: given a divergence curve or a score curve
    indexed by sample size, find the size from which the curve stays
    converged (code/stuff.py, sufficient_sample_size and
    sufficient_vs_threshold). */
module Sufficiency {

  datatype Option<T> = None | Some(value: T)

  /** The two comparison methods the resolver knows. */
  datatype Method = KlDiv | SScore

  /** A sufficient sample size: a size taken from the input, or infinity
      when the curve does not end in a converged run. */
  datatype SampleSize = Infinity | Size(n: int)

  /** What sufficient_sample_size returns: a size, or the error raised
      for a method name it does not know. */
  datatype Outcome = Ok(size: SampleSize) | NotImplementedError

  /** The method named by a string, if it is one of the two known names. */
  function MethodOf(name: string): (m: Option<Method>)
    ensures m == Some(KlDiv) <==> name == "kl-div"
    ensures m == Some(SScore) <==> name == "s-score"
    ensures m == None <==> name != "kl-div" && name != "s-score"
  {
    if name == "kl-div" then Some(KlDiv)
    else if name == "s-score" then Some(SScore)
    else None
  }

  /** A curve value counts as converged for threshold eps. The reset
      tests of the scan (a divergence above eps, a score below 1 - eps)
      are exactly the values that are not converged, so every value either
      keeps or sets the candidate, or resets it. */
  predicate Converged(m: Method, v: real, eps: real)
    ensures !Converged(m, v, eps) <==>
      (m == KlDiv && v > eps) || (m == SScore && v < 1.0 - eps)
  {
    match m
    case KlDiv => v <= eps
    case SScore => v >= 1.0 - eps
  }

  /** The curve a method scans: divergences for KL, scores for s-score. */
  function Curve(m: Method, divergences: seq<real>, scores: seq<real>): seq<real>
  {
    match m
    case KlDiv => divergences
    case SScore => scores
  }

  /** Number of pairs a zip of the two sequences produces. */
  function ZipLength(sizes: seq<int>, values: seq<real>): (n: nat)
    ensures n <= |sizes| && n <= |values|
    ensures n == |sizes| || n == |values|
  {
    if |sizes| <= |values| then |sizes| else |values|
  }

  /** Every value at index lo .. hi-1 is converged. */
  ghost predicate ConvergedFrom(m: Method, values: seq<real>, eps: real, lo: nat, hi: nat)
    requires lo <= hi <= |values|
  {
    forall j :: lo <= j < hi ==> Converged(m, values[j], eps)
  }

  /** Index i < n is where the final maximal converged run of values[..n]
      begins: everything from i on is converged and the value just before
      i (if any) is not. */
  ghost predicate RunStartsAt(m: Method, values: seq<real>, eps: real, n: nat, i: nat)
    requires n <= |values|
  {
    i <= n && ConvergedFrom(m, values, eps, i, n) &&
    (i == 0 || !Converged(m, values[i - 1], eps))
  }

  /** Where the final converged run of values[..n] begins; n itself when
      the last value is not converged (the run is empty). */
  function RunStart(m: Method, values: seq<real>, eps: real, n: nat): (i: nat)
    requires n <= |values|
    ensures RunStartsAt(m, values, eps, n, i)
    ensures i == n <==> n == 0 || !Converged(m, values[n - 1], eps)
  {
    if n == 0 then 0
    else if Converged(m, values[n - 1], eps) then RunStart(m, values, eps, n - 1)
    else n
  }

  /** The resolver's answer after scanning the first t pairs. */
  function Candidate(sizes: seq<int>, values: seq<real>, eps: real, m: Method, t: nat): SampleSize
    requires t <= |sizes| && t <= |values|
  {
    var i := RunStart(m, values, eps, t);
    if i == t then Infinity else Size(sizes[i])
  }

  /** The sufficient sample size of a whole curve: the size at which its
      final converged run begins, or infinity. */
  function SufficientSize(sizes: seq<int>, values: seq<real>, eps: real, m: Method): SampleSize
  {
    Candidate(sizes, values, eps, m, ZipLength(sizes, values))
  }

  /** The start of the final run is the only index with the run-start
      property: the characterisation determines it. */
  lemma RunStartUnique(m: Method, values: seq<real>, eps: real, n: nat, i: nat)
    requires n <= |values|
    requires RunStartsAt(m, values, eps, n, i)
    ensures RunStart(m, values, eps, n) == i
  {
  }

  /** The closed form of the resolver: infinity exactly when there are no
      pairs or the last scanned value is not converged (in particular when
      every value misses the threshold); otherwise the size at index i,
      where i is the start of the final converged run. */
  lemma SufficientSizeCharacterised(sizes: seq<int>, values: seq<real>, eps: real, m: Method)
    ensures var n := ZipLength(sizes, values);
      SufficientSize(sizes, values, eps, m) == Infinity <==>
      n == 0 || !Converged(m, values[n - 1], eps)
    ensures var n := ZipLength(sizes, values);
      n > 0 && (forall j :: 0 <= j < n ==> !Converged(m, values[j], eps)) ==>
      SufficientSize(sizes, values, eps, m) == Infinity
    ensures var n := ZipLength(sizes, values);
      forall i :: 0 <= i < n && RunStartsAt(m, values, eps, n, i) ==>
        SufficientSize(sizes, values, eps, m) == Size(sizes[i])
    ensures var n := ZipLength(sizes, values);
      SufficientSize(sizes, values, eps, m) != Infinity ==>
      exists i :: 0 <= i < n && RunStartsAt(m, values, eps, n, i) &&
        SufficientSize(sizes, values, eps, m) == Size(sizes[i])
  {
  }

  /** Loosening the threshold can only move the start of the final run
      earlier: what converges for eps1 converges for eps2 >= eps1. */
  lemma RunStartAntitone(m: Method, values: seq<real>, eps1: real, eps2: real, n: nat)
    requires n <= |values|
    requires eps1 <= eps2
    ensures RunStart(m, values, eps2, n) <= RunStart(m, values, eps1, n)
  {
  }

  /** When the sample sizes do not decrease, a looser threshold never yields a
      larger sufficient size (infinity being the largest). */
  lemma SufficientSizeMonotone(sizes: seq<int>, values: seq<real>, eps1: real, eps2: real, m: Method)
    requires eps1 <= eps2
    requires forall i, j :: 0 <= i <= j < |sizes| ==> sizes[i] <= sizes[j]
    ensures SufficientSize(sizes, values, eps1, m).Size? ==>
      SufficientSize(sizes, values, eps2, m).Size? &&
      SufficientSize(sizes, values, eps2, m).n <= SufficientSize(sizes, values, eps1, m).n
  {
    RunStartAntitone(m, values, eps1, eps2, ZipLength(sizes, values));
  }

  /** The worked example: divergences 0.5, 0.2, 0.05, 0.001, 0.0005 at
      sizes 10 .. 50 with threshold 0.01 are sufficient from size 40. */
  lemma WorkedExample()
    ensures SufficientSize([10, 20, 30, 40, 50], [0.5, 0.2, 0.05, 0.001, 0.0005], 0.01, KlDiv) == Size(40)
  {
  }

  /** sufficient_sample_size: reject an unknown method before scanning,
      then scan the zipped (size, value) pairs keeping m_star, which a
      converged value sets when it is infinity and a non-converged value
      resets to infinity. */
  method SufficientSampleSize(sizes: seq<int>, divergences: seq<real>, scores: seq<real>,
                              eps: real, name: string) returns (r: Outcome)
    ensures MethodOf(name) == None <==> r == NotImplementedError
    ensures MethodOf(name) == Some(KlDiv) ==> r == Ok(SufficientSize(sizes, divergences, eps, KlDiv))
    ensures MethodOf(name) == Some(SScore) ==> r == Ok(SufficientSize(sizes, scores, eps, SScore))
  {
    var known := MethodOf(name);
    if known == None {
      return NotImplementedError;
    }
    var m := known.value;
    var values := Curve(m, divergences, scores);
    var n := ZipLength(sizes, values);
    var mStar := Infinity;
    for t := 0 to n
      invariant mStar == Candidate(sizes, values, eps, m, t)
    {
      var v := values[t];
      if Converged(m, v, eps) && mStar == Infinity {
        mStar := Size(sizes[t]);
      } else if !Converged(m, v, eps) {
        mStar := Infinity;
      }
    }
    r := Ok(mStar);
  }

  /** sufficient_vs_threshold: for both methods, in the order kl-div then
      s-score, the sufficient size for every threshold in input order. */
  method SufficientVsThreshold(sizes: seq<int>, divergences: seq<real>, scores: seq<real>,
                               thresholds: seq<real>) returns (sufficient: map<string, seq<SampleSize>>)
    ensures sufficient.Keys == {"kl-div", "s-score"}
    ensures |sufficient["kl-div"]| == |thresholds| && |sufficient["s-score"]| == |thresholds|
    ensures forall i :: 0 <= i < |thresholds| ==>
      sufficient["kl-div"][i] == SufficientSize(sizes, divergences, thresholds[i], KlDiv)
    ensures forall i :: 0 <= i < |thresholds| ==>
      sufficient["s-score"][i] == SufficientSize(sizes, scores, thresholds[i], SScore)
  {
    var names := ["kl-div", "s-score"];
    sufficient := map["kl-div" := [], "s-score" := []];
    for q := 0 to 2
      invariant sufficient.Keys == {"kl-div", "s-score"}
      invariant q <= 0 ==> sufficient["kl-div"] == []
      invariant q <= 1 ==> sufficient["s-score"] == []
      invariant q > 0 ==> |sufficient["kl-div"]| == |thresholds|
      invariant q > 0 ==> forall i :: 0 <= i < |thresholds| ==>
          sufficient["kl-div"][i] == SufficientSize(sizes, divergences, thresholds[i], KlDiv)
      invariant q > 1 ==> |sufficient["s-score"]| == |thresholds|
      invariant q > 1 ==> forall i :: 0 <= i < |thresholds| ==>
          sufficient["s-score"][i] == SufficientSize(sizes, scores, thresholds[i], SScore)
    {
      var name := names[q];
      var m := MethodOf(name).value;
      ghost var other := sufficient[names[1 - q]];
      for t := 0 to |thresholds|
        invariant sufficient.Keys == {"kl-div", "s-score"}
        invariant sufficient[names[1 - q]] == other
        invariant |sufficient[name]| == t
        invariant forall i :: 0 <= i < t ==>
          sufficient[name][i] == SufficientSize(sizes, Curve(m, divergences, scores), thresholds[i], m)
      {
        var r := SufficientSampleSize(sizes, divergences, scores, thresholds[t], name);
        sufficient := sufficient[name := sufficient[name] + [r.size]];
      }
    }
  }
}
