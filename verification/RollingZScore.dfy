/** The rolling z-score kernel: three running totals instead of a re-scan of every window. */
module RollingZScore {
  import opened Vectors
  import opened Wrappers
  import opened Moments
  import opened RollingWindows

  /** A tenth of the window, but at least 10. */
  function DefaultMinObs(window: nat): (m: int)
    ensures m >= 10 && 10 * m > window - 10 && (m == 10 || 10 * m <= window)
  {
    if window / 10 > 10 then window / 10 else 10
  }

  function MinObs(minObs: Option<int>, window: nat): int {
    if minObs.Some? then minObs.value else DefaultMinObs(window)
  }

  /** The definition the kernel replaced: standardise against a fresh scan of the trailing window. */
  function NaiveZScore(sqrt: real -> real, series: Series, i: nat, window: nat, minObs: int): Option<real>
    requires window >= 1 && i < |series|
  {
    if series[i].None? then None
    else
      var t := Trailing(series, i, window);
      if |t| < minObs then None
      else
        var std := sqrt(Variance(t));
        if std > 0.0 then Some((series[i].value - Mean(t)) / std) else None
  }

  /** The running totals describe the present values of s. */
  predicate Tracks(count: int, total: real, totalSq: real, s: Series) {
    var t := Present(s);
    count == |t| && total == Sum(t) && totalSq == Dot(t, t)
  }

  lemma Enter(count: int, total: real, totalSq: real, s: Series, x: Option<real>)
    requires Tracks(count, total, totalSq, s)
    ensures x.None? ==> Tracks(count, total, totalSq, s + [x])
    ensures x.Some? ==> Tracks(count + 1, total + x.value, totalSq + Mul(x.value, x.value), s + [x])
  {
    PresentConcat(s, [x]);
    PresentSingleton(x);
    if x.Some? {
      SumSnoc(Present(s), x.value);
      DotSnoc(Present(s), Present(s), x.value, x.value);
    }
    assert Present(s) + [] == Present(s);
    hide Mul, Dot, Sum;
  }

  lemma Leave(count: int, total: real, totalSq: real, s: Series, x: Option<real>)
    requires Tracks(count, total, totalSq, [x] + s)
    ensures x.None? ==> Tracks(count, total, totalSq, s)
    ensures x.Some? ==> Tracks(count - 1, total - x.value, totalSq - Mul(x.value, x.value), s)
  {
    PresentConcat([x], s);
    PresentSingleton(x);
    if x.Some? {
      SumPrepend(x.value, Present(s));
      DotPrepend(x.value, x.value, Present(s), Present(s));
    }
    assert [] + Present(s) == Present(s);
    hide Mul, Dot, Sum;
  }

  /** What the kernel emits from the totals alone. */
  function ZScoreFromTotals(sqrt: real -> real, value: Option<real>, count: int, total: real, totalSq: real, minObs: int)
    : Option<real>
    requires IsSqrt(sqrt) && (value.Some? ==> count > 0)
  {
    if value.None? || count < minObs then None
    else
      var mean := total / count as real;
      var variance := totalSq / count as real - Mul(mean, mean);
      if variance <= 0.0 then None
      else
        RootSign(sqrt, variance);
        Some((value.value - mean) / sqrt(variance))
  }

  lemma RootSign(sqrt: real -> real, x: real)
    requires IsSqrt(sqrt) && x >= 0.0
    ensures sqrt(x) > 0.0 <==> x > 0.0
  {
    if sqrt(x) > 0.0 {
      MulPositive(sqrt(x), sqrt(x));
    }
  }

  /** The totals of the current window give exactly the naive answer. */
  lemma TotalsGiveNaive(sqrt: real -> real, series: Series, i: nat, window: nat, minObs: int,
                        count: int, total: real, totalSq: real)
    requires IsSqrt(sqrt) && window >= 1 && i < |series|
    requires Tracks(count, total, totalSq, Window(series, i, window))
    ensures series[i].Some? ==> count > 0
    ensures ZScoreFromTotals(sqrt, series[i], count, total, totalSq, minObs)
         == NaiveZScore(sqrt, series, i, window, minObs)
  {
    if series[i].Some? {
      var t := Trailing(series, i, window);
      CovarianceShortcut(t, t);
      VarianceSeparates(t);
      RootSign(sqrt, Variance(t));
      hide Dot, Sum, Variance, Covariance, IsSqrt, Mul;
    }
  }

  method RollingZScore(sqrt: real -> real, series: Series, window: nat, minObsOption: Option<int>)
    returns (out: Series)
    requires IsSqrt(sqrt) && window >= 1
    ensures |out| == |series|
    ensures forall i :: 0 <= i < |series| ==>
      out[i] == NaiveZScore(sqrt, series, i, window, MinObs(minObsOption, window))
  {
    hide *;
    var minObs := MinObs(minObsOption, window);
    out := seq(|series|, _ => None);
    var count, total, totalSq := 0, 0.0, 0.0;
    ghost var covered: Series := [];
    NothingTracked();
    for i := 0 to |series|
      invariant |out| == |series|
      invariant covered == Behind(series, i, window) && Tracks(count, total, totalSq, covered)
      invariant forall k :: 0 <= k < i ==> out[k] == NaiveZScore(sqrt, series, k, window, minObs)
    {
      var entering := series[i];
      Enter(count, total, totalSq, covered, entering);
      covered := covered + [entering];
      if entering.Some? {
        count := count + 1;
        total := total + entering.value;
        totalSq := totalSq + Mul(entering.value, entering.value);
      }
      WindowSlides(series, i, window);
      var left := i - window;
      if left >= 0 {
        var leaving := series[left];
        covered := Window(series, i, window);
        Leave(count, total, totalSq, covered, leaving);
        if leaving.Some? {
          count := count - 1;
          total := total - leaving.value;
          totalSq := totalSq - Mul(leaving.value, leaving.value);
        }
      }
      TotalsGiveNaive(sqrt, series, i, window, minObs, count, total, totalSq);
      out := out[i := ZScoreFromTotals(sqrt, series[i], count, total, totalSq, minObs)];
    }
  }

  lemma NothingTracked()
    ensures Tracks(0, 0.0, 0.0, [])
    ensures forall s: Series, window: nat :: window >= 1 ==> Behind(s, 0, window) == []
  {
  }

  /** Earlier outputs never depend on later bars. */
  lemma NoLookAhead(sqrt: real -> real, series: Series, more: Series, i: nat, window: nat, minObs: int)
    requires window >= 1 && i < |series|
    ensures NaiveZScore(sqrt, series + more, i, window, minObs) == NaiveZScore(sqrt, series, i, window, minObs)
  {
    WindowIgnoresLaterBars(series, more, i, window);
  }

  /** The guard skips only degenerate windows: an eligible bar is left out exactly when its window is constant. */
  lemma SkippedIffConstant(sqrt: real -> real, series: Series, i: nat, window: nat, minObs: int)
    requires IsSqrt(sqrt) && window >= 1 && i < |series|
    requires series[i].Some? && |Trailing(series, i, window)| >= minObs
    ensures var t := Trailing(series, i, window);
      NaiveZScore(sqrt, series, i, window, minObs).None? <==>
      forall j, k :: 0 <= j < |t| && 0 <= k < |t| ==> t[j] == t[k]
  {
    var t := Trailing(series, i, window);
    VarianceSeparates(t);
    RootSign(sqrt, Variance(t));
  }
}
