/**
  The rolling correlation kernel: five running sums and a gap count over the paired window, against
  the definition by a fresh scan, with Cauchy-Schwarz showing that the clamp is inert.
 */
module RollingCorrelation {
  import opened Vectors
  import opened Wrappers
  import opened Moments
  import opened RollingWindows

  type Pair = (real, real)

  /** The values of the bars present on both sides, in order. */
  function Pairs(a: Series, b: Series): (p: seq<Pair>)
    requires |a| == |b|
    ensures |p| <= |a|
  {
    if a == [] then []
    else
      var n := |a| - 1;
      Pairs(a[..n], b[..n]) + if a[n].Some? && b[n].Some? then [(a[n].value, b[n].value)] else []
  }

  function Xs(p: seq<Pair>): (x: Vector)
    ensures |x| == |p|
  {
    seq(|p|, i requires 0 <= i < |p| => p[i].0)
  }

  function Ys(p: seq<Pair>): (y: Vector)
    ensures |y| == |p|
  {
    seq(|p|, i requires 0 <= i < |p| => p[i].1)
  }

  lemma {:induction false} PairsConcat(a: Series, b: Series, c: Series, d: Series)
    requires |a| == |b| && |c| == |d|
    ensures Pairs(a + c, b + d) == Pairs(a, b) + Pairs(c, d)
  {
    PairsUnfold(c, d);
    PairsUnfold(a + c, b + d);
    hide Pairs;
    if c == [] {
      assert a + c == a && b + d == b;
    } else {
      var n := |c| - 1;
      PairsConcat(a, b, c[..n], d[..n]);
      assert (a + c)[..|a + c| - 1] == a + c[..n] && (b + d)[..|b + d| - 1] == b + d[..n];
    }
  }

  lemma PairsUnfold(a: Series, b: Series)
    requires |a| == |b|
    ensures a == [] ==> Pairs(a, b) == []
    ensures a != [] ==> var n := |a| - 1;
      Pairs(a, b) == Pairs(a[..n], b[..n]) + if a[n].Some? && b[n].Some? then [(a[n].value, b[n].value)] else []
  {
  }

  lemma PairSingleton(x: Option<real>, y: Option<real>)
    ensures Pairs([x], [y]) == if x.Some? && y.Some? then [(x.value, y.value)] else []
  {
    assert [x][..0] == [] && [y][..0] == [];
  }

  // ----- the definition -----

  function Clamp(x: real): (r: real)
    ensures -1.0 <= r <= 1.0 && (r == x || (x < -1.0 && r == -1.0) || (x > 1.0 && r == 1.0))
  {
    if x > 1.0 then 1.0 else if x < -1.0 then -1.0 else x
  }

  function Pearson(sqrt: real -> real, x: Vector, y: Vector): Option<real>
    requires IsSqrt(sqrt) && x != [] && |x| == |y|
  {
    FromMoments(sqrt, Variance(x), Variance(y), Covariance(x, y))
  }

  function FromMoments(sqrt: real -> real, varX: real, varY: real, cov: real): Option<real>
    requires IsSqrt(sqrt)
  {
    if varX <= 0.0 || varY <= 0.0 then None else Some(Clamp(Ratio(sqrt, varX, varY, cov)))
  }

  function Ratio(sqrt: real -> real, varX: real, varY: real, cov: real): real
    requires IsSqrt(sqrt) && varX > 0.0 && varY > 0.0
  {
    cov / sqrt(varX * varY)
  }

  /** The definition the kernel replaced: a full window of pairs, and both sides varying. */
  function NaiveCorrelation(sqrt: real -> real, a: Series, b: Series, i: nat, window: nat): Option<real>
    requires IsSqrt(sqrt) && window >= 1 && i < |a| && i < |b|
  {
    if i < window - 1 then None
    else
      var pairs := Pairs(Window(a, i, window), Window(b, i, window));
      if |pairs| < window then None else Pearson(sqrt, Xs(pairs), Ys(pairs))
  }

  // ----- the running sums -----

  datatype Totals = Totals(gaps: int, sx: real, sy: real, sxx: real, syy: real, sxy: real)

  predicate Tracks(s: Totals, a: Series, b: Series)
    requires |a| == |b|
  {
    var pairs := Pairs(a, b);
    var x, y := Xs(pairs), Ys(pairs);
    && s.gaps == |a| - |pairs|
    && s.sx == Sum(x) && s.sy == Sum(y)
    && s.sxx == Dot(x, x) && s.syy == Dot(y, y) && s.sxy == Dot(x, y)
  }

  function Add(s: Totals, x: Option<real>, y: Option<real>): Totals {
    if x.None? || y.None? then s.(gaps := s.gaps + 1)
    else
      var u, v := x.value, y.value;
      Totals(s.gaps, s.sx + u, s.sy + v, s.sxx + Mul(u, u), s.syy + Mul(v, v), s.sxy + Mul(u, v))
  }

  function Remove(s: Totals, x: Option<real>, y: Option<real>): Totals {
    if x.None? || y.None? then s.(gaps := s.gaps - 1)
    else
      var u, v := x.value, y.value;
      Totals(s.gaps, s.sx - u, s.sy - v, s.sxx - Mul(u, u), s.syy - Mul(v, v), s.sxy - Mul(u, v))
  }

  lemma AddTracks(s: Totals, a: Series, b: Series, x: Option<real>, y: Option<real>)
    requires |a| == |b| && Tracks(s, a, b)
    ensures Tracks(Add(s, x, y), a + [x], b + [y])
  {
    hide Pairs, Dot, Sum, Mul;
    PairsConcat(a, b, [x], [y]);
    PairSingleton(x, y);
    var before, after := Pairs(a, b), Pairs(a + [x], b + [y]);
    if x.Some? && y.Some? {
      var p, q := Xs(before), Ys(before);
      assert Xs(after) == p + [x.value] && Ys(after) == q + [y.value];
      SumSnoc(p, x.value);
      SumSnoc(q, y.value);
      DotSnoc(p, p, x.value, x.value);
      DotSnoc(q, q, y.value, y.value);
      DotSnoc(p, q, x.value, y.value);
    } else {
      assert after == before;
    }
  }

  lemma RemoveTracks(s: Totals, a: Series, b: Series, x: Option<real>, y: Option<real>)
    requires |a| == |b| && Tracks(s, [x] + a, [y] + b)
    ensures Tracks(Remove(s, x, y), a, b)
  {
    hide Pairs, Dot, Sum, Mul;
    PairsConcat([x], [y], a, b);
    PairSingleton(x, y);
    var before, after := Pairs([x] + a, [y] + b), Pairs(a, b);
    if x.Some? && y.Some? {
      var p, q := Xs(after), Ys(after);
      assert Xs(before) == [x.value] + p && Ys(before) == [y.value] + q;
      SumPrepend(x.value, p);
      SumPrepend(y.value, q);
      DotPrepend(x.value, x.value, p, p);
      DotPrepend(y.value, y.value, q, q);
      DotPrepend(x.value, y.value, p, q);
    } else {
      assert after == before;
    }
  }

  /** What the kernel emits from the sums alone. */
  function FromTotals(sqrt: real -> real, s: Totals, i: nat, window: nat): Option<real>
    requires IsSqrt(sqrt) && window >= 1
  {
    if i < window - 1 || s.gaps > 0 then None
    else
      var w := window as real;
      var meanX, meanY := s.sx / w, s.sy / w;
      var varX := s.sxx / w - Mul(meanX, meanX);
      var varY := s.syy / w - Mul(meanY, meanY);
      var cov := s.sxy / w - Mul(meanX, meanY);
      FromMoments(sqrt, varX, varY, cov)
  }

  lemma TotalsGiveNaive(sqrt: real -> real, s: Totals, a: Series, b: Series, i: nat, window: nat)
    requires IsSqrt(sqrt) && window >= 1 && i < |a| && i < |b|
    requires Tracks(s, Window(a, i, window), Window(b, i, window))
    ensures FromTotals(sqrt, s, i, window) == NaiveCorrelation(sqrt, a, b, i, window)
  {
    if i >= window - 1 {
      var pairs := Pairs(Window(a, i, window), Window(b, i, window));
      var x, y := Xs(pairs), Ys(pairs);
      assert |Window(a, i, window)| == window;
      if |pairs| == window {
        CovarianceShortcut(x, x);
        CovarianceShortcut(y, y);
        CovarianceShortcut(x, y);
        hide Pairs, Dot, Sum, Mul, Covariance, FromMoments, IsSqrt;
      }
    }
  }

  method RollingCorrelation(sqrt: real -> real, a: Series, b: Series, window: nat) returns (out: Series)
    requires IsSqrt(sqrt) && window >= 1
    ensures |out| == if |a| < |b| then |a| else |b|
    ensures forall i :: 0 <= i < |out| ==> out[i] == NaiveCorrelation(sqrt, a, b, i, window)
  {
    hide *;
    var n := if |a| < |b| then |a| else |b|;
    out := seq(n, _ => None);
    var s := Totals(0, 0.0, 0.0, 0.0, 0.0, 0.0);
    NothingTracked();
    ghost var p: Series, q: Series := [], [];
    for i := 0 to n
      invariant |out| == n && |p| == |q|
      invariant p == Behind(a, i, window) && q == Behind(b, i, window)
      invariant Tracks(s, p, q)
      invariant forall k :: 0 <= k < i ==> out[k] == NaiveCorrelation(sqrt, a, b, k, window)
    {
      AddTracks(s, p, q, a[i], b[i]);
      s := Add(s, a[i], b[i]);
      p, q := p + [a[i]], q + [b[i]];
      var left := i - window;
      WindowSlides(a, i, window);
      WindowSlides(b, i, window);
      if left >= 0 {
        p, q := Window(a, i, window), Window(b, i, window);
        RemoveTracks(s, p, q, a[left], b[left]);
        s := Remove(s, a[left], b[left]);
      }
      TotalsGiveNaive(sqrt, s, a, b, i, window);
      out := out[i := FromTotals(sqrt, s, i, window)];
    }
  }

  lemma NothingTracked()
    ensures Tracks(Totals(0, 0.0, 0.0, 0.0, 0.0, 0.0), [], [])
    ensures forall s: Series, window: nat :: window >= 1 ==> Behind(s, 0, window) == []
  {
  }

  // ----- what the definition says -----

  /** No bar of either window is missing. */
  predicate GapFree(a: Series, b: Series)
    requires |a| == |b|
  {
    forall k :: 0 <= k < |a| ==> a[k].Some? && b[k].Some?
  }

  lemma {:induction false} FullPairs(a: Series, b: Series)
    requires |a| == |b|
    ensures |Pairs(a, b)| == |a| <==> GapFree(a, b)
    ensures GapFree(a, b) ==> forall k :: 0 <= k < |a| ==> Pairs(a, b)[k] == (a[k].value, b[k].value)
  {
    if a != [] {
      var n := |a| - 1;
      FullPairs(a[..n], b[..n]);
      if GapFree(a[..n], b[..n]) && a[n].Some? && b[n].Some? {
        forall k | 0 <= k < |a| ensures a[k].Some? && b[k].Some? {
          assert k < n ==> a[..n][k] == a[k] && b[..n][k] == b[k];
        }
      }
      if GapFree(a, b) {
        assert GapFree(a[..n], b[..n]);
      }
    }
  }

  /** A value appears exactly when the window is full and gap-free and neither side is constant on it. */
  lemma EmitsExactlyWhen(sqrt: real -> real, a: Series, b: Series, i: nat, window: nat)
    requires IsSqrt(sqrt) && window >= 1 && i < |a| && i < |b|
    ensures var u, v := Window(a, i, window), Window(b, i, window);
      NaiveCorrelation(sqrt, a, b, i, window).Some? <==>
      i >= window - 1 && GapFree(u, v)
      && (exists j, k :: 0 <= j < |u| && 0 <= k < |u| && u[j] != u[k])
      && (exists j, k :: 0 <= j < |v| && 0 <= k < |v| && v[j] != v[k])
  {
    var u, v := Window(a, i, window), Window(b, i, window);
    FullPairs(u, v);
    if i >= window - 1 && GapFree(u, v) {
      Varies(u, Xs(Pairs(u, v)));
      Varies(v, Ys(Pairs(u, v)));
      hide Pairs, Variance;
    }
  }

  lemma Varies(u: Series, x: Vector)
    requires x != [] && |u| == |x| && forall k :: 0 <= k < |u| ==> u[k] == Some(x[k])
    ensures Variance(x) > 0.0 <==> exists j, k :: 0 <= j < |u| && 0 <= k < |u| && u[j] != u[k]
  {
    VarianceSeparates(x);
    hide Variance;
    if !(Variance(x) > 0.0) {
      forall j, k | 0 <= j < |u| && 0 <= k < |u| ensures u[j] == u[k] {
        assert x[j] == x[k];
      }
    } else {
      var j, k :| 0 <= j < |x| && 0 <= k < |x| && x[j] != x[k];
      assert u[j] != u[k];
    }
  }

  /** The quotient is already in -1..1, so the clamp never changes a result. */
  lemma ClampIsInert(sqrt: real -> real, x: Vector, y: Vector)
    requires IsSqrt(sqrt) && x != [] && |x| == |y| && Variance(x) > 0.0 && Variance(y) > 0.0
    ensures Pearson(sqrt, x, y) == Some(Ratio(sqrt, Variance(x), Variance(y), Covariance(x, y)))
    ensures -1.0 <= Ratio(sqrt, Variance(x), Variance(y), Covariance(x, y)) <= 1.0
  {
    CovarianceBound(x, y);
    hide Variance, Covariance, IsSqrt, Ratio;
    RatioIsBounded(sqrt, Variance(x), Variance(y), Covariance(x, y));
  }

  lemma RatioIsBounded(sqrt: real -> real, varX: real, varY: real, cov: real)
    requires IsSqrt(sqrt) && varX > 0.0 && varY > 0.0 && Square(cov) <= Mul(varX, varY)
    ensures -1.0 <= Ratio(sqrt, varX, varY, cov) <= 1.0
  {
    RatioInRange(cov, sqrt(varX * varY));
  }

  lemma CovarianceBound(x: Vector, y: Vector)
    requires x != [] && |x| == |y|
    ensures Square(Covariance(x, y)) <= Mul(Variance(x), Variance(y))
  {
    var u, v := Deviations(x), Deviations(y);
    CauchySchwarz(u, v);
    MeanBound(u, v);
    hide MeanProduct, Dot, Deviations;
  }

  lemma MeanBound(u: Vector, v: Vector)
    requires u != [] && |u| == |v| && Square(Dot(u, v)) <= Dot(u, u) * Dot(v, v)
    ensures Square(MeanProduct(u, v)) <= MeanProduct(u, u) * MeanProduct(v, v)
  {
    ScaledSquares(Dot(u, v), Dot(u, u), Dot(v, v), |u| as real);
  }

  lemma ScaledSquares(uv: real, uu: real, vv: real, n: real)
    requires Square(uv) <= uu * vv && n > 0.0
    ensures Square(uv / n) <= (uu / n) * (vv / n)
  {
    var a, b, c := uv / n, uu / n, vv / n;
    assert a * n == uv && b * n == uu && c * n == vv;
    assert (b * c - a * a) * (n * n) >= 0.0 by {
      assert (b * c) * (n * n) == uu * vv;
      assert (a * a) * (n * n) == uv * uv;
    }
    MulPositive(n, n);
    if b * c - a * a < 0.0 {
      MulPositive(a * a - b * c, n * n);
    }
  }

  lemma RatioInRange(c: real, r: real)
    requires r > 0.0 && Square(c) <= Square(r)
    ensures -1.0 <= c / r <= 1.0
  {
    if c > r {
      MulPositive(c - r, c + r);
    } else if c < -r {
      MulPositive(-c - r, r - c);
    }
  }
}
