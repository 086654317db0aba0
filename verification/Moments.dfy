/** Means, deviations, and the shortcuts that running sums rely on, up to the Cauchy-Schwarz inequality. */
module Moments {
  import opened Vectors

  function Ones(n: nat): (v: Vector)
    ensures |v| == n
    ensures forall i :: 0 <= i < n ==> v[i] == 1.0
  {
    seq(n, _ => 1.0)
  }

  function Mean(t: Vector): real
    requires t != []
  {
    Sum(t) / |t| as real
  }

  /** Every value minus the mean. */
  function Deviations(t: Vector): (d: Vector)
    requires t != []
    ensures |d| == |t|
    ensures forall i :: 0 <= i < |t| ==> d[i] == t[i] - Mean(t)
  {
    seq(|t|, i requires 0 <= i < |t| => t[i] - Mean(t))
  }

  function MeanProduct(x: Vector, y: Vector): real
    requires x != [] && |x| == |y|
  {
    Dot(x, y) / |x| as real
  }

  /** The mean product of the deviations: the population covariance, and the variance on equal arguments. */
  function Covariance(x: Vector, y: Vector): real
    requires x != [] && |x| == |y|
  {
    MeanProduct(Deviations(x), Deviations(y))
  }

  function Variance(t: Vector): real
    requires t != []
  {
    Covariance(t, t)
  }

  lemma {:induction false} DotOnes(x: Vector)
    ensures Dot(x, Ones(|x|)) == Sum(x)
  {
    if x != [] {
      var n := |x| - 1;
      DotOnes(x[..n]);
      assert Ones(|x|)[..n] == Ones(n);
    }
  }

  lemma DeviationsAsAxpy(t: Vector)
    requires t != []
    ensures Deviations(t) == Axpy(t, -Mean(t), Ones(|t|))
  {
    MulByOneOnRight(-Mean(t));
    hide Mul, Mean;
  }

  lemma MulByOneOnRight(k: real)
    ensures Mul(k, 1.0) == k
  {
  }

  lemma MeanTimesCount(t: Vector)
    requires t != []
    ensures Mul(Mean(t), |t| as real) == Sum(t)
  {
  }

  lemma {:induction false} SumOfOnes(n: nat)
    ensures Sum(Ones(n)) == n as real
  {
    if n > 0 {
      SumOfOnes(n - 1);
      assert Ones(n)[..n - 1] == Ones(n - 1);
    }
  }

  lemma DeviationsSumToZero(t: Vector)
    requires t != []
    ensures Dot(Ones(|t|), Deviations(t)) == 0.0
  {
    var one := Ones(|t|);
    DeviationsAsAxpy(t);
    MeanTimesCount(t);
    SumOfOnes(|t|);
    DotOnes(t);
    DotOnes(one);
    MulSign(Mean(t), |t| as real);
    hide Mul, Dot, Mean, Deviations, Sum;
    DotSymmetric(one, Deviations(t));
    DotAxpy(t, -Mean(t), one, one);
  }

  lemma MulSign(x: real, y: real)
    ensures Mul(-x, y) == -Mul(x, y)
  {
  }

  /** The product of the deviations is the product of the values less n times the means. */
  lemma DeviationProduct(x: Vector, y: Vector)
    requires x != [] && |x| == |y|
    ensures Dot(Deviations(x), Deviations(y)) == Dot(x, y) - Mul(Mul(Mean(x), Mean(y)), |x| as real)
  {
    hide Mul, Dot, Mean, Deviations, Sum, Ones, Axpy;
    DeviationsAgainst(x, y);
    AgainstDeviations(x, y);
    MeanTimesCount(x);
    MulCommutes(Mean(x), Mean(y));
    MulAssociates(Mean(y), Mean(x), |x| as real);
  }

  /** Deviations sum to zero, so the first factor may be the plain values. */
  lemma DeviationsAgainst(x: Vector, y: Vector)
    requires x != [] && |x| == |y|
    ensures Dot(Deviations(x), Deviations(y)) == Dot(x, Deviations(y))
  {
    hide Mul, Dot, Mean, Deviations, Sum, Ones, Axpy;
    DeviationsAsAxpy(x);
    DeviationsSumToZero(y);
    DotAxpy(x, -Mean(x), Ones(|x|), Deviations(y));
    MulZero(-Mean(x));
  }

  lemma AgainstDeviations(x: Vector, y: Vector)
    requires x != [] && |x| == |y|
    ensures Dot(x, Deviations(y)) == Dot(x, y) - Mul(Mean(y), Sum(x))
  {
    hide Mul, Dot, Mean, Deviations, Sum, Ones, Axpy;
    DeviationsAsAxpy(y);
    DotSymmetric(x, Deviations(y));
    DotAxpy(y, -Mean(y), Ones(|y|), x);
    DotSymmetric(Ones(|y|), x);
    DotOnes(x);
    DotSymmetric(y, x);
    MulSign(Mean(y), Sum(x));
  }

  /** The shortcut: mean product minus product of means is the covariance. */
  lemma CovarianceShortcut(x: Vector, y: Vector)
    requires x != [] && |x| == |y|
    ensures MeanProduct(x, y) - Mul(Mean(x), Mean(y)) == Covariance(x, y)
  {
    var m := Mul(Mean(x), Mean(y));
    DeviationProduct(x, y);
    QuotientOfDifference(Dot(x, y), m, |x| as real);
    hide Dot, Mean, Deviations, Mul;
  }

  lemma QuotientOfDifference(p: real, m: real, n: real)
    requires n > 0.0
    ensures (p - Mul(m, n)) / n == p / n - m
  {
  }

  /** The variance is never negative, and zero exactly when all values are equal. */
  lemma VarianceSeparates(t: Vector)
    requires t != []
    ensures Variance(t) >= 0.0
    ensures Variance(t) == 0.0 <==> forall i, j :: 0 <= i < |t| && 0 <= j < |t| ==> t[i] == t[j]
  {
    hide Dot, Sum, Mean, Deviations, Variance, Covariance;
    var d := Deviations(t);
    SquaresNonNegative(d);
    VarianceIsMeanSquare(t);
    if Variance(t) == 0.0 {
      forall i, j | 0 <= i < |t| && 0 <= j < |t| ensures t[i] == t[j] {
        ZeroSquares(d, i);
        ZeroSquares(d, j);
      }
    }
    if forall i, j :: 0 <= i < |t| && 0 <= j < |t| ==> t[i] == t[j] {
      ConstantMean(t);
      DotZero(d, d);
    }
  }

  lemma VarianceIsMeanSquare(t: Vector)
    requires t != []
    ensures var q := Dot(Deviations(t), Deviations(t));
      (q >= 0.0 ==> Variance(t) >= 0.0) && (Variance(t) == 0.0 <==> q == 0.0)
  {
    hide Dot, Deviations;
    var q := Dot(Deviations(t), Deviations(t));
    assert Variance(t) * |t| as real == q;
  }

  lemma ConstantMean(t: Vector)
    requires t != [] && forall i, j :: 0 <= i < |t| && 0 <= j < |t| ==> t[i] == t[j]
    ensures forall i :: 0 <= i < |t| ==> t[i] == Mean(t)
  {
    ConstantSum(t, t[0]);
    hide Sum;
    assert Mean(t) == t[0];
  }

  lemma {:induction false} ConstantSum(t: Vector, c: real)
    requires forall i :: 0 <= i < |t| ==> t[i] == c
    ensures Sum(t) == c * |t| as real
  {
    if t != [] {
      ConstantSum(t[..|t| - 1], c);
    }
  }

  lemma NothingToBound(u: Vector, v: Vector)
    requires |u| == |v| && Dot(u, u) == 0.0
    ensures Square(Dot(u, v)) <= Dot(u, u) * Dot(v, v)
  {
    forall i | 0 <= i < |u| ensures u[i] == 0.0 {
      ZeroSquares(u, i);
    }
    DotZero(u, v);
    hide Dot;
  }

  /** Cauchy-Schwarz. */
  lemma CauchySchwarz(u: Vector, v: Vector)
    requires |u| == |v|
    ensures Square(Dot(u, v)) <= Dot(u, u) * Dot(v, v)
  {
    hide Dot, Square, Axpy;
    var uu, uv := Dot(u, u), Dot(u, v);
    SquaresNonNegative(u);
    if uu == 0.0 {
      NothingToBound(u, v);
    } else {
      var k := uv / uu;
      var w := Axpy(v, -k, u);
      SquaresNonNegative(w);
      SquareOfAxpy(v, -k, u);
      DotSymmetric(v, u);
      CompleteSquare(uu, uv, Dot(v, v), k, Dot(w, w));
    }
  }

  lemma SquareOfAxpy(a: Vector, k: real, b: Vector)
    requires |a| == |b|
    ensures Dot(Axpy(a, k, b), Axpy(a, k, b)) == Dot(a, a) + 2.0 * Mul(k, Dot(a, b)) + Mul(k, Mul(k, Dot(b, b)))
  {
    hide Mul, Dot, Axpy;
    var s := Axpy(a, k, b);
    DotAxpy(a, k, b, s);
    DotSymmetric(a, s);
    DotSymmetric(b, s);
    DotAxpy(a, k, b, a);
    DotAxpy(a, k, b, b);
    DotSymmetric(b, a);
    MulDistributes(k, Dot(a, b), Mul(k, Dot(b, b)));
  }

  lemma CompleteSquare(uu: real, uv: real, vv: real, k: real, ww: real)
    requires uu > 0.0 && k == uv / uu && ww >= 0.0
    requires ww == vv + 2.0 * Mul(-k, uv) + Mul(-k, Mul(-k, uu))
    ensures Square(uv) <= uu * vv
  {
    assert uv == k * uu;
    assert ww == vv - k * uv;
    assert ww * uu >= 0.0;
    assert ww * uu == vv * uu - k * uu * uv;
  }
}
