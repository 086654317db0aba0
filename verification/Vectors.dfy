/** Exact real vectors: the dot product, sums, and the few linear facts the numerical cores need. */
module Vectors {

  type Vector = seq<real>

  function Abs(x: real): real {
    if x < 0.0 then -x else x
  }

  function Square(x: real): real {
    x * x
  }

  /** What the model knows of the square root: the nonnegative root of a nonnegative number. */
  ghost predicate IsSqrt(sqrt: real -> real) {
    forall x: real :: x >= 0.0 ==> sqrt(x) >= 0.0 && Square(sqrt(x)) == x
  }

  /** The product, under a name: proofs about vectors hide it and use the four laws below instead. */
  function Mul(x: real, y: real): real {
    x * y
  }

  lemma MulCommutes(x: real, y: real)
    ensures Mul(x, y) == Mul(y, x)
  {
  }

  lemma MulDistributes(k: real, x: real, y: real)
    ensures Mul(k, x + y) == Mul(k, x) + Mul(k, y)
    ensures Mul(k, x - y) == Mul(k, x) - Mul(k, y)
  {
  }

  lemma MulAssociates(x: real, y: real, z: real)
    ensures Mul(Mul(x, y), z) == Mul(x, Mul(y, z))
  {
  }

  lemma MulMonotone(k: real, x: real, y: real)
    requires k >= 0.0 && x <= y
    ensures Mul(k, x) <= Mul(k, y)
  {
  }

  lemma MulPositive(x: real, y: real)
    requires x > 0.0 && y > 0.0
    ensures Mul(x, y) > 0.0
  {
  }

  /** The sum of a sequence, accumulated left to right as a loop would. */
  function Sum(s: Vector): real {
    if s == [] then 0.0 else Sum(s[..|s| - 1]) + s[|s| - 1]
  }

  function Dot(a: Vector, b: Vector): real
    requires |a| == |b|
  {
    if a == [] then 0.0
    else Dot(a[..|a| - 1], b[..|b| - 1]) + Mul(a[|a| - 1], b[|b| - 1])
  }

  /** a + k * b */
  function Axpy(a: Vector, k: real, b: Vector): (v: Vector)
    requires |a| == |b|
    ensures |v| == |a|
    ensures forall i :: 0 <= i < |a| ==> v[i] == a[i] + Mul(k, b[i])
  {
    seq(|a|, i requires 0 <= i < |a| => a[i] + Mul(k, b[i]))
  }

  lemma {:induction false} DotAxpy(a: Vector, k: real, b: Vector, y: Vector)
    requires |a| == |b| == |y|
    ensures Dot(Axpy(a, k, b), y) == Dot(a, y) + Mul(k, Dot(b, y))
  {
    hide Mul;
    if a == [] {
      MulZero(k);
    } else {
      var n := |a| - 1;
      DotAxpy(a[..n], k, b[..n], y[..n]);
      assert Axpy(a, k, b)[..n] == Axpy(a[..n], k, b[..n]);
      MulDistributes(y[n], a[n], Mul(k, b[n]));
      MulCommutes(y[n], a[n]);
      MulCommutes(y[n], Mul(k, b[n]));
      MulCommutes(y[n], Axpy(a, k, b)[n]);
      MulAssociates(k, b[n], y[n]);
      MulDistributes(k, Dot(b[..n], y[..n]), Mul(b[n], y[n]));
    }
  }

  lemma MulZero(k: real)
    ensures Mul(k, 0.0) == 0.0 && Mul(0.0, k) == 0.0
  {
  }

  lemma {:induction false} DotSymmetric(a: Vector, b: Vector)
    requires |a| == |b|
    ensures Dot(a, b) == Dot(b, a)
  {
    if a != [] {
      MulCommutes(a[|a| - 1], b[|a| - 1]);
      hide Mul;
      DotSymmetric(a[..|a| - 1], b[..|b| - 1]);
    }
  }

  /** A vector whose products with y are nonzero in at most the positions p and q. */
  lemma {:induction false} DotSparse(a: Vector, y: Vector, p: nat, q: nat)
    requires |a| == |y|
    requires p < q < |a|
    requires forall j :: 0 <= j < |a| && j != p && j != q ==> a[j] == 0.0 || y[j] == 0.0
    ensures Dot(a, y) == Mul(a[p], y[p]) + Mul(a[q], y[q])
  {
    var n := |a| - 1;
    if n == q {
      DotSingle(a[..n], y[..n], p);
    } else {
      DotSparse(a[..n], y[..n], p, q);
      assert Mul(a[n], y[n]) == 0.0;
    }
  }

  lemma {:induction false} DotSingle(a: Vector, y: Vector, p: nat)
    requires |a| == |y|
    requires p < |a|
    requires forall j :: 0 <= j < |a| && j != p ==> a[j] == 0.0 || y[j] == 0.0
    ensures Dot(a, y) == Mul(a[p], y[p])
  {
    var n := |a| - 1;
    if n == p {
      DotZero(a[..n], y[..n]);
    } else {
      DotSingle(a[..n], y[..n], p);
      assert Mul(a[n], y[n]) == 0.0;
    }
  }

  lemma {:induction false} DotZero(a: Vector, y: Vector)
    requires |a| == |y|
    requires forall j :: 0 <= j < |a| ==> a[j] == 0.0 || y[j] == 0.0
    ensures Dot(a, y) == 0.0
  {
    if a != [] {
      var n := |a| - 1;
      DotZero(a[..n], y[..n]);
      assert Mul(a[n], y[n]) == 0.0;
    }
  }

  /** Dot(x, x) is a sum of squares: it dominates every single square in it. */
  lemma {:induction false} SquaresDominate(x: Vector, p: nat)
    requires p < |x|
    ensures Dot(x, x) >= Square(x[p])
  {
    var n := |x| - 1;
    SquaresNonNegative(x[..n]);
    if p < n {
      SquaresDominate(x[..n], p);
      assert Square(x[n]) >= 0.0;
    }
  }

  lemma {:induction false} SquaresNonNegative(x: Vector)
    ensures Dot(x, x) >= 0.0
  {
    if x != [] {
      var n := |x| - 1;
      SquaresNonNegative(x[..n]);
      assert Square(x[n]) >= 0.0;
    }
  }

  lemma ZeroSquares(d: Vector, i: nat)
    requires i < |d| && Dot(d, d) == 0.0
    ensures d[i] == 0.0
  {
    SquaresDominate(d, i);
    if d[i] > 0.0 {
      MulPositive(d[i], d[i]);
    } else if d[i] < 0.0 {
      MulPositive(-d[i], -d[i]);
    }
  }

  lemma {:induction false} SumNonNegative(s: Vector)
    requires forall i :: 0 <= i < |s| ==> s[i] >= 0.0
    ensures Sum(s) >= 0.0
  {
    if s != [] {
      SumNonNegative(s[..|s| - 1]);
    }
  }

  lemma {:induction false} SumAppend(a: Vector, b: Vector)
    ensures Sum(a + b) == Sum(a) + Sum(b)
  {
    if b == [] {
      assert a + b == a;
    } else {
      SumAppend(a, b[..|b| - 1]);
      assert (a + b)[..|a + b| - 1] == a + b[..|b| - 1];
    }
  }

  function Scaled(k: real, x: Vector): (v: Vector)
    ensures |v| == |x|
    ensures forall i :: 0 <= i < |x| ==> v[i] == Mul(k, x[i])
  {
    seq(|x|, i requires 0 <= i < |x| => Mul(k, x[i]))
  }

  lemma {:induction false} DotScaled(k: real, x: Vector, y: Vector)
    requires |x| == |y|
    ensures Dot(Scaled(k, x), y) == Mul(k, Dot(x, y))
  {
    hide Mul;
    if x == [] {
      MulZero(k);
    } else {
      var n := |x| - 1;
      DotScaled(k, x[..n], y[..n]);
      assert Scaled(k, x)[..n] == Scaled(k, x[..n]);
      MulAssociates(k, x[n], y[n]);
      MulDistributes(k, Dot(x[..n], y[..n]), Mul(x[n], y[n]));
    }
  }

  function Zeros(n: nat): (v: Vector)
    ensures |v| == n
    ensures forall i :: 0 <= i < n ==> v[i] == 0.0
  {
    seq(n, _ => 0.0)
  }

  predicate Aligned(columns: seq<Vector>, n: nat) {
    forall a :: 0 <= a < |columns| ==> |columns[a]| == n
  }

  /** The linear combination of the columns with the given coefficients. */
  function Combine(columns: seq<Vector>, coefs: Vector, n: nat): (v: Vector)
    requires |columns| == |coefs| && Aligned(columns, n)
    ensures |v| == n
  {
    if columns == [] then Zeros(n)
    else
      var k := |columns| - 1;
      Axpy(Combine(columns[..k], coefs[..k], n), coefs[k], columns[k])
  }

  /** The products of every column with v. */
  function Products(columns: seq<Vector>, v: Vector): (p: Vector)
    requires Aligned(columns, |v|)
    ensures |p| == |columns|
    ensures forall a :: 0 <= a < |columns| ==> p[a] == Dot(columns[a], v)
  {
    seq(|columns|, a requires 0 <= a < |columns| => Dot(columns[a], v))
  }

  /** The product with a combination is the combination of the products. */
  lemma {:induction false} DotCombine(columns: seq<Vector>, coefs: Vector, v: Vector)
    requires |columns| == |coefs| && Aligned(columns, |v|)
    ensures Dot(Combine(columns, coefs, |v|), v) == Dot(Products(columns, v), coefs)
  {
    if columns == [] {
      DotZero(Zeros(|v|), v);
    } else {
      hide Mul;
      var k := |columns| - 1;
      DotCombine(columns[..k], coefs[..k], v);
      DotAxpy(Combine(columns[..k], coefs[..k], |v|), coefs[k], columns[k], v);
      MulCommutes(coefs[k], Dot(columns[k], v));
      assert Products(columns, v)[..k] == Products(columns[..k], v);
    }
  }

  lemma {:induction false} CombineAdd(columns: seq<Vector>, b: Vector, d: Vector, n: nat)
    requires |columns| == |b| == |d| && Aligned(columns, n)
    ensures Combine(columns, Axpy(b, 1.0, d), n) == Axpy(Combine(columns, b, n), 1.0, Combine(columns, d, n))
  {
    MulByOne();
    hide Mul;
    if columns != [] {
      var k := |columns| - 1;
      var s := Axpy(b, 1.0, d);
      CombineAdd(columns[..k], b[..k], d[..k], n);
      assert s[..k] == Axpy(b[..k], 1.0, d[..k]);
      forall i | 0 <= i < n
        ensures Combine(columns, s, n)[i] == Combine(columns, b, n)[i] + Combine(columns, d, n)[i]
      {
        MulDistributes(columns[k][i], b[k], d[k]);
        MulCommutes(columns[k][i], b[k] + d[k]);
        MulCommutes(columns[k][i], b[k]);
        MulCommutes(columns[k][i], d[k]);
      }
    }
  }

  lemma MulByOne()
    ensures forall x :: Mul(1.0, x) == x
    ensures forall x :: Mul(-1.0, x) == -x
  {
  }

  /** |a + b|^2 = |a|^2 + 2 a.b + |b|^2 */
  lemma SquareOfSum(a: Vector, b: Vector)
    requires |a| == |b|
    ensures Dot(Axpy(a, 1.0, b), Axpy(a, 1.0, b)) == Dot(a, a) + 2.0 * Dot(a, b) + Dot(b, b)
  {
    MulByOne();
    hide Mul, Dot, Axpy;
    var s := Axpy(a, 1.0, b);
    DotAxpy(a, 1.0, b, s);
    DotSymmetric(a, s);
    DotSymmetric(b, s);
    DotAxpy(a, 1.0, b, a);
    DotAxpy(a, 1.0, b, b);
    DotSymmetric(b, a);
  }

  /** |a - b|^2 = |a|^2 - 2 a.b + |b|^2 */
  lemma SquareOfDifference(a: Vector, b: Vector)
    requires |a| == |b|
    ensures Dot(Axpy(a, -1.0, b), Axpy(a, -1.0, b)) == Dot(a, a) - 2.0 * Dot(a, b) + Dot(b, b)
  {
    MulByOne();
    hide Mul, Dot, Axpy;
    var s := Axpy(a, -1.0, b);
    DotAxpy(a, -1.0, b, s);
    DotSymmetric(a, s);
    DotSymmetric(b, s);
    DotAxpy(a, -1.0, b, a);
    DotAxpy(a, -1.0, b, b);
    DotSymmetric(b, a);
  }
}
