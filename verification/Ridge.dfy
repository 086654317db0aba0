/**
  Ridge regression through its normal equations. The solver never meets a pivot below its threshold
  here, so the coefficients are the unique minimiser of the penalised squared error.
 */
module Ridge {
  import opened Vectors
  import opened LinearSolve

  function GramEntry(columns: seq<Vector>, a: nat, b: nat, n: nat, lam: real): real
    requires Aligned(columns, n) && n > 0 && a < |columns| && b < |columns|
  {
    Dot(columns[a], columns[b]) / n as real + if a == b then lam / n as real else 0.0
  }

  function GramRow(columns: seq<Vector>, a: nat, n: nat, lam: real): (v: Vector)
    requires Aligned(columns, n) && n > 0 && a < |columns|
    ensures |v| == |columns|
  {
    seq(|columns|, b requires 0 <= b < |columns| => GramEntry(columns, a, b, n, lam))
  }

  function Gram(columns: seq<Vector>, n: nat, lam: real): (m: Matrix)
    requires Aligned(columns, n) && n > 0
    ensures |m| == |columns|
    ensures forall a :: 0 <= a < |m| ==> m[a] == GramRow(columns, a, n, lam)
  {
    seq(|columns|, a requires 0 <= a < |columns| => GramRow(columns, a, n, lam))
  }

  function Moments(columns: seq<Vector>, target: Vector): (v: Vector)
    requires Aligned(columns, |target|) && |target| > 0
    ensures |v| == |columns|
    ensures forall a :: 0 <= a < |v| ==> v[a] == Dot(columns[a], target) / |target| as real
  {
    seq(|columns|, a requires 0 <= a < |columns| => Dot(columns[a], target) / |target| as real)
  }

  function NormalEquations(columns: seq<Vector>, target: Vector, lam: real): (m: Matrix)
    requires Aligned(columns, |target|) && |target| > 0
    ensures |m| == |columns| && IsAugmented(m)
  {
    Augment(Gram(columns, |target|, lam), Moments(columns, target))
  }

  function Residual(columns: seq<Vector>, target: Vector, coefs: Vector): (e: Vector)
    requires Aligned(columns, |target|) && |coefs| == |columns|
    ensures |e| == |target|
  {
    Axpy(target, -1.0, Combine(columns, coefs, |target|))
  }

  /** n times the objective: the squared residuals plus the penalty. */
  function Energy(columns: seq<Vector>, target: Vector, lam: real, coefs: Vector): real
    requires Aligned(columns, |target|) && |coefs| == |columns|
  {
    var e := Residual(columns, target, coefs);
    Dot(e, e) + Mul(lam, Dot(coefs, coefs))
  }

  /** Mean squared residual plus (lam / n) times the sum of the squared coefficients. */
  function Objective(columns: seq<Vector>, target: Vector, lam: real, coefs: Vector): real
    requires Aligned(columns, |target|) && |coefs| == |columns| && |target| > 0
  {
    Energy(columns, target, lam, coefs) / |target| as real
  }

  /** Large enough a penalty for the pivot threshold never to be hit. */
  predicate WellPenalised(k: nat, n: nat, lam: real) {
    2.0 * lam > PIVOT_EPSILON * (k + 1) as real * n as real
  }

  /**
    With no pivot below the threshold the fit beats every other coefficient vector, and with a penalty above
    the tiny bound that is so whatever the columns, collinear ones included.
   */
  method RidgeFit(columns: seq<Vector>, target: Vector, lam: real) returns (coefs: Vector)
    requires |target| > 0 && Aligned(columns, |target|)
    ensures coefs == Solution(NormalEquations(columns, target, lam))
    ensures lam >= 0.0 && (Regular(NormalEquations(columns, target, lam)) || WellPenalised(|columns|, |target|, lam)) ==>
      forall b: Vector :: |b| == |columns| && b != coefs ==>
        Objective(columns, target, lam, coefs) < Objective(columns, target, lam, b)
  {
    IsNormalEquations(columns, target, lam);
    coefs := Solve(Gram(columns, |target|, lam), Moments(columns, target));
    hide *;
    if WellPenalised(|columns|, |target|, lam) {
      PenaltyMakesRegular(columns, target, lam);
    }
    if lam >= 0.0 && Regular(NormalEquations(columns, target, lam)) {
      forall b: Vector | |b| == |columns| && b != coefs
        ensures Objective(columns, target, lam, coefs) < Objective(columns, target, lam, b)
      {
        RidgeMinimises(columns, target, lam, b);
      }
    }
  }

  lemma IsNormalEquations(columns: seq<Vector>, target: Vector, lam: real)
    requires |target| > 0 && Aligned(columns, |target|)
    ensures IsSystem(Gram(columns, |target|, lam), Moments(columns, target))
    ensures Augment(Gram(columns, |target|, lam), Moments(columns, target)) == NormalEquations(columns, target, lam)
  {
  }

  // ----- the quadratic form of the Gram matrix -----

  lemma ScaledEntry(columns: seq<Vector>, n: nat, lam: real, a: nat, b: nat)
    requires Aligned(columns, n) && n > 0 && a < |columns| && b < |columns|
    ensures Mul(n as real, GramRow(columns, a, n, lam)[b])
         == Products(columns, columns[a])[b] + if b == a then lam else 0.0
  {
    DotSymmetric(columns[a], columns[b]);
    hide Dot;
    assert GramRow(columns, a, n, lam)[b] == GramEntry(columns, a, b, n, lam);
  }

  /** Products scale entry by entry: if n g is p + d, then n g.x is p.x + d.x. */
  lemma {:induction false} ScaledDot(g: Vector, n: real, p: Vector, d: Vector, x: Vector)
    requires |g| == |p| == |x| == |d|
    requires forall a :: 0 <= a < |g| ==> Mul(n, g[a]) == p[a] + d[a]
    ensures Mul(n, Dot(g, x)) == Dot(p, x) + Dot(d, x)
  {
    hide Mul;
    if g == [] {
      MulZero(n);
    } else {
      var k := |g| - 1;
      ScaledDot(g[..k], n, p[..k], d[..k], x[..k]);
      MulDistributes(n, Dot(g[..k], x[..k]), Mul(g[k], x[k]));
      MulAssociates(n, g[k], x[k]);
      MulCommutes(p[k] + d[k], x[k]);
      MulDistributes(x[k], p[k], d[k]);
      MulCommutes(p[k], x[k]);
      MulCommutes(d[k], x[k]);
    }
  }

  /** Row a of the Gram matrix times x is the product of column a with the fit, plus the penalty. */
  lemma GramTimes(columns: seq<Vector>, n: nat, lam: real, x: Vector, a: nat)
    requires Aligned(columns, n) && n > 0 && |x| == |columns| && a < |columns|
    ensures Mul(n as real, Dot(GramRow(columns, a, n, lam), x))
         == Dot(columns[a], Combine(columns, x, n)) + Mul(lam, x[a])
  {
    var d := Zeros(|columns|)[a := lam];
    forall b | 0 <= b < |columns|
      ensures Mul(n as real, GramRow(columns, a, n, lam)[b]) == Products(columns, columns[a])[b] + d[b]
    {
      hide Mul, Dot, GramRow;
      ScaledEntry(columns, n, lam, a, b);
    }
    hide Mul, Dot, GramRow, Combine;
    ScaledDot(GramRow(columns, a, n, lam), n as real, Products(columns, columns[a]), d, x);
    DotSingle(d, x, a);
    DotCombine(columns, x, columns[a]);
    DotSymmetric(columns[a], Combine(columns, x, n));
  }

  /** n times x.G.x is |C x|^2 + lam |x|^2: the Gram matrix is positive definite. */
  lemma QuadraticForm(columns: seq<Vector>, n: nat, lam: real, x: Vector, g: Vector)
    requires Aligned(columns, n) && n > 0 && |x| == |columns| == |g|
    requires forall a :: 0 <= a < |g| ==> g[a] == Dot(GramRow(columns, a, n, lam), x)
    ensures Mul(n as real, Dot(g, x))
         == Dot(Combine(columns, x, n), Combine(columns, x, n)) + Mul(lam, Dot(x, x))
  {
    hide Mul, Dot, GramRow, Combine;
    var c := Combine(columns, x, n);
    var p := Products(columns, c);
    var d := Scaled(lam, x);
    forall a | 0 <= a < |g| ensures Mul(n as real, g[a]) == p[a] + d[a] {
      GramTimes(columns, n, lam, x, a);
    }
    ScaledDot(g, n as real, p, d, x);
    DotScaled(lam, x, x);
    DotCombine(columns, x, c);
  }

  // ----- the pivots stay above the threshold -----

  lemma {:induction false} SmallProducts(g: Vector, x: Vector, e: real)
    requires |g| == |x| && e >= 0.0
    requires forall a :: 0 <= a < |g| ==> Abs(g[a]) <= e
    ensures 2.0 * Dot(g, x) <= Mul(e, |x| as real + Dot(x, x))
  {
    hide Mul;
    if g == [] {
      MulZero(e);
    } else {
      var k := |g| - 1;
      SmallProducts(g[..k], x[..k], e);
      SmallProduct(g[k], x[k], e);
      MulDistributes(e, k as real + Dot(x[..k], x[..k]), 1.0 + Mul(x[k], x[k]));
    }
  }

  lemma SmallProduct(g: real, x: real, e: real)
    requires Abs(g) <= e
    ensures 2.0 * Mul(g, x) <= Mul(e, 1.0 + Mul(x, x))
  {
    var u := Abs(x);
    SquareIsNonNegative(1.0 - u);
    assert Square(1.0 - u) == 1.0 - 2.0 * u + Mul(u, u);
    hide Mul, Square, Abs;
    MulMonotone(u, Abs(g), e);
    MulMonotone(e, 2.0 * u, 1.0 + Mul(x, x));
    MulTwice(e, u);
    MulCommutes(u, e);
  }

  lemma SquareIsNonNegative(x: real)
    ensures Square(x) >= 0.0
    ensures x != 0.0 ==> Square(x) > 0.0
  {
    if x > 0.0 {
      MulPositive(x, x);
    } else if x < 0.0 {
      MulPositive(-x, -x);
    }
  }

  /** The vector that column `col` of a reduced matrix would make almost singular. */
  function Probe(m: Matrix, col: nat): (y: Vector)
    requires IsAugmented(m) && col < |m| && Cleared(m, col)
    ensures |y| == |m| + 1 && y[col] == 1.0
  {
    seq(|m| + 1, c requires 0 <= c < |m| + 1 =>
      if c < col then -m[c][col] / m[c][c] else if c == col then 1.0 else 0.0)
  }

  lemma ProbeResidual(m: Matrix, col: nat, r: nat)
    requires IsAugmented(m) && col < |m| && Cleared(m, col) && r < |m|
    ensures Dot(m[r], Probe(m, col)) == if r < col then 0.0 else m[r][col]
  {
    var y := Probe(m, col);
    if r < col {
      DotSparse(m[r], y, r, col);
      assert m[r][r] * y[r] == -m[r][col];
    } else {
      DotSingle(m[r], y, col);
    }
  }

  /** A pivot at or below the threshold makes every original row small on the probe. */
  lemma SmallPivotProbe(m: Matrix, col: nat, i: nat)
    requires IsAugmented(m) && col < |m| && i < |m| && RegularUpTo(m, col)
    requires Abs(Pivot(m, col)) <= PIVOT_EPSILON
    ensures Cleared(Reduced(m, col), col)
    ensures Abs(Dot(m[i], Probe(Reduced(m, col), col))) <= PIVOT_EPSILON
  {
    ReducedIsCleared(m, col);
    var d := Reduced(m, col);
    var y := Probe(d, col);
    forall r | 0 <= r < |m| ensures Dot(d[r], y) == if r < col then 0.0 else d[r][col] {
      ProbeResidual(d, col, r);
    }
    hide Dot;
    ResidualsComeFromReduced(m, col, y, i);
    var r :| 0 <= r < |d| && Dot(d[r], y) == Dot(m[i], y);
    assert Pivot(m, col) == d[PivotRow(d, col, |d|)][col];
  }

  lemma {:induction false} PivotsAreLarge(columns: seq<Vector>, target: Vector, lam: real, col: nat)
    requires |target| > 0 && Aligned(columns, |target|) && col <= |columns|
    requires WellPenalised(|columns|, |target|, lam)
    ensures RegularUpTo(NormalEquations(columns, target, lam), col)
  {
    if col > 0 {
      PivotsAreLarge(columns, target, lam, col - 1);
      PivotIsLarge(columns, target, lam, col - 1);
    }
  }

  lemma PivotIsLarge(columns: seq<Vector>, target: Vector, lam: real, j: nat)
    requires |target| > 0 && Aligned(columns, |target|) && j < |columns|
    requires WellPenalised(|columns|, |target|, lam)
    requires RegularUpTo(NormalEquations(columns, target, lam), j)
    ensures Abs(Pivot(NormalEquations(columns, target, lam), j)) > PIVOT_EPSILON
  {
    var m := NormalEquations(columns, target, lam);
    if Abs(Pivot(m, j)) <= PIVOT_EPSILON {
      ReducedIsCleared(m, j);
      var y := Probe(Reduced(m, j), j);
      var x := y[..|columns|];
      assert y == x + [0.0];
      var g := seq(|columns|, a requires 0 <= a < |columns| => Dot(GramRow(columns, a, |target|, lam), x));
      forall a | 0 <= a < |g| ensures Abs(g[a]) <= PIVOT_EPSILON {
        SmallPivotProbe(m, j, a);
        LastZero(GramRow(columns, a, |target|, lam), Moments(columns, target)[a], x);
      }
      NotAlmostSingular(columns, |target|, lam, x, g, j);
    }
  }

  lemma LastZero(row: Vector, b: real, x: Vector)
    requires |row| == |x|
    ensures Dot(row + [b], x + [0.0]) == Dot(row, x)
  {
    assert (row + [b])[..|row|] == row && (x + [0.0])[..|x|] == x;
  }

  lemma NotAlmostSingular(columns: seq<Vector>, n: nat, lam: real, x: Vector, g: Vector, j: nat)
    requires Aligned(columns, n) && n > 0 && |x| == |columns| == |g| && WellPenalised(|columns|, n, lam)
    requires forall a :: 0 <= a < |g| ==> g[a] == Dot(GramRow(columns, a, n, lam), x)
    requires j < |x| && x[j] == 1.0
    ensures exists a :: 0 <= a < |g| && Abs(g[a]) > PIVOT_EPSILON
  {
    hide Mul, Dot;
    var c := Combine(columns, x, n);
    QuadraticForm(columns, n, lam, x, g);
    SquaresNonNegative(c);
    SquaresDominate(x, j);
    if forall a :: 0 <= a < |g| ==> Abs(g[a]) <= PIVOT_EPSILON {
      SmallProducts(g, x, PIVOT_EPSILON);
      PenaltyBound(Dot(g, x), Dot(x, x), |x| as real, n as real, lam, PIVOT_EPSILON);
    }
  }

  lemma PenaltyBound(q: real, s: real, k: real, n: real, lam: real, e: real)
    requires n > 0.0 && e > 0.0 && k >= 0.0 && s >= 1.0
    requires 2.0 * q <= Mul(e, k + s) && Mul(lam, s) <= Mul(n, q)
    ensures 2.0 * lam <= e * (k + 1.0) * n
  {
    var bound := e * (k + 1.0) * n;
    assert k + s <= (k + 1.0) * s by {
      MulMonotone(k, 1.0, s);
    }
    MulMonotone(e, k + s, (k + 1.0) * s);
    MulMonotone(n, 2.0 * q, e * ((k + 1.0) * s));
  }

  // ----- the normal equations minimise the objective -----

  /** At a solution the residual's product with column a is lam * b[a]. */
  lemma ResidualProduct(columns: seq<Vector>, target: Vector, lam: real, b: Vector, a: nat)
    requires |target| > 0 && Aligned(columns, |target|) && |b| == |columns| && a < |columns|
    requires Solves(Gram(columns, |target|, lam), Moments(columns, target), b)
    ensures Dot(columns[a], Residual(columns, target, b)) == Mul(lam, b[a])
  {
    var n := |target|;
    var cb := Combine(columns, b, n);
    assert Gram(columns, n, lam)[a] == GramRow(columns, a, n, lam);
    assert Moments(columns, target)[a] == Dot(columns[a], target) / n as real;
    MultiplyOut(Dot(columns[a], target), n as real);
    MulByOne();
    hide Mul, Dot, GramRow, Combine, Axpy;
    GramTimes(columns, n, lam, b, a);
    DotSymmetric(columns[a], Residual(columns, target, b));
    DotAxpy(target, -1.0, cb, columns[a]);
    DotSymmetric(columns[a], target);
    DotSymmetric(columns[a], cb);
  }

  lemma MultiplyOut(x: real, n: real)
    requires n > 0.0
    ensures Mul(n, x / n) == x
  {
  }

  lemma ResidualProducts(columns: seq<Vector>, target: Vector, lam: real, b: Vector, d: Vector)
    requires |target| > 0 && Aligned(columns, |target|) && |b| == |d| == |columns|
    requires Solves(Gram(columns, |target|, lam), Moments(columns, target), b)
    ensures Dot(Combine(columns, d, |target|), Residual(columns, target, b)) == Mul(lam, Dot(b, d))
  {
    hide Mul, Dot, Combine, Residual;
    var e := Residual(columns, target, b);
    forall a | 0 <= a < |columns| ensures Products(columns, e)[a] == Scaled(lam, b)[a] {
      ResidualProduct(columns, target, lam, b, a);
    }
    assert Products(columns, e) == Scaled(lam, b);
    DotCombine(columns, d, e);
    DotScaled(lam, b, d);
  }

  /** The energy grows by exactly |C d|^2 + lam |d|^2 when moving d away from the solution. */
  lemma EnergyGrowth(columns: seq<Vector>, target: Vector, lam: real, b: Vector, d: Vector)
    requires |target| > 0 && Aligned(columns, |target|) && |b| == |d| == |columns|
    requires Solves(Gram(columns, |target|, lam), Moments(columns, target), b)
    ensures var c := Combine(columns, d, |target|);
      Energy(columns, target, lam, Axpy(b, 1.0, d))
      == Energy(columns, target, lam, b) + Dot(c, c) + Mul(lam, Dot(d, d))
  {
    var n := |target|;
    var e, cd, moved := Residual(columns, target, b), Combine(columns, d, n), Axpy(b, 1.0, d);
    MovedResidual(columns, target, b, d);
    ResidualProducts(columns, target, lam, b, d);
    hide Mul, Dot, Combine, Axpy, Residual, Solves;
    SquareOfDifference(e, cd);
    DotSymmetric(e, cd);
    PenaltyGrowth(lam, b, d);
  }

  lemma PenaltyGrowth(lam: real, b: Vector, d: Vector)
    requires |b| == |d|
    ensures var moved := Axpy(b, 1.0, d);
      Mul(lam, Dot(moved, moved)) == Mul(lam, Dot(b, b)) + 2.0 * Mul(lam, Dot(b, d)) + Mul(lam, Dot(d, d))
  {
    hide *;
    SquareOfSum(b, d);
    MulTwice(lam, Dot(b, d));
    MulDistributes(lam, Dot(b, b) + 2.0 * Dot(b, d), Dot(d, d));
    MulDistributes(lam, Dot(b, b), 2.0 * Dot(b, d));
  }

  lemma MovedResidual(columns: seq<Vector>, target: Vector, b: Vector, d: Vector)
    requires Aligned(columns, |target|) && |b| == |d| == |columns|
    ensures Residual(columns, target, Axpy(b, 1.0, d))
         == Axpy(Residual(columns, target, b), -1.0, Combine(columns, d, |target|))
  {
    CombineAdd(columns, b, d, |target|);
    MulByOne();
    hide Mul, Combine;
  }

  lemma MulTwice(k: real, x: real)
    ensures Mul(k, 2.0 * x) == 2.0 * Mul(k, x)
  {
  }

  /** With no pivot skipped, any other coefficient vector has a strictly larger objective: least squares included. */
  lemma RidgeMinimises(columns: seq<Vector>, target: Vector, lam: real, b: Vector)
    requires |target| > 0 && Aligned(columns, |target|) && |b| == |columns|
    requires lam >= 0.0 && Regular(NormalEquations(columns, target, lam))
    requires b != Solution(NormalEquations(columns, target, lam))
    ensures Objective(columns, target, lam, Solution(NormalEquations(columns, target, lam)))
         < Objective(columns, target, lam, b)
  {
    var n := |target|;
    var best := Solution(NormalEquations(columns, target, lam));
    SolutionIsUniqueSolution(Gram(columns, n, lam), Moments(columns, target), best);
    SolutionIsUniqueSolution(Gram(columns, n, lam), Moments(columns, target), b);
    var d := Axpy(b, -1.0, best);
    MulByOne();
    hide Mul, Dot, Energy, Solves, Regular, Solution, NormalEquations, Combine;
    assert Axpy(best, 1.0, d) == b;
    EnergyGrowth(columns, target, lam, best, d);
    var c := Combine(columns, d, n);
    SquaresNonNegative(c);
    SquaresNonNegative(d);
    PenaltyNonNegative(lam, Dot(d, d));
    if Dot(c, c) + Mul(lam, Dot(d, d)) == 0.0 {
      FlatDirectionSolves(columns, target, lam, best, d);
    }
    SmallerQuotient(Energy(columns, target, lam, best), Energy(columns, target, lam, b), n as real);
  }

  lemma PenaltyNonNegative(lam: real, x: real)
    requires lam >= 0.0 && x >= 0.0
    ensures Mul(lam, x) >= 0.0
  {
  }

  /** Moving along a direction that costs nothing leads from one solution to another. */
  lemma FlatDirectionSolves(columns: seq<Vector>, target: Vector, lam: real, b: Vector, d: Vector)
    requires |target| > 0 && Aligned(columns, |target|) && |b| == |d| == |columns| && lam >= 0.0
    requires Solves(Gram(columns, |target|, lam), Moments(columns, target), b)
    requires var c := Combine(columns, d, |target|); Dot(c, c) == 0.0 && Mul(lam, Dot(d, d)) == 0.0
    ensures Solves(Gram(columns, |target|, lam), Moments(columns, target), Axpy(b, 1.0, d))
  {
    var n := |target|;
    hide Mul, Dot, Combine, GramRow;
    forall a | 0 <= a < |columns|
      ensures Dot(GramRow(columns, a, n, lam), Axpy(b, 1.0, d)) == Dot(GramRow(columns, a, n, lam), b)
    {
      var g := GramRow(columns, a, n, lam);
      FlatRow(columns, n, lam, d, a);
      DotSymmetric(g, Axpy(b, 1.0, d));
      DotAxpy(b, 1.0, d, g);
      DotSymmetric(b, g);
      DotSymmetric(d, g);
      MulZero(1.0);
    }
  }

  lemma FlatRow(columns: seq<Vector>, n: nat, lam: real, d: Vector, a: nat)
    requires Aligned(columns, n) && n > 0 && |d| == |columns| && a < |columns| && lam >= 0.0
    requires var c := Combine(columns, d, n); Dot(c, c) == 0.0 && Mul(lam, Dot(d, d)) == 0.0
    ensures Dot(GramRow(columns, a, n, lam), d) == 0.0
  {
    var c := Combine(columns, d, n);
    GramTimes(columns, n, lam, d, a);
    ZeroSquareIsZero(c);
    FreePenalty(lam, d, a);
    ZeroFactor(n as real, Dot(GramRow(columns, a, n, lam), d));
    hide Mul, Dot, Combine, GramRow;
    DotZero(columns[a], c);
  }

  lemma ZeroSquareIsZero(x: Vector)
    requires Dot(x, x) == 0.0
    ensures forall p :: 0 <= p < |x| ==> x[p] == 0.0
  {
    forall p | 0 <= p < |x| ensures x[p] == 0.0 {
      ZeroSquares(x, p);
    }
  }

  lemma FreePenalty(lam: real, d: Vector, a: nat)
    requires lam >= 0.0 && a < |d| && Mul(lam, Dot(d, d)) == 0.0
    ensures Mul(lam, d[a]) == 0.0
  {
    if lam > 0.0 {
      SquaresNonNegative(d);
      ZeroFactor(lam, Dot(d, d));
      ZeroSquareIsZero(d);
    }
  }

  lemma ZeroFactor(n: real, x: real)
    requires n > 0.0
    ensures Mul(n, x) == 0.0 <==> x == 0.0
  {
  }

  /** Above the penalty bound this holds of any columns. */
  lemma PenaltyMakesRegular(columns: seq<Vector>, target: Vector, lam: real)
    requires |target| > 0 && Aligned(columns, |target|) && WellPenalised(|columns|, |target|, lam)
    ensures lam > 0.0 && Regular(NormalEquations(columns, target, lam))
  {
    PositivePenalty(|columns|, |target|, lam);
    PivotsAreLarge(columns, target, lam, |columns|);
  }

  lemma PositivePenalty(k: nat, n: nat, lam: real)
    requires WellPenalised(k, n, lam)
    ensures lam > 0.0
  {
    assert PIVOT_EPSILON * (k + 1) as real >= 0.0;
  }

  lemma SmallerQuotient(a: real, b: real, n: real)
    requires a < b && n > 0.0
    ensures a / n < b / n
  {
  }
}
