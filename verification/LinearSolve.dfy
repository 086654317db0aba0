/**
  Gauss-Jordan elimination with partial pivoting, as the selection engine runs it on its small
  dense systems: rows of the augmented matrix are swapped and rewritten in place.
 */
module LinearSolve {
  import opened Vectors

  type Matrix = seq<Vector>

  /** Pivots at or below this magnitude count as zero. */
  const PIVOT_EPSILON: real := 0.000000000001

  /** n rows of n coefficients, followed by the right-hand side in column n. */
  predicate IsAugmented(m: Matrix) {
    forall r :: 0 <= r < |m| ==> |m[r]| == |m| + 1
  }

  predicate IsSystem(matrix: Matrix, rhs: Vector) {
    |matrix| == |rhs| && forall r :: 0 <= r < |matrix| ==> |matrix[r]| == |rhs|
  }

  function Augment(matrix: Matrix, rhs: Vector): (m: Matrix)
    requires IsSystem(matrix, rhs)
    ensures |m| == |matrix| && IsAugmented(m)
  {
    seq(|matrix|, i requires 0 <= i < |matrix| => matrix[i] + [rhs[i]])
  }

  // ----- what one column does -----

  /** The first row at or below `col`, up to `hi`, of greatest magnitude in column `col`. */
  function PivotRow(m: Matrix, col: nat, hi: nat): (p: nat)
    requires IsAugmented(m) && col < hi <= |m|
    ensures col <= p < hi
    ensures forall r :: col <= r < hi ==> Abs(m[r][col]) <= Abs(m[p][col])
    ensures forall r :: col <= r < p ==> Abs(m[r][col]) < Abs(m[p][col])
    decreases hi
  {
    if hi == col + 1 then col
    else
      var best := PivotRow(m, col, hi - 1);
      if Abs(m[hi - 1][col]) > Abs(m[best][col]) then hi - 1 else best
  }

  function Swapped(m: Matrix, col: nat): (s: Matrix)
    requires IsAugmented(m) && col < |m|
    ensures |s| == |m| && IsAugmented(s)
  {
    var p := PivotRow(m, col, |m|);
    m[col := m[p]][p := m[col]]
  }

  /** Row minus factor times the pivot row, over the columns from `col` on only. */
  function EliminatedRow(row: Vector, pivotRow: Vector, col: nat): (v: Vector)
    requires |row| == |pivotRow| && col < |row| && pivotRow[col] != 0.0
    ensures |v| == |row|
  {
    var factor := row[col] / pivotRow[col];
    seq(|row|, c requires 0 <= c < |row| => if c < col then row[c] else row[c] - Mul(factor, pivotRow[c]))
  }

  function Eliminated(m: Matrix, col: nat): (e: Matrix)
    requires IsAugmented(m) && col < |m| && m[col][col] != 0.0
    ensures |e| == |m| && IsAugmented(e)
  {
    seq(|m|, r requires 0 <= r < |m| => if r == col then m[r] else EliminatedRow(m[r], m[col], col))
  }

  function Step(m: Matrix, col: nat): (s: Matrix)
    requires IsAugmented(m) && col < |m|
    ensures |s| == |m| && IsAugmented(s)
  {
    var s := Swapped(m, col);
    if Abs(s[col][col]) < PIVOT_EPSILON then s else Eliminated(s, col)
  }

  /** The augmented matrix after the first `col` columns have been processed. */
  function Reduced(m: Matrix, col: nat): (s: Matrix)
    requires IsAugmented(m) && col <= |m|
    ensures |s| == |m| && IsAugmented(s)
  {
    if col == 0 then m else Step(Reduced(m, col - 1), col - 1)
  }

  function SolutionEntry(row: Vector, i: nat): real
    requires i < |row| - 1
  {
    if Abs(row[i]) > PIVOT_EPSILON then row[|row| - 1] / row[i] else 0.0
  }

  function Solution(m: Matrix): (x: Vector)
    requires IsAugmented(m)
    ensures |x| == |m|
  {
    var d := Reduced(m, |m|);
    seq(|m|, i requires 0 <= i < |m| => SolutionEntry(d[i], i))
  }

  /** The pivot that column `col` divides by. */
  function Pivot(m: Matrix, col: nat): real
    requires IsAugmented(m) && col < |m|
  {
    Swapped(Reduced(m, col), col)[col][col]
  }

  /** Every one of the first `col` pivots is above the threshold. */
  predicate RegularUpTo(m: Matrix, col: nat)
    requires IsAugmented(m) && col <= |m|
  {
    forall j :: 0 <= j < col ==> Abs(Pivot(m, j)) > PIVOT_EPSILON
  }

  predicate Regular(m: Matrix)
    requires IsAugmented(m)
  {
    RegularUpTo(m, |m|)
  }

  predicate Solves(matrix: Matrix, rhs: Vector, x: Vector)
    requires IsSystem(matrix, rhs)
  {
    |x| == |rhs| && forall i :: 0 <= i < |rhs| ==> Dot(matrix[i], x) == rhs[i]
  }

  // ----- the in-place algorithm computes Solution -----

  method FindPivot(augmented: array<Vector>, col: nat) returns (pivot: nat)
    requires IsAugmented(augmented[..]) && col < augmented.Length
    ensures pivot == PivotRow(augmented[..], col, augmented.Length)
  {
    pivot := col;
    for r := col + 1 to augmented.Length
      invariant pivot == PivotRow(augmented[..], col, r)
    {
      if Abs(augmented[r][col]) > Abs(augmented[pivot][col]) {
        pivot := r;
      }
    }
  }

  method EliminateRow(augmented: array<Vector>, r: nat, col: nat)
    requires IsAugmented(augmented[..])
    requires r < augmented.Length && col < augmented.Length && r != col
    requires augmented[col][col] != 0.0
    modifies augmented
    ensures augmented[..] == old(augmented[..])[r := EliminatedRow(old(augmented[r]), old(augmented[col]), col)]
  {
    var factor := augmented[r][col] / augmented[col][col];
    ghost var row := augmented[r];
    for c := col to augmented.Length + 1
      invariant |augmented[r]| == |row|
      invariant forall k :: 0 <= k < augmented.Length && k != r ==> augmented[k] == old(augmented[k])
      invariant forall k :: 0 <= k < |row| && (k < col || c <= k) ==> augmented[r][k] == row[k]
      invariant forall k :: col <= k < c ==> augmented[r][k] == row[k] - Mul(factor, augmented[col][k])
    {
      augmented[r] := augmented[r][c := augmented[r][c] - factor * augmented[col][c]];
    }
    assert augmented[r] == EliminatedRow(row, augmented[col], col);
  }

  method ProcessColumn(augmented: array<Vector>, col: nat)
    requires IsAugmented(augmented[..]) && col < augmented.Length
    modifies augmented
    ensures augmented[..] == Step(old(augmented[..]), col)
  {
    var pivot := FindPivot(augmented, col);
    augmented[col], augmented[pivot] := augmented[pivot], augmented[col];
    ghost var s := augmented[..];
    assert s == Swapped(old(augmented[..]), col);
    var pivotValue := augmented[col][col];
    if Abs(pivotValue) < PIVOT_EPSILON {
      return;
    }
    hide PivotRow, Swapped;
    EliminateOthers(augmented, col);
  }

  /** Clears the column in every row but the pivot row. */
  method EliminateOthers(augmented: array<Vector>, col: nat)
    requires IsAugmented(augmented[..]) && col < augmented.Length && augmented[col][col] != 0.0
    modifies augmented
    ensures augmented[..] == Eliminated(old(augmented[..]), col)
  {
    ghost var s := augmented[..];
    hide EliminatedRow;
    for r := 0 to augmented.Length
      invariant forall k :: r <= k < augmented.Length ==> augmented[k] == s[k]
      invariant forall k :: 0 <= k < r ==> augmented[k] == Eliminated(s, col)[k]
      invariant augmented[col] == s[col]
    {
      if r != col {
        ghost var before := augmented[..];
        assert forall k :: 0 <= k < |before| ==> |before[k]| == |before| + 1;
        EliminateRow(augmented, r, col);
        assert forall k :: 0 <= k < |before| && k != r ==> augmented[..][k] == before[k];
      }
    }
    assert augmented[..] == Eliminated(s, col);
  }

  /** Meets Solution on every square system, singular ones included. */
  method Solve(matrix: Matrix, rhs: Vector) returns (solution: Vector)
    requires IsSystem(matrix, rhs)
    ensures solution == Solution(Augment(matrix, rhs))
  {
    hide Step, PivotRow, SolutionEntry;
    var n := |rhs|;
    ghost var m := Augment(matrix, rhs);
    var augmented := new Vector[n](i requires 0 <= i < n => matrix[i] + [rhs[i]]);
    assert augmented[..] == m;
    for col := 0 to n
      invariant augmented[..] == Reduced(m, col)
    {
      ProcessColumn(augmented, col);
    }
    solution := ReadSolution(augmented);
  }

  method ReadSolution(augmented: array<Vector>) returns (solution: Vector)
    requires IsAugmented(augmented[..])
    ensures |solution| == augmented.Length
    ensures forall k :: 0 <= k < |solution| ==> solution[k] == SolutionEntry(augmented[..][k], k)
  {
    var n := augmented.Length;
    solution := [];
    for i := 0 to n
      invariant |solution| == i
      invariant forall k :: 0 <= k < i ==> solution[k] == SolutionEntry(augmented[k], k)
    {
      var pivotValue := augmented[i][i];
      solution := solution + [if Abs(pivotValue) > PIVOT_EPSILON then augmented[i][n] / pivotValue else 0.0];
    }
  }

  // ----- why the solution solves -----

  /** Columns below `col` are cleared off the diagonal, and their diagonal entries are usable. */
  predicate Cleared(m: Matrix, col: nat)
    requires IsAugmented(m) && col <= |m|
  {
    && (forall j :: 0 <= j < col ==> Abs(m[j][j]) > PIVOT_EPSILON)
    && (forall r, j :: 0 <= r < |m| && 0 <= j < col && r != j ==> m[r][j] == 0.0)
  }

  lemma {:induction false} ReducedIsCleared(m: Matrix, col: nat)
    requires IsAugmented(m) && col <= |m| && RegularUpTo(m, col)
    ensures Cleared(Reduced(m, col), col)
  {
    if col > 0 {
      var j := col - 1;
      ReducedIsCleared(m, j);
      var before := Reduced(m, j);
      var s := Swapped(before, j);
      assert Abs(Pivot(m, j)) > PIVOT_EPSILON;
      assert Reduced(m, col) == Eliminated(s, j);
      SwapKeepsCleared(before, j);
      EliminationClears(s, j);
    }
  }

  lemma SwapKeepsCleared(m: Matrix, col: nat)
    requires IsAugmented(m) && col < |m| && Cleared(m, col)
    ensures Cleared(Swapped(m, col), col)
  {
  }

  lemma EliminationClears(s: Matrix, col: nat)
    requires IsAugmented(s) && col < |s| && Cleared(s, col) && Abs(s[col][col]) > PIVOT_EPSILON
    ensures Cleared(Eliminated(s, col), col + 1)
  {
    var e := Eliminated(s, col);
    forall r | 0 <= r < |s| && r != col ensures e[r][col] == 0.0 {
    }
    forall r, j | 0 <= r < |s| && 0 <= j < col ensures e[r][j] == s[r][j] {
    }
  }

  /** With the columns below `col` cleared, elimination is the full row operation row - factor * pivotRow. */
  lemma EliminationIsRowOperation(s: Matrix, col: nat, r: nat, y: Vector)
    requires IsAugmented(s) && col < |s| && Cleared(s, col) && s[col][col] != 0.0
    requires r < |s| && r != col && |y| == |s| + 1
    ensures Dot(Eliminated(s, col)[r], y) == Dot(s[r], y) + Mul(-(s[r][col] / s[col][col]), Dot(s[col], y))
  {
    hide Mul, Dot;
    var factor := s[r][col] / s[col][col];
    EliminatedIsAxpy(s[r], s[col], col);
    DotAxpy(s[r], -factor, s[col], y);
  }

  /** Left of the column the pivot row is zero, so nothing changes there. */
  lemma EliminatedIsAxpy(row: Vector, pivotRow: Vector, col: nat)
    requires |row| == |pivotRow| && col < |row| && pivotRow[col] != 0.0
    requires forall k :: 0 <= k < col ==> pivotRow[k] == 0.0
    ensures EliminatedRow(row, pivotRow, col) == Axpy(row, -(row[col] / pivotRow[col]), pivotRow)
  {
    MulNegates(row[col] / pivotRow[col]);
    hide Mul;
  }

  lemma MulNegates(factor: real)
    ensures forall x :: Mul(-factor, x) == -Mul(factor, x)
    ensures Mul(factor, 0.0) == 0.0
  {
  }

  /** Some row of m takes the value v on y. */
  predicate Attains(m: Matrix, y: Vector, v: real)
    requires forall r :: 0 <= r < |m| ==> |m[r]| == |y|
  {
    exists r :: 0 <= r < |m| && Dot(m[r], y) == v
  }

  /**
    A vector on which the finished rows vanish sees, in each original row, exactly what it sees in
    some current row: swaps permute the residuals, and eliminations subtract a residual of zero.
   */
  lemma {:induction false} ResidualsComeFromReduced(m: Matrix, col: nat, y: Vector, i: nat)
    requires IsAugmented(m) && col <= |m| && RegularUpTo(m, col) && |y| == |m| + 1 && i < |m|
    requires forall r :: 0 <= r < col ==> Dot(Reduced(m, col)[r], y) == 0.0
    ensures Attains(Reduced(m, col), y, Dot(m[i], y))
  {
    hide Dot, PivotRow, Cleared;
    var after := Reduced(m, col);
    if col == 0 {
      assert Dot(after[i], y) == Dot(m[i], y);
    } else {
      var j := col - 1;
      var before := Reduced(m, j);
      var s := Swapped(before, j);
      StepKeepsResiduals(m, j, y);
      ResidualsComeFromReduced(m, j, y, i);
      SwapPermutes(before, j, y, Dot(m[i], y));
      hide Reduced, Swapped, RegularUpTo;
      var t :| 0 <= t < |s| && Dot(s[t], y) == Dot(m[i], y);
      assert Dot(after[t], y) == Dot(m[i], y);
    }
  }

  /** One column's step changes no residual of a vector on which its pivot row vanishes. */
  lemma StepKeepsResiduals(m: Matrix, j: nat, y: Vector)
    requires IsAugmented(m) && j < |m| && RegularUpTo(m, j + 1) && |y| == |m| + 1
    requires Dot(Reduced(m, j + 1)[j], y) == 0.0
    ensures var s := Swapped(Reduced(m, j), j);
      && (forall r :: 0 <= r < |m| ==> Dot(Reduced(m, j + 1)[r], y) == Dot(s[r], y))
      && forall r :: 0 <= r < j ==> s[r] == Reduced(m, j)[r]
  {
    var before, after := Reduced(m, j), Reduced(m, j + 1);
    var s := Swapped(before, j);
    assert Abs(Pivot(m, j)) > PIVOT_EPSILON;
    assert after == Eliminated(s, j);
    ReducedIsCleared(m, j);
    SwapKeepsCleared(before, j);
    hide Dot, Reduced, PivotRow, Cleared;
    EliminationKeepsResiduals(s, j, y);
  }

  lemma EliminationKeepsResiduals(s: Matrix, j: nat, y: Vector)
    requires IsAugmented(s) && j < |s| && Cleared(s, j) && s[j][j] != 0.0 && |y| == |s| + 1
    requires Dot(Eliminated(s, j)[j], y) == 0.0
    ensures forall r :: 0 <= r < |s| ==> Dot(Eliminated(s, j)[r], y) == Dot(s[r], y)
  {
    assert Eliminated(s, j)[j] == s[j];
    hide Dot, Cleared, Mul, Eliminated;
    forall r | 0 <= r < |s| ensures Dot(Eliminated(s, j)[r], y) == Dot(s[r], y) {
      if r != j {
        EliminationIsRowOperation(s, j, r, y);
        MulZero(-(s[r][j] / s[j][j]));
      }
    }
  }

  lemma SwapPermutes(m: Matrix, col: nat, y: Vector, v: real)
    requires IsAugmented(m) && col < |m| && |y| == |m| + 1 && Attains(m, y, v)
    ensures Attains(Swapped(m, col), y, v)
  {
    var p := PivotRow(m, col, |m|);
    var r :| 0 <= r < |m| && Dot(m[r], y) == v;
    var t := if r == col then p else if r == p then col else r;
    assert Swapped(m, col)[t] == m[r];
  }

  /** y is zero wherever one of the first `col` pivots is too small. */
  predicate AvoidsSmallPivots(m: Matrix, col: nat, y: Vector)
    requires IsAugmented(m) && col <= |m| <= |y|
  {
    forall j :: 0 <= j < col ==> Abs(Pivot(m, j)) > PIVOT_EPSILON || y[j] == 0.0
  }

  /** As far as y can tell, the columns below `col` are cleared off the diagonal. */
  predicate ClearedFor(m: Matrix, col: nat, y: Vector)
    requires IsAugmented(m) && col <= |m| <= |y|
  {
    forall r, j :: 0 <= r < |m| && 0 <= j < col && r != j ==> m[r][j] == 0.0 || y[j] == 0.0
  }

  lemma SwapKeepsClearedFor(m: Matrix, col: nat, y: Vector)
    requires IsAugmented(m) && col < |m| <= |y| && ClearedFor(m, col, y)
    ensures ClearedFor(Swapped(m, col), col, y)
  {
  }

  lemma EliminationClearsFor(s: Matrix, col: nat, y: Vector)
    requires IsAugmented(s) && col < |s| <= |y| && ClearedFor(s, col, y) && s[col][col] != 0.0
    ensures ClearedFor(Eliminated(s, col), col + 1, y)
  {
    var e := Eliminated(s, col);
    forall r | 0 <= r < |s| && r != col ensures e[r][col] == 0.0 {
    }
    forall r, j | 0 <= r < |s| && 0 <= j < col ensures e[r][j] == s[r][j] {
    }
  }

  lemma {:induction false} DotAgrees(a: Vector, b: Vector, y: Vector)
    requires |a| == |b| == |y| && forall k :: 0 <= k < |a| ==> a[k] == b[k] || y[k] == 0.0
    ensures Dot(a, y) == Dot(b, y)
  {
    if a != [] {
      var n := |a| - 1;
      DotAgrees(a[..n], b[..n], y[..n]);
      MulZero(a[n]);
      MulZero(b[n]);
    }
  }

  /** Elimination keeps a row at zero if the columns it passes over do not matter. */
  lemma EliminatedRowVanishes(row: Vector, pivotRow: Vector, col: nat, y: Vector)
    requires |row| == |pivotRow| == |y| && col < |row| && pivotRow[col] != 0.0
    requires forall k :: 0 <= k < col ==> pivotRow[k] == 0.0 || y[k] == 0.0
    requires Dot(row, y) == 0.0 && Dot(pivotRow, y) == 0.0
    ensures Dot(EliminatedRow(row, pivotRow, col), y) == 0.0
  {
    hide Dot, Mul, EliminatedRow, Axpy;
    var factor := row[col] / pivotRow[col];
    EliminatedAgrees(row, pivotRow, col, y);
    DotAgrees(EliminatedRow(row, pivotRow, col), Axpy(row, -factor, pivotRow), y);
    DotAxpy(row, -factor, pivotRow, y);
    MulZero(-factor);
  }

  lemma EliminatedAgrees(row: Vector, pivotRow: Vector, col: nat, y: Vector)
    requires |row| == |pivotRow| == |y| && col < |row| && pivotRow[col] != 0.0
    requires forall k :: 0 <= k < col ==> pivotRow[k] == 0.0 || y[k] == 0.0
    ensures var op := Axpy(row, -(row[col] / pivotRow[col]), pivotRow);
      forall k :: 0 <= k < |row| ==> EliminatedRow(row, pivotRow, col)[k] == op[k] || y[k] == 0.0
  {
    MulNegates(row[col] / pivotRow[col]);
    hide Mul;
  }

  /** A skipped column does no harm to a vector that is zero there. */
  lemma StepKeepsAnnihilated(m: Matrix, col: nat, y: Vector)
    requires IsAugmented(m) && col < |m| && |y| == |m| + 1 && ClearedFor(m, col, y)
    requires Abs(Swapped(m, col)[col][col]) > PIVOT_EPSILON || y[col] == 0.0
    requires forall r :: 0 <= r < |m| ==> Dot(m[r], y) == 0.0
    ensures ClearedFor(Step(m, col), col + 1, y)
    ensures forall r :: 0 <= r < |m| ==> Dot(Step(m, col)[r], y) == 0.0
  {
    hide Dot, PivotRow;
    var s := Swapped(m, col);
    SwapKeepsClearedFor(m, col, y);
    assert forall r :: 0 <= r < |m| ==> Dot(s[r], y) == 0.0;
    if Abs(s[col][col]) >= PIVOT_EPSILON {
      EliminationClearsFor(s, col, y);
      hide ClearedFor, Swapped, EliminatedRow;
      forall r | 0 <= r < |m| ensures Dot(Eliminated(s, col)[r], y) == 0.0 {
        if r != col {
          PivotRowPassesOver(s, col, y);
          EliminatedRowVanishes(s[r], s[col], col, y);
        }
      }
    }
  }

  lemma PivotRowPassesOver(s: Matrix, col: nat, y: Vector)
    requires IsAugmented(s) && col < |s| <= |y| && ClearedFor(s, col, y)
    ensures forall k :: 0 <= k < col ==> s[col][k] == 0.0 || y[k] == 0.0
  {
  }

  /**
    The other direction: what every original row annihilates, every reduced row annihilates, small pivots
    notwithstanding, as long as the vector is zero in their columns.
   */
  lemma {:induction false} ReductionKeepsSolutions(m: Matrix, col: nat, y: Vector)
    requires IsAugmented(m) && col <= |m| && |y| == |m| + 1 && AvoidsSmallPivots(m, col, y)
    requires forall i :: 0 <= i < |m| ==> Dot(m[i], y) == 0.0
    ensures ClearedFor(Reduced(m, col), col, y)
    ensures forall r :: 0 <= r < |m| ==> Dot(Reduced(m, col)[r], y) == 0.0
  {
    hide *;
    ReducedUnfolds(m, col);
    if col > 0 {
      AvoidsBefore(m, col, y);
      ReductionKeepsSolutions(m, col - 1, y);
      StepKeepsAnnihilated(Reduced(m, col - 1), col - 1, y);
    } else {
      NothingToClear(m, y);
    }
  }

  lemma ReducedUnfolds(m: Matrix, col: nat)
    requires IsAugmented(m) && col <= |m|
    ensures Reduced(m, col) == if col == 0 then m else Step(Reduced(m, col - 1), col - 1)
  {
  }

  lemma NothingToClear(m: Matrix, y: Vector)
    requires IsAugmented(m) && |y| == |m| + 1
    ensures ClearedFor(m, 0, y)
  {
  }

  lemma AvoidsBefore(m: Matrix, col: nat, y: Vector)
    requires IsAugmented(m) && 0 < col <= |m| && |y| == |m| + 1 && AvoidsSmallPivots(m, col, y)
    ensures AvoidsSmallPivots(m, col - 1, y)
    ensures Abs(Swapped(Reduced(m, col - 1), col - 1)[col - 1][col - 1]) > PIVOT_EPSILON || y[col - 1] == 0.0
  {
    assert Abs(Pivot(m, col - 1)) > PIVOT_EPSILON || y[col - 1] == 0.0;
    hide Swapped, Reduced, Abs;
  }

  /** A column's pivot stays on the diagonal to the end. */
  lemma {:induction false} DiagonalStays(m: Matrix, j: nat, col: nat)
    requires IsAugmented(m) && j < col <= |m|
    ensures Reduced(m, col)[j][j] == Pivot(m, j)
  {
    hide Pivot, PivotRow, Step, Swapped;
    StepKeepsDiagonal(Reduced(m, col - 1), j, col - 1);
    if j < col - 1 {
      DiagonalStays(m, j, col - 1);
    } else {
      PivotIsStepped(m, j);
    }
  }

  lemma StepKeepsDiagonal(m: Matrix, j: nat, col: nat)
    requires IsAugmented(m) && j <= col < |m|
    ensures Step(m, col)[j][j] == if j < col then m[j][j] else Swapped(m, col)[j][j]
  {
    hide Mul;
  }

  lemma PivotIsStepped(m: Matrix, j: nat)
    requires IsAugmented(m) && j < |m|
    ensures Pivot(m, j) == Swapped(Reduced(m, j), j)[j][j]
  {
  }

  lemma DiagonalRow(m: Matrix, x: Vector, r: nat)
    requires IsAugmented(m) && |x| == |m| && r < |m| && ClearedFor(m, |m|, x + [-1.0])
    ensures Dot(m[r], x + [-1.0]) == Mul(m[r][r], x[r]) - m[r][|m|]
  {
    DotSparse(m[r], x + [-1.0], r, |m|);
  }

  /** On a fully cleared system, reading off the entries is the one way to annihilate every row. */
  lemma ClearedRow(d: Matrix, x: Vector, r: nat)
    requires IsAugmented(d) && Cleared(d, |d|) && |x| == |d| && r < |d|
    ensures Dot(d[r], x + [-1.0]) == 0.0 <==> x[r] == SolutionEntry(d[r], r)
  {
    hide Mul, Dot;
    DiagonalRow(d, x, r);
    EntrySolvesRow(d[r], r, x[r]);
  }

  lemma EntrySolvesRow(row: Vector, i: nat, v: real)
    requires i < |row| - 1 && Abs(row[i]) > PIVOT_EPSILON
    ensures Mul(row[i], v) - row[|row| - 1] == 0.0 <==> v == SolutionEntry(row, i)
  {
  }

  /** When every pivot is above the threshold, Solution solves the system and nothing else does. */
  lemma SolutionIsUniqueSolution(matrix: Matrix, rhs: Vector, x: Vector)
    requires IsSystem(matrix, rhs) && Regular(Augment(matrix, rhs)) && |x| == |rhs|
    ensures Solves(matrix, rhs, x) <==> x == Solution(Augment(matrix, rhs))
  {
    var m, y := Augment(matrix, rhs), x + [-1.0];
    var d := Reduced(m, |m|);
    ReducedIsCleared(m, |m|);
    forall i | 0 <= i < |rhs|
      ensures Dot(m[i], y) == 0.0 <==> Dot(matrix[i], x) == rhs[i]
      ensures Dot(d[i], y) == 0.0 <==> x[i] == Solution(m)[i]
    {
      ClearedRow(d, x, i);
    }
    if x == Solution(m) {
      forall i | 0 <= i < |rhs| ensures Dot(m[i], y) == 0.0 {
        ResidualsComeFromReduced(m, |m|, y, i);
      }
    }
    if Solves(matrix, rhs, x) {
      ReductionKeepsSolutions(m, |m|, y);
    }
  }

  /**
    A system that has a solution x is answered with it exactly if x is zero in every column whose pivot is too
    small to be used.
   */
  lemma AnsweredIff(matrix: Matrix, rhs: Vector, x: Vector)
    requires IsSystem(matrix, rhs) && Solves(matrix, rhs, x)
    ensures var m := Augment(matrix, rhs);
      x == Solution(m) <==> forall j :: 0 <= j < |m| ==> Abs(Pivot(m, j)) > PIVOT_EPSILON || x[j] == 0.0
  {
    hide Reduced, Pivot, Solution, Solves, Dot, ClearedFor, AvoidsSmallPivots;
    var m, y := Augment(matrix, rhs), x + [-1.0];
    SolutionIsAnnihilated(matrix, rhs, x);
    forall j | 0 <= j < |m| && Abs(Pivot(m, j)) <= PIVOT_EPSILON ensures Solution(m)[j] == 0.0 {
      SmallPivotReadsZero(m, j);
    }
    if forall j :: 0 <= j < |m| ==> Abs(Pivot(m, j)) > PIVOT_EPSILON || x[j] == 0.0 {
      Avoids(m, x);
      ReductionKeepsSolutions(m, |m|, y);
      forall j | 0 <= j < |m| && Abs(Pivot(m, j)) > PIVOT_EPSILON ensures x[j] == Solution(m)[j] {
        UsedPivotSolvesRow(m, x, j);
      }
    }
  }

  lemma SolutionIsAnnihilated(matrix: Matrix, rhs: Vector, x: Vector)
    requires IsSystem(matrix, rhs) && Solves(matrix, rhs, x)
    ensures |x| == |rhs| && forall i :: 0 <= i < |rhs| ==> Dot(Augment(matrix, rhs)[i], x + [-1.0]) == 0.0
  {
  }

  lemma SmallPivotReadsZero(m: Matrix, j: nat)
    requires IsAugmented(m) && j < |m| && Abs(Pivot(m, j)) <= PIVOT_EPSILON
    ensures Solution(m)[j] == 0.0
  {
    hide Reduced, Pivot;
    DiagonalStays(m, j, |m|);
  }

  lemma Avoids(m: Matrix, x: Vector)
    requires IsAugmented(m) && |x| == |m|
    requires forall j :: 0 <= j < |m| ==> Abs(Pivot(m, j)) > PIVOT_EPSILON || x[j] == 0.0
    ensures AvoidsSmallPivots(m, |m|, x + [-1.0])
  {
    hide Pivot;
  }

  lemma UsedPivotSolvesRow(m: Matrix, x: Vector, j: nat)
    requires IsAugmented(m) && |x| == |m| && j < |m| && ClearedFor(Reduced(m, |m|), |m|, x + [-1.0])
    requires Abs(Pivot(m, j)) > PIVOT_EPSILON && Dot(Reduced(m, |m|)[j], x + [-1.0]) == 0.0
    ensures x[j] == Solution(m)[j]
  {
    hide Mul, Dot, Reduced, Pivot, ClearedFor;
    var d := Reduced(m, |m|);
    DiagonalStays(m, j, |m|);
    DiagonalRow(d, x, j);
    EntrySolvesRow(d[j], j, x[j]);
  }

  /** So a solution without zero entries is found exactly if every pivot is above the threshold. */
  lemma SolvedIffRegular(matrix: Matrix, rhs: Vector, x: Vector)
    requires IsSystem(matrix, rhs) && Solves(matrix, rhs, x) && forall j :: 0 <= j < |x| ==> x[j] != 0.0
    ensures x == Solution(Augment(matrix, rhs)) <==> Regular(Augment(matrix, rhs))
  {
    AnsweredIff(matrix, rhs, x);
    hide Pivot, Solution, Solves;
  }

  /** A pivot of exactly the threshold still clears its column, though its own unknown is answered with 0. */
  lemma EdgePivotClears(a: real, b: real)
    ensures var e := PIVOT_EPSILON;
      Solution(Augment([[e, 0.0], [e, 1.0]], [a, b])) == [0.0, b - a]
  {
    var e := PIVOT_EPSILON;
    var m := Augment([[e, 0.0], [e, 1.0]], [a, b]);
    assert m[0] == [e, 0.0, a] && m[1] == [e, 1.0, b];
    assert m == [m[0], m[1]];
    EdgeFirstColumn(m, a, b);
    EdgeSecondColumn(Reduced(m, 1), a, b - a);
    assert Reduced(m, 2) == Step(Reduced(m, 1), 1);
    hide Step;
  }

  lemma EdgeFirstColumn(m: Matrix, a: real, b: real)
    requires m == [[PIVOT_EPSILON, 0.0, a], [PIVOT_EPSILON, 1.0, b]]
    ensures IsAugmented(m) && Reduced(m, 1) == [[PIVOT_EPSILON, 0.0, a], [0.0, 1.0, b - a]]
  {
    assert Reduced(m, 1) == Step(Reduced(m, 0), 0);
    assert PivotRow(m, 0, 1) == 0 && PivotRow(m, 0, 2) == 0;
    assert Swapped(m, 0) == m;
    assert m[1][0] / m[0][0] == 1.0;
    assert EliminatedRow(m[1], m[0], 0) == [0.0, 1.0, b - a];
  }

  lemma EdgeSecondColumn(m: Matrix, a: real, b: real)
    requires m == [[PIVOT_EPSILON, 0.0, a], [0.0, 1.0, b]]
    ensures IsAugmented(m) && Step(m, 1) == m
  {
    assert PivotRow(m, 1, 2) == 1;
    assert Swapped(m, 1) == m;
    assert EliminatedRow(m[0], m[1], 1) == m[0];
  }

  /** The threshold matters: a solvable 1 x 1 system with a pivot of half the threshold is answered with 0. */
  lemma TinyPivotIsNotSolved()
    ensures var a := PIVOT_EPSILON / 2.0;
      Solves([[a]], [a], [1.0]) && Solution(Augment([[a]], [a])) == [0.0] && !Solves([[a]], [a], [0.0])
  {
    var a := PIVOT_EPSILON / 2.0;
    var m := Augment([[a]], [a]);
    assert m[0] == [a, a];
    assert Reduced(m, 1) == Step(Reduced(m, 0), 0);
    assert PivotRow(m, 0, 1) == 0;
    assert Swapped(m, 0) == m;
    assert Dot([a], [1.0]) == a && Dot([a], [0.0]) == 0.0;
  }
}
