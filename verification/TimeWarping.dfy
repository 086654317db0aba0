/**
  Dynamic time warping between two paths of same-dimension points. The two-row loop is tied to the
  full table, and the table to the cheapest monotone alignment of the two paths.
 */
module TimeWarping {
  import opened Vectors

  // ----- the local cost -----

  function SquaredDistance(a: Vector, b: Vector): real
    requires |a| == |b|
  {
    if a == [] then 0.0
    else SquaredDistance(a[..|a| - 1], b[..|b| - 1]) + Square(a[|a| - 1] - b[|b| - 1])
  }

  function EuclideanDistance(sqrt: real -> real, a: Vector, b: Vector): real
    requires |a| == |b|
  {
    sqrt(SquaredDistance(a, b))
  }

  lemma {:induction false} SquaredDistanceSeparates(a: Vector, b: Vector)
    requires |a| == |b|
    ensures SquaredDistance(a, b) >= 0.0
    ensures SquaredDistance(a, b) == SquaredDistance(b, a)
    ensures SquaredDistance(a, b) == 0.0 <==> a == b
  {
    if a != [] {
      var n := |a| - 1;
      SquaredDistanceSeparates(a[..n], b[..n]);
      SquareSeparates(a[n] - b[n]);
      assert a[n] - b[n] == -(b[n] - a[n]);
      assert a == a[..n] + [a[n]] && b == b[..n] + [b[n]];
    }
  }

  lemma SquareSeparates(x: real)
    ensures Square(x) >= 0.0 && Square(x) == Square(-x)
    ensures Square(x) == 0.0 <==> x == 0.0
  {
    if x > 0.0 {
      MulPositive(x, x);
    } else if x < 0.0 {
      MulPositive(-x, -x);
    }
  }

  lemma {:induction false} SquaredDistanceIsSum(a: Vector, b: Vector)
    requires |a| == |b|
    ensures SquaredDistance(a, b) == Sum(seq(|a|, i requires 0 <= i < |a| => (a[i] - b[i]) * (a[i] - b[i])))
  {
    if a != [] {
      var n := |a| - 1;
      var squares := seq(|a|, i requires 0 <= i < |a| => (a[i] - b[i]) * (a[i] - b[i]));
      var front := seq(n, i requires 0 <= i < n => (a[..n][i] - b[..n][i]) * (a[..n][i] - b[..n][i]));
      forall i | 0 <= i < n ensures squares[..n][i] == front[i] {
        var d, e := a[..n][i] - b[..n][i], a[i] - b[i];
        assert d == e && front[i] == d * d;
      }
      assert squares[..n] == front;
      SquaredDistanceIsSum(a[..n], b[..n]);
    }
  }

  /** The local cost is a root of the sum of squares: nonnegative, symmetric, and zero exactly between equal points. */
  lemma EuclideanIsDistance(sqrt: real -> real, a: Vector, b: Vector)
    requires IsSqrt(sqrt) && |a| == |b|
    ensures EuclideanDistance(sqrt, a, b) >= 0.0
    ensures EuclideanDistance(sqrt, a, b) * EuclideanDistance(sqrt, a, b)
         == Sum(seq(|a|, i requires 0 <= i < |a| => (a[i] - b[i]) * (a[i] - b[i])))
    ensures EuclideanDistance(sqrt, a, b) == EuclideanDistance(sqrt, b, a)
    ensures EuclideanDistance(sqrt, a, b) == 0.0 <==> a == b
  {
    SquaredDistanceSeparates(a, b);
    SquaredDistanceIsSum(a, b);
    SquareSeparates(sqrt(SquaredDistance(a, b)));
  }

  // ----- the dynamic programme -----

  /** A cost, or the unreachable infinity. */
  datatype Cost = Finite(value: real) | Infinite

  function Min(x: Cost, y: Cost): Cost {
    if y.Finite? && (x.Infinite? || y.value < x.value) then y else x
  }

  function Plus(c: real, x: Cost): Cost {
    if x.Finite? then Finite(c + x.value) else Infinite
  }

  type Path = seq<Vector>

  /** All points of both paths have the same dimension. */
  predicate Comparable(a: Path, b: Path) {
    forall i, j :: 0 <= i < |a| && 0 <= j < |b| ==> |a[i]| == |b[j]|
  }

  /** Cell (i, j) aligns point i of a with point j of b, counted from 1. */
  function CellCost(sqrt: real -> real, a: Path, b: Path, i: nat, j: nat): real
    requires Comparable(a, b) && 1 <= i <= |a| && 1 <= j <= |b|
  {
    EuclideanDistance(sqrt, a[i - 1], b[j - 1])
  }

  function Table(sqrt: real -> real, a: Path, b: Path, i: nat, j: nat): Cost
    requires Comparable(a, b) && i <= |a| && j <= |b|
  {
    if i == 0 then if j == 0 then Finite(0.0) else Infinite
    else if j == 0 then Infinite
    else Plus(CellCost(sqrt, a, b, i, j),
              Min(Min(Table(sqrt, a, b, i - 1, j), Table(sqrt, a, b, i, j - 1)), Table(sqrt, a, b, i - 1, j - 1)))
  }

  function Distance(sqrt: real -> real, a: Path, b: Path): Cost
    requires Comparable(a, b)
  {
    if a == [] || b == [] then Infinite else Table(sqrt, a, b, |a|, |b|)
  }

  lemma TableEdge(sqrt: real -> real, a: Path, b: Path, i: nat)
    requires Comparable(a, b) && i <= |a|
    ensures Table(sqrt, a, b, i, 0) == if i == 0 then Finite(0.0) else Infinite
  {
  }

  lemma TableTop(sqrt: real -> real, a: Path, b: Path, j: nat)
    requires Comparable(a, b) && j <= |b|
    ensures Table(sqrt, a, b, 0, j) == if j == 0 then Finite(0.0) else Infinite
  {
  }

  lemma TableCell(sqrt: real -> real, a: Path, b: Path, i: nat, j: nat)
    requires Comparable(a, b) && 1 <= i <= |a| && 1 <= j <= |b|
    ensures Table(sqrt, a, b, i, j) == Plus(CellCost(sqrt, a, b, i, j),
      Min(Min(Table(sqrt, a, b, i - 1, j), Table(sqrt, a, b, i, j - 1)), Table(sqrt, a, b, i - 1, j - 1)))
  {
  }

  method NextRow(sqrt: real -> real, a: Path, b: Path, i: nat, previous: array<Cost>) returns (current: array<Cost>)
    requires Comparable(a, b) && 1 <= i <= |a| && previous.Length == |b| + 1
    requires forall k :: 0 <= k <= |b| ==> previous[k] == Table(sqrt, a, b, i - 1, k)
    ensures current.Length == |b| + 1
    ensures forall k :: 0 <= k <= |b| ==> current[k] == Table(sqrt, a, b, i, k)
  {
    hide Comparable, CellCost, Min, Plus, Table;
    TableEdge(sqrt, a, b, i);
    current := new Cost[|b| + 1](_ => Infinite);
    for j := 1 to |b| + 1
      invariant forall k :: 0 <= k < j ==> current[k] == Table(sqrt, a, b, i, k)
    {
      TableCell(sqrt, a, b, i, j);
      var cost := CellCost(sqrt, a, b, i, j);
      current[j] := Plus(cost, Min(Min(previous[j], current[j - 1]), previous[j - 1]));
    }
  }

  method DtwDistance(sqrt: real -> real, a: Path, b: Path) returns (distance: Cost)
    requires Comparable(a, b)
    ensures distance == Distance(sqrt, a, b)
  {
    hide Comparable;
    var n, m := |a|, |b|;
    if n == 0 || m == 0 {
      return Infinite;
    }
    var previous := new Cost[m + 1](_ => Infinite);
    previous[0] := Finite(0.0);
    for i := 1 to n + 1
      invariant previous.Length == m + 1
      invariant forall k :: 0 <= k <= m ==> previous[k] == Table(sqrt, a, b, i - 1, k)
    {
      previous := NextRow(sqrt, a, b, i, previous);
    }
    return previous[m];
  }

  // ----- warping paths -----

  type Cell = (nat, nat)

  /** One step advances a, b or both by one point. */
  predicate IsStep(c: Cell, d: Cell) {
    d == (c.0 + 1, c.1) || d == (c.0, c.1 + 1) || d == (c.0 + 1, c.1 + 1)
  }

  /** A monotone alignment from the first cell to the cell (i, j). */
  predicate IsWarping(w: seq<Cell>, i: nat, j: nat) {
    && |w| > 0 && w[0] == (1, 1) && w[|w| - 1] == (i, j)
    && forall k :: 0 <= k < |w| - 1 ==> IsStep(w[k], w[k + 1])
  }

  predicate InTable(w: seq<Cell>, a: Path, b: Path) {
    forall k :: 0 <= k < |w| ==> 1 <= w[k].0 <= |a| && 1 <= w[k].1 <= |b|
  }

  function WarpingCost(sqrt: real -> real, a: Path, b: Path, w: seq<Cell>): real
    requires Comparable(a, b) && InTable(w, a, b)
  {
    if w == [] then 0.0
    else
      var c := w[|w| - 1];
      WarpingCost(sqrt, a, b, w[..|w| - 1]) + CellCost(sqrt, a, b, c.0, c.1)
  }

  lemma {:induction false} WarpingStaysInTable(w: seq<Cell>, a: Path, b: Path, i: nat, j: nat)
    requires IsWarping(w, i, j) && i <= |a| && j <= |b|
    ensures InTable(w, a, b)
  {
    var last := |w| - 1;
    if last > 0 {
      var c := w[last - 1];
      assert IsStep(c, w[last]);
      WarpingStaysInTable(w[..last], a, b, c.0, c.1);
      forall k | 0 <= k < |w| ensures 1 <= w[k].0 <= |a| && 1 <= w[k].1 <= |b| {
        assert k < last ==> w[k] == w[..last][k];
      }
    }
  }

  /** No alignment is cheaper than the table entry. */
  lemma {:induction false} NoWarpingIsCheaper(sqrt: real -> real, a: Path, b: Path, w: seq<Cell>, i: nat, j: nat)
    requires Comparable(a, b) && IsWarping(w, i, j) && i <= |a| && j <= |b| && InTable(w, a, b)
    ensures Table(sqrt, a, b, i, j).Finite?
    ensures Table(sqrt, a, b, i, j).value <= WarpingCost(sqrt, a, b, w)
    decreases |w|
  {
    var last := |w| - 1;
    if last == 0 {
      assert w[..last] == [];
      assert Table(sqrt, a, b, 0, 0) == Finite(0.0);
    } else {
      var c := w[last - 1];
      assert IsStep(c, w[last]);
      hide Table, Comparable, CellCost;
      NoWarpingIsCheaper(sqrt, a, b, w[..last], c.0, c.1);
      CellBelowNeighbour(sqrt, a, b, c, i, j);
    }
  }

  /** A cell costs at most its own cost more than any neighbour a step leads from. */
  lemma CellBelowNeighbour(sqrt: real -> real, a: Path, b: Path, c: Cell, i: nat, j: nat)
    requires Comparable(a, b) && 1 <= i <= |a| && 1 <= j <= |b| && IsStep(c, (i, j)) && Table(sqrt, a, b, c.0, c.1).Finite?
    ensures Table(sqrt, a, b, i, j).Finite?
    ensures Table(sqrt, a, b, i, j).value <= Table(sqrt, a, b, c.0, c.1).value + CellCost(sqrt, a, b, i, j)
  {
    hide Comparable, CellCost;
    TableCell(sqrt, a, b, i, j);
    hide Table;
  }

  /** Some alignment costs exactly the table entry. */
  lemma {:induction false} BestWarping(sqrt: real -> real, a: Path, b: Path, i: nat, j: nat) returns (w: seq<Cell>)
    requires Comparable(a, b) && 1 <= i <= |a| && 1 <= j <= |b|
    ensures IsWarping(w, i, j) && InTable(w, a, b)
    ensures Table(sqrt, a, b, i, j) == Finite(WarpingCost(sqrt, a, b, w))
    decreases i + j
  {
    hide Comparable, CellCost, IsWarping;
    var up, left, diagonal :=
      Table(sqrt, a, b, i - 1, j), Table(sqrt, a, b, i, j - 1), Table(sqrt, a, b, i - 1, j - 1);
    if i == 1 && j == 1 {
      w := FirstCell(sqrt, a, b);
    } else if Min(Min(up, left), diagonal) == diagonal && i > 1 && j > 1 {
      var v := BestWarping(sqrt, a, b, i - 1, j - 1);
      w := Extend(sqrt, a, b, v, (i - 1, j - 1), (i, j));
    } else if i > 1 && (j == 1 || Min(up, left) == up) {
      var v := BestWarping(sqrt, a, b, i - 1, j);
      w := Extend(sqrt, a, b, v, (i - 1, j), (i, j));
    } else {
      var v := BestWarping(sqrt, a, b, i, j - 1);
      w := Extend(sqrt, a, b, v, (i, j - 1), (i, j));
    }
  }

  lemma FirstCell(sqrt: real -> real, a: Path, b: Path) returns (w: seq<Cell>)
    requires Comparable(a, b) && a != [] && b != []
    ensures IsWarping(w, 1, 1) && InTable(w, a, b)
    ensures Table(sqrt, a, b, 1, 1) == Finite(WarpingCost(sqrt, a, b, w))
  {
    w := [(1, 1)];
    assert Table(sqrt, a, b, 0, 0) == Finite(0.0);
    assert w[..0] == [];
  }

  lemma Extend(sqrt: real -> real, a: Path, b: Path, v: seq<Cell>, c: Cell, d: Cell) returns (w: seq<Cell>)
    requires Comparable(a, b) && IsWarping(v, c.0, c.1) && InTable(v, a, b) && IsStep(c, d)
    requires d.0 <= |a| && d.1 <= |b|
    ensures IsWarping(w, d.0, d.1) && InTable(w, a, b)
    ensures WarpingCost(sqrt, a, b, w) == WarpingCost(sqrt, a, b, v) + CellCost(sqrt, a, b, d.0, d.1)
  {
    w := v + [d];
    assert w[..|w| - 1] == v;
    forall k | 0 <= k < |w| - 1 ensures IsStep(w[k], w[k + 1]) {
      if k < |v| - 1 {
        assert w[k] == v[k] && w[k + 1] == v[k + 1];
      }
    }
  }

  /** The distance of two nonempty paths is the minimum total cost over all alignments. */
  lemma DistanceIsMinimum(sqrt: real -> real, a: Path, b: Path)
    requires Comparable(a, b) && a != [] && b != []
    ensures Distance(sqrt, a, b).Finite?
    ensures exists w ::
      IsWarping(w, |a|, |b|) && InTable(w, a, b) && WarpingCost(sqrt, a, b, w) == Distance(sqrt, a, b).value
    ensures forall w :: IsWarping(w, |a|, |b|) ==>
      InTable(w, a, b) && Distance(sqrt, a, b).value <= WarpingCost(sqrt, a, b, w)
  {
    var best := BestWarping(sqrt, a, b, |a|, |b|);
    forall w | IsWarping(w, |a|, |b|)
      ensures InTable(w, a, b) && Distance(sqrt, a, b).value <= WarpingCost(sqrt, a, b, w)
    {
      WarpingStaysInTable(w, a, b, |a|, |b|);
      NoWarpingIsCheaper(sqrt, a, b, w, |a|, |b|);
    }
  }

  lemma {:induction false} TableIsSymmetric(sqrt: real -> real, a: Path, b: Path, i: nat, j: nat)
    requires IsSqrt(sqrt) && Comparable(a, b) && Comparable(b, a) && i <= |a| && j <= |b|
    ensures Table(sqrt, a, b, i, j) == Table(sqrt, b, a, j, i)
    decreases i + j
  {
    hide *;
    if i == 0 {
      TableTop(sqrt, a, b, j);
      TableEdge(sqrt, b, a, j);
    } else if j == 0 {
      TableEdge(sqrt, a, b, i);
      TableTop(sqrt, b, a, i);
    } else {
      CellCostIsSymmetric(sqrt, a, b, i, j);
      TableCell(sqrt, a, b, i, j);
      TableCell(sqrt, b, a, j, i);
      TableIsSymmetric(sqrt, a, b, i - 1, j);
      TableIsSymmetric(sqrt, a, b, i, j - 1);
      TableIsSymmetric(sqrt, a, b, i - 1, j - 1);
      MinIsSymmetric(Table(sqrt, a, b, i - 1, j), Table(sqrt, a, b, i, j - 1));
    }
  }

  lemma CellCostIsSymmetric(sqrt: real -> real, a: Path, b: Path, i: nat, j: nat)
    requires IsSqrt(sqrt) && Comparable(a, b) && Comparable(b, a) && 1 <= i <= |a| && 1 <= j <= |b|
    ensures CellCost(sqrt, a, b, i, j) == CellCost(sqrt, b, a, j, i)
  {
    EuclideanIsDistance(sqrt, a[i - 1], b[j - 1]);
  }

  lemma MinIsSymmetric(x: Cost, y: Cost)
    ensures Min(x, y) == Min(y, x)
  {
  }

  lemma DistanceIsSymmetric(sqrt: real -> real, a: Path, b: Path)
    requires IsSqrt(sqrt) && Comparable(a, b)
    ensures Comparable(b, a) && Distance(sqrt, a, b) == Distance(sqrt, b, a)
  {
    TableIsSymmetric(sqrt, a, b, |a|, |b|);
  }

  /** Every aligned pair of points is equal. */
  predicate AlignsEqualPoints(a: Path, b: Path, w: seq<Cell>)
    requires InTable(w, a, b)
  {
    forall k :: 0 <= k < |w| ==> a[w[k].0 - 1] == b[w[k].1 - 1]
  }

  lemma {:induction false} WarpingCostSeparates(sqrt: real -> real, a: Path, b: Path, w: seq<Cell>)
    requires IsSqrt(sqrt) && Comparable(a, b) && InTable(w, a, b)
    ensures WarpingCost(sqrt, a, b, w) >= 0.0
    ensures WarpingCost(sqrt, a, b, w) == 0.0 <==> AlignsEqualPoints(a, b, w)
  {
    if w != [] {
      var last := |w| - 1;
      WarpingCostSeparates(sqrt, a, b, w[..last]);
      EuclideanIsDistance(sqrt, a[w[last].0 - 1], b[w[last].1 - 1]);
      hide EuclideanDistance, IsSqrt, Comparable;
      assert AlignsEqualPoints(a, b, w) ==> AlignsEqualPoints(a, b, w[..last]);
      if AlignsEqualPoints(a, b, w[..last]) && a[w[last].0 - 1] == b[w[last].1 - 1] {
        forall k | 0 <= k < |w| ensures a[w[k].0 - 1] == b[w[k].1 - 1] {
          assert k < last ==> w[k] == w[..last][k];
        }
      }
    }
  }

  /** The distance is never negative, and zero exactly when the paths trace the same points at different speeds. */
  lemma ZeroDistance(sqrt: real -> real, a: Path, b: Path)
    requires IsSqrt(sqrt) && Comparable(a, b) && a != [] && b != []
    ensures Distance(sqrt, a, b).Finite? && Distance(sqrt, a, b).value >= 0.0
    ensures Distance(sqrt, a, b).value == 0.0 <==>
      exists w :: IsWarping(w, |a|, |b|) && InTable(w, a, b) && AlignsEqualPoints(a, b, w)
  {
    DistanceIsMinimum(sqrt, a, b);
    forall w | InTable(w, a, b)
      ensures WarpingCost(sqrt, a, b, w) >= 0.0
      ensures WarpingCost(sqrt, a, b, w) == 0.0 <==> AlignsEqualPoints(a, b, w)
    {
      WarpingCostSeparates(sqrt, a, b, w);
    }
  }

  /** A path is at distance zero from itself. */
  lemma SelfDistance(sqrt: real -> real, a: Path)
    requires IsSqrt(sqrt) && Comparable(a, a) && a != []
    ensures Distance(sqrt, a, a) == Finite(0.0)
  {
    ZeroDistance(sqrt, a, a);
    var w: seq<Cell> := seq(|a|, k requires 0 <= k < |a| => (k + 1, k + 1));
    assert forall k :: 0 <= k < |w| - 1 ==> IsStep(w[k], w[k + 1]);
    assert IsWarping(w, |a|, |a|) && InTable(w, a, a) && AlignsEqualPoints(a, a, w);
  }
}
