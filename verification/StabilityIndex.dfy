/**
  The population stability index: quantile edges of a reference sample, the share of each bin in two
  samples, and a sum of logarithmic terms that is never negative and vanishes only on equal shares.
 */
module StabilityIndex {
  import opened Vectors
  import opened Wrappers
  import opened Sorting
  import opened KolmogorovSmirnov
  import opened TailRisk

  const EPSILON: real := 0.000001

  /** What the model knows of the logarithm: its sign on positive numbers. */
  ghost predicate IsLog(log: real -> real) {
    forall x: real :: x > 0.0 ==> (log(x) > 0.0 <==> x > 1.0) && (log(x) < 0.0 <==> x < 1.0)
  }

  // ----- edges -----

  function Share(b: nat, bins: nat): real
    requires bins >= 1
  {
    b as real / bins as real
  }

  /** Where the b-th edge lies among n sorted values. */
  function Position(b: nat, n: nat, bins: nat): real
    requires bins >= 1 && n >= 1
  {
    b as real * (n - 1) as real / bins as real
  }

  lemma SharesInOrder(a: nat, b: nat, bins: nat)
    requires a <= b <= bins && bins >= 1
    ensures 0.0 <= Share(a, bins) <= Share(b, bins) <= 1.0
  {
  }

  lemma PositionIsRank(b: nat, n: nat, bins: nat)
    requires bins >= 1 && n >= 1
    ensures Position(b, n, bins) == Mul(Share(b, bins), (n - 1) as real)
  {
  }

  lemma QuantileAtRank(values: Vector, q: real, position: real)
    requires values != [] && 0.0 <= q <= 1.0 && position == Mul(q, (|values| - 1) as real)
    ensures 0.0 <= position <= (|values| - 1) as real
    ensures Quantile(values, q) == Interpolate(Sorted(AtMost(), values), position)
  {
    PositionInRange(q, |values|);
    hide Interpolate, Sorted;
  }

  lemma EvenRank(reference: Vector, b: nat, bins: nat)
    requires reference != [] && bins >= 1 && b <= bins
    ensures 0.0 <= Share(b, bins) <= 1.0
    ensures 0.0 <= Position(b, |reference|, bins) <= (|reference| - 1) as real
    ensures Quantile(reference, Share(b, bins)) == Interpolate(Sorted(AtMost(), reference), Position(b, |reference|, bins))
  {
    hide Interpolate, Sorted, Share, Position, Mul, Quantile;
    SharesInOrder(b, b, bins);
    PositionIsRank(b, |reference|, bins);
    QuantileAtRank(reference, Share(b, bins), Position(b, |reference|, bins));
  }

  /** The b-th edge is the quantile at the b-th even share. */
  ghost predicate IsEdge(reference: Vector, bins: nat, b: nat, edge: real)
    requires reference != [] && bins >= 1
  {
    0.0 <= Share(b, bins) <= 1.0 && edge == Quantile(reference, Share(b, bins))
  }

  lemma EdgesInOrder(reference: Vector, bins: nat, a: nat, b: nat, x: real, y: real)
    requires reference != [] && bins >= 1 && a <= b <= bins && IsEdge(reference, bins, a, x) && IsEdge(reference, bins, b, y)
    ensures x <= y
  {
    hide Share, Quantile;
    SharesInOrder(a, b, bins);
    QuantileIsMonotone(reference, Share(a, bins), Share(b, bins));
  }

  /** The edges are the evenly spaced quantiles of the reference, in ascending order. */
  method QuantileEdges(reference: Vector, bins: nat) returns (edges: Vector)
    requires reference != [] && bins >= 1
    ensures |edges| == bins - 1 && Ascending(edges)
    ensures forall k :: 0 <= k < |edges| ==> IsEdge(reference, bins, k + 1, edges[k])
  {
    hide Quantile, Interpolate, Sorted, Share, Position;
    var ordered := Sorted(AtMost(), reference);
    edges := [];
    for b := 1 to bins
      invariant |edges| == b - 1
      invariant forall k :: 0 <= k < |edges| ==> IsEdge(reference, bins, k + 1, edges[k])
    {
      EvenRank(reference, b, bins);
      var edge := Interpolate(ordered, Position(b, |ordered|, bins));
      assert IsEdge(reference, bins, b, edge);
      edges := edges + [edge];
    }
    forall i, j | 0 <= i < j < |edges| ensures edges[i] <= edges[j] {
      EdgesInOrder(reference, bins, i + 1, j + 1, edges[i], edges[j]);
    }
  }

  // ----- bins -----

  /** The first bin whose edge the value does not exceed; the last bin is open. */
  function BinOf(v: real, edges: Vector): (b: nat)
    ensures b <= |edges| && (forall a :: 0 <= a < b ==> v > edges[a]) && (b < |edges| ==> v <= edges[b])
  {
    if edges == [] then 0
    else
      var n := |edges| - 1;
      var front := BinOf(v, edges[..n]);
      if front < n then front else if v <= edges[n] then n else n + 1
  }

  function CountIn(values: Vector, edges: Vector, b: nat): nat {
    if values == [] then 0
    else CountIn(values[..|values| - 1], edges, b) + if BinOf(values[|values| - 1], edges) == b then 1 else 0
  }

  /** The values in the first k bins. */
  function CountBelow(values: Vector, edges: Vector, k: nat): nat {
    if k == 0 then 0 else CountBelow(values, edges, k - 1) + CountIn(values, edges, k - 1)
  }

  lemma {:induction false} CountBelowSnoc(values: Vector, edges: Vector, k: nat)
    requires values != []
    ensures var n := |values| - 1;
      CountBelow(values, edges, k) == CountBelow(values[..n], edges, k) + if BinOf(values[n], edges) < k then 1 else 0
  {
    hide BinOf;
    if k > 0 {
      CountBelowSnoc(values, edges, k - 1);
    }
  }

  lemma {:induction false} NothingBelow(edges: Vector, k: nat)
    ensures CountBelow([], edges, k) == 0
  {
    if k > 0 {
      NothingBelow(edges, k - 1);
    }
  }

  /** With ascending edges, the bins up to an edge hold exactly the values at or below it. */
  lemma {:induction false} BinsCumulate(values: Vector, edges: Vector, k: nat)
    requires Ascending(edges) && k < |edges|
    ensures CountBelow(values, edges, k + 1) == CountAtMost(values, edges[k])
  {
    if values == [] {
      NothingBelow(edges, k + 1);
    } else {
      var n := |values| - 1;
      BinsCumulate(values[..n], edges, k);
      CountBelowSnoc(values, edges, k + 1);
      BinAgainstEdge(values[n], edges, k);
      hide BinOf, CountBelow;
    }
  }

  lemma BinAgainstEdge(v: real, edges: Vector, k: nat)
    requires Ascending(edges) && k < |edges|
    ensures BinOf(v, edges) <= k <==> v <= edges[k]
  {
    var b := BinOf(v, edges);
    hide BinOf;
    if b < k {
      assert edges[b] <= edges[k];
    }
  }

  /** Every value lands in one of the bins. */
  lemma {:induction false} BinsHoldAll(values: Vector, edges: Vector)
    ensures CountBelow(values, edges, |edges| + 1) == |values|
  {
    hide BinOf;
    if values == [] {
      NothingBelow(edges, |edges| + 1);
    } else {
      BinsHoldAll(values[..|values| - 1], edges);
      CountBelowSnoc(values, edges, |edges| + 1);
      hide CountBelow;
    }
  }

  function ShareIn(values: Vector, edges: Vector, b: nat): real
    requires values != []
  {
    CountIn(values, edges, b) as real / |values| as real
  }

  /** The share of each bin. */
  method Histogram(values: Vector, edges: Vector) returns (shares: Vector)
    requires values != []
    ensures |shares| == |edges| + 1
    ensures forall b :: 0 <= b < |shares| ==> shares[b] == ShareIn(values, edges, b)
  {
    hide BinOf;
    var counts := new nat[|edges| + 1](_ => 0);
    for i := 0 to |values|
      invariant forall b :: 0 <= b < counts.Length ==> counts[b] == CountIn(values[..i], edges, b)
    {
      var b := 0;
      while b < |edges| && values[i] > edges[b]
        invariant b <= |edges| && forall a :: 0 <= a < b ==> values[i] > edges[a]
      {
        b := b + 1;
      }
      assert b == BinOf(values[i], edges);
      assert values[..i + 1][..i] == values[..i];
      counts[b] := counts[b] + 1;
    }
    assert values[..|values|] == values;
    shares := seq(counts.Length, b requires 0 <= b < counts.Length reads counts => counts[b] as real / |values| as real);
  }

  // ----- the index -----

  function Floored(p: real): real {
    if p > EPSILON then p else EPSILON
  }

  function Term(log: real -> real, p: real, q: real): real
    requires p > 0.0
  {
    (q - p) * log(q / p)
  }

  /** Both factors have the sign of the shift, so a term vanishes exactly when the shares agree. */
  lemma TermSign(log: real -> real, p: real, q: real)
    requires IsLog(log) && p > 0.0 && q > 0.0
    ensures Term(log, p, q) >= 0.0 && (Term(log, p, q) == 0.0 <==> p == q)
  {
    RatioSign(p, q);
    if q > p {
      MulPositive(q - p, log(q / p));
    } else if q < p {
      MulPositive(p - q, -log(q / p));
    }
  }

  lemma RatioSign(p: real, q: real)
    requires p > 0.0 && q > 0.0
    ensures q / p > 0.0 && (q / p > 1.0 <==> q > p) && (q / p < 1.0 <==> q < p)
  {
    var r := q / p;
    assert r * p == q;
    if r > 1.0 {
      MulPositive(r - 1.0, p);
    } else if r < 1.0 {
      MulPositive(1.0 - r, p);
    }
  }

  function TermAt(log: real -> real, a: Vector, b: Vector, edges: Vector, k: nat): real
    requires a != [] && b != []
  {
    Term(log, Floored(ShareIn(a, edges, k)), Floored(ShareIn(b, edges, k)))
  }

  /** The index over the first k bins. */
  function IndexOf(log: real -> real, a: Vector, b: Vector, edges: Vector, k: nat): real
    requires a != [] && b != []
  {
    if k == 0 then 0.0 else IndexOf(log, a, b, edges, k - 1) + TermAt(log, a, b, edges, k - 1)
  }

  predicate SharesAgree(a: Vector, b: Vector, edges: Vector, k: nat)
    requires a != [] && b != []
  {
    forall j :: 0 <= j < k ==> Floored(ShareIn(a, edges, j)) == Floored(ShareIn(b, edges, j))
  }

  /** Never negative, and zero exactly when the two samples have the same floored shares in every bin. */
  lemma {:induction false} IndexSeparates(log: real -> real, a: Vector, b: Vector, edges: Vector, k: nat)
    requires IsLog(log) && a != [] && b != []
    ensures IndexOf(log, a, b, edges, k) >= 0.0
    ensures IndexOf(log, a, b, edges, k) == 0.0 <==> SharesAgree(a, b, edges, k)
  {
    hide ShareIn, Floored, Term, IsLog;
    if k > 0 {
      IndexSeparates(log, a, b, edges, k - 1);
      FlooredPositive(ShareIn(a, edges, k - 1));
      FlooredPositive(ShareIn(b, edges, k - 1));
      TermSign(log, Floored(ShareIn(a, edges, k - 1)), Floored(ShareIn(b, edges, k - 1)));
    }
  }

  lemma FlooredPositive(p: real)
    ensures Floored(p) > 0.0
  {
  }

  /** The index of a reference against itself is zero; of any two samples it is not negative. */
  method Psi(log: real -> real, reference: Vector, recent: Vector, bins: nat) returns (index: Option<real>, ghost edges: Vector)
    requires IsLog(log) && bins >= 1
    ensures index.None? <==> |reference| < bins || recent == []
    ensures index.Some? ==> |edges| == bins - 1 && Ascending(edges)
    ensures index.Some? ==> index.value >= 0.0 && (index.value == 0.0 <==> SharesAgree(reference, recent, edges, bins))
    ensures index.Some? && recent == reference ==> index.value == 0.0
  {
    hide IsLog, ShareIn, Term, Floored, Ascending, SharesAgree;
    edges := [];
    if |reference| < bins || recent == [] {
      return None, edges;
    }
    var cuts := QuantileEdges(reference, bins);
    edges := cuts;
    var refDist := Histogram(reference, cuts);
    var recDist := Histogram(recent, cuts);
    var total := 0.0;
    for b := 0 to |refDist|
      invariant total == IndexOf(log, reference, recent, cuts, b)
    {
      var pRef, pRec := Floored(refDist[b]), Floored(recDist[b]);
      FlooredPositive(refDist[b]);
      total := total + Term(log, pRef, pRec);
    }
    IndexSeparates(log, reference, recent, cuts, bins);
    SameShares(reference, cuts, bins);
    index := Some(total);
  }

  lemma SameShares(a: Vector, edges: Vector, k: nat)
    requires a != []
    ensures SharesAgree(a, a, edges, k)
  {
  }
}
