/**
  The Kolmogorov-Smirnov statistic: binary searches over sorted copies, and a maximum over the pooled
  sample that is the supremum of the gap between the two empirical distributions over every real.
 */
module KolmogorovSmirnov {
  import opened Vectors
  import opened Wrappers
  import opened Sorting

  function AtMost(): (real, real) -> bool {
    (x, y) => x <= y
  }

  lemma SortAscends(s: Vector)
    ensures IsSorted(AtMost(), Sorted(AtMost(), s))
    ensures forall i, j :: 0 <= i < j < |s| ==> Sorted(AtMost(), s)[i] <= Sorted(AtMost(), s)[j]
  {
    SortSorts(AtMost(), s);
    var r := Sorted(AtMost(), s);
    assert forall i, j :: 0 <= i < j < |s| ==> AtMost()(r[i], r[j]);
  }

  // ----- empirical distributions -----

  function CountAtMost(s: Vector, x: real): (c: nat)
    ensures c <= |s|
  {
    if s == [] then 0 else CountAtMost(s[..|s| - 1], x) + if s[|s| - 1] <= x then 1 else 0
  }

  /** The fraction of values at or below x. */
  function Ecdf(s: Vector, x: real): real
    requires s != []
  {
    CountAtMost(s, x) as real / |s| as real
  }

  function Gap(a: Vector, b: Vector, x: real): real
    requires a != [] && b != []
  {
    Abs(Ecdf(a, x) - Ecdf(b, x))
  }

  lemma {:induction false} CountOfInsert(t: Vector, v: real, x: real)
    ensures CountAtMost(Insert(AtMost(), t, v), x) == CountAtMost(t, x) + if v <= x then 1 else 0
  {
    if t == [] || AtMost()(t[|t| - 1], v) {
      assert (t + [v])[..|t|] == t;
    } else {
      var n := |t| - 1;
      CountOfInsert(t[..n], v, x);
      var front := Insert(AtMost(), t[..n], v);
      assert (front + [t[n]])[..|front|] == front;
    }
  }

  /** Sorting a sample leaves its distribution alone. */
  lemma {:induction false} CountOfSorted(s: Vector, x: real)
    ensures CountAtMost(Sorted(AtMost(), s), x) == CountAtMost(s, x)
  {
    if s != [] {
      var n := |s| - 1;
      CountOfSorted(s[..n], x);
      CountOfInsert(Sorted(AtMost(), s[..n]), s[n], x);
    }
  }

  /** In an ascending sample, the count is where the values stop being at most x. */
  lemma {:induction false} CountIsBoundary(s: Vector, x: real, k: nat)
    requires k <= |s|
    requires forall i :: 0 <= i < k ==> s[i] <= x
    requires forall i :: k <= i < |s| ==> s[i] > x
    ensures CountAtMost(s, x) == k
  {
    if s != [] {
      var n := |s| - 1;
      CountIsBoundary(s[..n], x, if k == |s| then n else k);
    }
  }

  method SearchEcdf(values: Vector, x: real) returns (fraction: real)
    requires values != [] && IsSorted(AtMost(), values)
    ensures fraction == Ecdf(values, x)
  {
    var low, high := 0, |values|;
    while low < high
      invariant 0 <= low <= high <= |values|
      invariant forall i :: 0 <= i < low ==> values[i] <= x
      invariant forall i :: high <= i < |values| ==> values[i] > x
      decreases high - low
    {
      var mid := (low + high) / 2;
      assert forall i :: 0 <= i < mid ==> AtMost()(values[i], values[mid]);
      assert forall i :: mid < i < |values| ==> AtMost()(values[mid], values[i]);
      if values[mid] <= x {
        low := mid + 1;
      } else {
        high := mid;
      }
    }
    CountIsBoundary(values, x, low);
    fraction := low as real / |values| as real;
  }

  // ----- the statistic -----

  /** Every value of s once, in order of first appearance. */
  function Dedupe(s: Vector): (r: Vector)
    ensures forall x :: x in r <==> x in s
  {
    if s == [] then []
    else
      var front := Dedupe(s[..|s| - 1]);
      assert s == s[..|s| - 1] + [s[|s| - 1]];
      if s[|s| - 1] in front then front else front + [s[|s| - 1]]
  }

  /** d is the supremum of the gap over all reals, and it is attained. */
  ghost predicate IsSupremum(a: Vector, b: Vector, d: real)
    requires a != [] && b != []
  {
    (forall x: real :: Gap(a, b, x) <= d) && exists x: real :: Gap(a, b, x) == d
  }

  method KsStatistic(reference: Vector, recent: Vector) returns (d: Option<real>)
    ensures d.None? <==> reference == [] || recent == []
    ensures d.Some? ==> IsSupremum(reference, recent, d.value)
  {
    if reference == [] || recent == [] {
      return None;
    }
    var refSorted, recSorted := Sorted(AtMost(), reference), Sorted(AtMost(), recent);
    SortAscends(reference);
    SortAscends(recent);
    var pooled := Dedupe(refSorted + recSorted);
    var support := Sorted(AtMost(), pooled);
    SupportCovers(reference, recent);
    hide *;
    var best := 0.0;
    ghost var at := support[0];
    for k := 0 to |support|
      invariant forall j :: 0 <= j < k ==> Gap(reference, recent, support[j]) <= best
      invariant k > 0 ==> Gap(reference, recent, at) == best
    {
      var x := support[k];
      var p := SearchEcdf(refSorted, x);
      var q := SearchEcdf(recSorted, x);
      GapOfSorted(reference, recent, x);
      var gap := Abs(p - q);
      if k == 0 || gap > best {
        best := gap;
        at := x;
      }
    }
    MaximumIsSupremum(reference, recent, support, best, at);
    return Some(best);
  }

  lemma SupportCovers(a: Vector, b: Vector)
    requires a != [] && b != []
    ensures var support := Sorted(AtMost(), Dedupe(Sorted(AtMost(), a) + Sorted(AtMost(), b)));
      support != [] && forall x :: x in support <==> x in a || x in b
    ensures Sorted(AtMost(), a) != [] && Sorted(AtMost(), b) != []
  {
    var p, q := Sorted(AtMost(), a), Sorted(AtMost(), b);
    var pooled := Dedupe(p + q);
    forall x ensures x in Sorted(AtMost(), pooled) <==> x in a || x in b {
      SortKeepsMembers(AtMost(), pooled, x);
      SortKeepsMembers(AtMost(), a, x);
      SortKeepsMembers(AtMost(), b, x);
    }
    assert a[0] in a;
  }

  lemma GapOfSorted(a: Vector, b: Vector, x: real)
    requires a != [] && b != []
    ensures Sorted(AtMost(), a) != [] && Sorted(AtMost(), b) != []
    ensures Gap(a, b, x) == Abs(Ecdf(Sorted(AtMost(), a), x) - Ecdf(Sorted(AtMost(), b), x))
  {
    CountOfSorted(a, x);
    CountOfSorted(b, x);
  }

  /** Between two pooled values neither distribution moves. */
  lemma {:induction false} CountIsStep(s: Vector, x: real, y: real)
    requires y <= x && forall v :: v in s ==> !(y < v <= x)
    ensures CountAtMost(s, x) == CountAtMost(s, y)
  {
    if s != [] {
      var n := |s| - 1;
      assert s == s[..n] + [s[n]];
      assert s[n] in s && forall v :: v in s[..n] ==> v in s;
      CountIsStep(s[..n], x, y);
    }
  }

  lemma {:induction false} CountIsZero(s: Vector, x: real)
    requires forall v :: v in s ==> v > x
    ensures CountAtMost(s, x) == 0
  {
    if s != [] {
      var n := |s| - 1;
      assert s == s[..n] + [s[n]];
      assert s[n] in s && forall v :: v in s[..n] ==> v in s;
      CountIsZero(s[..n], x);
    }
  }

  /** The largest value at or below x, if any. */
  lemma {:induction false} LargestBelow(s: Vector, x: real) returns (y: Option<real>)
    ensures y.None? ==> forall v :: v in s ==> v > x
    ensures y.Some? ==> y.value in s && y.value <= x && forall v :: v in s ==> !(y.value < v <= x)
  {
    if s == [] {
      return None;
    }
    var n := |s| - 1;
    assert s == s[..n] + [s[n]];
    y := LargestBelow(s[..n], x);
    if s[n] <= x && (y.None? || y.value < s[n]) {
      y := Some(s[n]);
    }
  }

  lemma MaximumIsSupremum(a: Vector, b: Vector, support: Vector, best: real, at: real)
    requires a != [] && b != [] && forall x :: x in support <==> x in a || x in b
    requires forall j :: 0 <= j < |support| ==> Gap(a, b, support[j]) <= best
    requires Gap(a, b, at) == best
    ensures IsSupremum(a, b, best)
  {
    forall x: real ensures Gap(a, b, x) <= best {
      GapBelowMaximum(a, b, support, best, at, x);
    }
  }

  lemma GapBelowMaximum(a: Vector, b: Vector, support: Vector, best: real, at: real, x: real)
    requires a != [] && b != [] && forall v :: v in support <==> v in a || v in b
    requires forall j :: 0 <= j < |support| ==> Gap(a, b, support[j]) <= best
    requires Gap(a, b, at) == best
    ensures Gap(a, b, x) <= best
  {
    var y := LargestBelow(support, x);
    if y.None? {
      CountIsZero(a, x);
      CountIsZero(b, x);
      assert Gap(a, b, x) == 0.0;
    } else {
      CountIsStep(a, x, y.value);
      CountIsStep(b, x, y.value);
      assert Gap(a, b, x) == Gap(a, b, y.value);
      hide Gap;
      var j :| 0 <= j < |support| && support[j] == y.value;
    }
  }

  // ----- what the supremum is like -----

  lemma EcdfInUnitInterval(s: Vector, x: real)
    requires s != []
    ensures 0.0 <= Ecdf(s, x) <= 1.0
    ensures Ecdf(s, x) == 0.0 <==> CountAtMost(s, x) == 0
    ensures Ecdf(s, x) == 1.0 <==> CountAtMost(s, x) == |s|
  {
    UnitQuotient(CountAtMost(s, x) as real, |s| as real);
    hide CountAtMost;
  }

  lemma UnitQuotient(c: real, n: real)
    requires 0.0 <= c <= n && n > 0.0
    ensures 0.0 <= c / n <= 1.0 && (c / n == 0.0 <==> c == 0.0) && (c / n == 1.0 <==> c == n)
  {
    var q := c / n;
    assert q * n == c;
    if q > 1.0 {
      MulPositive(q - 1.0, n);
    } else if q < 0.0 {
      MulPositive(-q, n);
    }
  }

  /** There is only one supremum; it is symmetric in the samples and lies in 0..1. */
  lemma SupremumIsSymmetric(a: Vector, b: Vector, d: real, e: real)
    requires a != [] && b != [] && IsSupremum(a, b, d) && IsSupremum(b, a, e)
    ensures d == e && 0.0 <= d <= 1.0
  {
    forall x: real ensures Gap(a, b, x) == Gap(b, a, x) && 0.0 <= Gap(a, b, x) <= 1.0 {
      EcdfInUnitInterval(a, x);
      EcdfInUnitInterval(b, x);
    }
    hide Gap;
    var x: real :| Gap(a, b, x) == d;
    var y: real :| Gap(b, a, y) == e;
    assert Gap(a, b, y) <= d && Gap(b, a, x) <= e;
  }

  predicate AllBelow(a: Vector, b: Vector) {
    forall i, j :: 0 <= i < |a| && 0 <= j < |b| ==> a[i] < b[j]
  }

  lemma {:induction false} FullCount(s: Vector, x: real)
    ensures CountAtMost(s, x) == |s| <==> forall i :: 0 <= i < |s| ==> s[i] <= x
    ensures CountAtMost(s, x) == 0 <==> forall i :: 0 <= i < |s| ==> s[i] > x
  {
    if s != [] {
      FullCount(s[..|s| - 1], x);
    }
  }

  /** The statistic is 1 exactly when one sample lies entirely below the other. */
  lemma OneMeansSeparated(a: Vector, b: Vector, d: real)
    requires a != [] && b != [] && IsSupremum(a, b, d)
    ensures d == 1.0 <==> AllBelow(a, b) || AllBelow(b, a)
  {
    forall x: real
      ensures Gap(a, b, x) <= 1.0
      ensures Gap(a, b, x) == 1.0 <==> Splits(a, b, x) || Splits(b, a, x)
    {
      EcdfInUnitInterval(a, x);
      EcdfInUnitInterval(b, x);
      FullCount(a, x);
      FullCount(b, x);
    }
    hide Gap, Ecdf;
    if d == 1.0 {
      var x: real :| Gap(a, b, x) == d;
      assert Splits(a, b, x) || Splits(b, a, x);
    }
    if AllBelow(a, b) {
      SeparatedHasSplit(a, b);
      var x: real :| Splits(a, b, x);
      assert Gap(a, b, x) == 1.0;
    }
    if AllBelow(b, a) {
      SeparatedHasSplit(b, a);
      var x: real :| Splits(b, a, x);
      assert Gap(a, b, x) == 1.0;
    }
  }

  predicate Splits(a: Vector, b: Vector, x: real) {
    (forall i :: 0 <= i < |a| ==> a[i] <= x) && forall j :: 0 <= j < |b| ==> b[j] > x
  }

  lemma {:induction false} MaximumExists(a: Vector) returns (k: nat)
    requires a != []
    ensures k < |a| && forall i :: 0 <= i < |a| ==> a[i] <= a[k]
  {
    var n := |a| - 1;
    if n == 0 {
      k := 0;
    } else {
      var m := MaximumExists(a[..n]);
      k := if a[m] >= a[n] then m else n;
      assert forall i :: 0 <= i < n ==> a[i] == a[..n][i] <= a[m];
    }
  }

  lemma SeparatedHasSplit(a: Vector, b: Vector)
    requires a != [] && AllBelow(a, b)
    ensures exists x: real :: Splits(a, b, x)
  {
    var k := MaximumExists(a);
    assert Splits(a, b, a[k]);
  }
}
