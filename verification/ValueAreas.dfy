/** The session profile: closes binned by price, and the value area grown around the busiest bin. */
module ValueAreas {
  import opened Vectors
  import opened Wrappers

  const PROFILE_BINS: nat := 30
  const VALUE_AREA: real := 0.70

  /** Rounding toward zero. */
  function Truncated(x: real): int {
    if x >= 0.0 then x.Floor else -(-x).Floor
  }

  /**
    The bin of a close, the top edge falling into the last one. A close below the session low counts bins from
    the end, as a negative list index does, and beyond the first bin there is none.
   */
  function BinOf(close: real, low: real, width: real): (b: Option<nat>)
    requires width > 0.0
    ensures b.Some? ==> b.value < PROFILE_BINS
    ensures low <= close ==> b.Some?
  {
    var q := Truncated((close - low) / width);
    var index := if q < PROFILE_BINS - 1 then q else PROFILE_BINS - 1;
    if index >= 0 then Some(index) else if index + PROFILE_BINS >= 0 then Some(index + PROFILE_BINS) else None
  }

  /** Bins are left-closed price intervals of one width from the low, the last one open-ended. */
  lemma BinIsInterval(close: real, low: real, width: real, b: nat)
    requires width > 0.0 && low <= close && b < PROFILE_BINS
    ensures BinOf(close, low, width) == Some(b)
      <==> low + b as real * width <= close && (b == PROFILE_BINS - 1 || close < low + (b + 1) as real * width)
  {
    var x := close - low;
    FloorIsInterval(x, width, b);
    FloorReaches(x, width, b);
    var q := Truncated(x / width);
    assert q == (x / width).Floor >= 0;
    assert BinOf(close, low, width) == Some(if q < PROFILE_BINS - 1 then q else PROFILE_BINS - 1);
  }

  lemma FloorIsInterval(x: real, width: real, b: nat)
    requires width > 0.0 && x >= 0.0
    ensures x / width >= 0.0
    ensures (x / width).Floor == b <==> b as real * width <= x < (b + 1) as real * width
  {
    var q := x / width;
    assert q * width == x;
    Compare(q, 0.0, width);
    FloorReaches(x, width, b);
    FloorReaches(x, width, b + 1);
  }

  lemma FloorReaches(x: real, width: real, b: nat)
    requires width > 0.0 && x >= 0.0
    ensures (x / width).Floor >= b <==> b as real * width <= x
  {
    var q := x / width;
    assert q * width == x;
    Compare(q, b as real, width);
  }

  lemma Compare(x: real, y: real, width: real)
    requires width > 0.0
    ensures x < y <==> x * width < y * width
  {
    if x < y {
      MulPositive(y - x, width);
    } else {
      MulMonotone(width, y, x);
    }
  }

  /** A close between m and m + 1 widths below the low is binned m bins from the end, and in the first bin if m is 0. */
  lemma BinBelowLow(close: real, low: real, width: real, m: nat)
    requires width > 0.0 && m as real * width <= low - close < (m + 1) as real * width && low != close
    ensures BinOf(close, low, width)
         == if m == 0 then Some(0) else if m <= PROFILE_BINS then Some(PROFILE_BINS - m) else None
  {
    FloorIsInterval(low - close, width, m);
    assert (close - low) / width == -((low - close) / width);
  }

  /** The weight of the closes that fall into bin b. */
  function BinWeight(closes: Vector, weights: Vector, low: real, width: real, b: nat): real
    requires |closes| == |weights| && width > 0.0
  {
    if closes == [] then 0.0
    else
      var n := |closes| - 1;
      BinWeight(closes[..n], weights[..n], low, width, b) + if BinOf(closes[n], low, width) == Some(b) then weights[n] else 0.0
  }

  lemma {:induction false} SumUpdate(s: Vector, i: nat, v: real)
    requires i < |s|
    ensures Sum(s[i := v]) == Sum(s) - s[i] + v
  {
    var n := |s| - 1;
    if i == n {
      assert s[i := v][..n] == s[..n];
    } else {
      SumUpdate(s[..n], i, v);
      assert s[i := v][..n] == s[..n][i := v];
    }
  }

  lemma {:induction false} SumZeros(n: nat)
    ensures Sum(Zeros(n)) == 0.0
  {
    if n > 0 {
      SumZeros(n - 1);
      assert Zeros(n)[..n - 1] == Zeros(n - 1);
    }
  }

  lemma BinWeightSnoc(closes: Vector, weights: Vector, low: real, width: real, b: nat, i: nat)
    requires |closes| == |weights| && width > 0.0 && i < |closes|
    ensures BinWeight(closes[..i + 1], weights[..i + 1], low, width, b)
         == BinWeight(closes[..i], weights[..i], low, width, b) + if BinOf(closes[i], low, width) == Some(b) then weights[i] else 0.0
  {
    hide BinOf;
    assert closes[..i + 1][..i] == closes[..i] && weights[..i + 1][..i] == weights[..i];
  }

  /**
    Binning loses no weight: each bin holds its closes' weight and all bins together hold everything. It fails
    exactly if some close lies so far below the session low that it has no bin.
   */
  method FillBins(closes: Vector, weights: Vector, low: real, width: real) returns (filled: Option<array<real>>)
    requires |closes| == |weights| && width > 0.0
    ensures filled.None? <==> exists i :: 0 <= i < |closes| && BinOf(closes[i], low, width).None?
    ensures filled.Some? ==> fresh(filled.value) && filled.value.Length == PROFILE_BINS
    ensures filled.Some? ==> forall b :: 0 <= b < PROFILE_BINS ==> filled.value[b] == BinWeight(closes, weights, low, width, b)
    ensures filled.Some? ==> Sum(filled.value[..]) == Sum(weights)
  {
    hide BinOf, Sum;
    var bins := new real[PROFILE_BINS](_ => 0.0);
    assert bins[..] == Zeros(PROFILE_BINS);
    SumZeros(PROFILE_BINS);
    assert closes[..0] == [] && weights[..0] == Zeros(0);
    SumZeros(0);
    for i := 0 to |closes|
      invariant fresh(bins) && bins.Length == PROFILE_BINS
      invariant forall j :: 0 <= j < i ==> BinOf(closes[j], low, width).Some?
      invariant forall b :: 0 <= b < PROFILE_BINS ==> bins[b] == BinWeight(closes[..i], weights[..i], low, width, b)
      invariant Sum(bins[..]) == Sum(weights[..i])
    {
      var index := BinOf(closes[i], low, width);
      if index.None? {
        return None;
      }
      ghost var was := bins[..];
      forall b: nat | b < PROFILE_BINS
        ensures BinWeight(closes[..i + 1], weights[..i + 1], low, width, b)
             == BinWeight(closes[..i], weights[..i], low, width, b) + if index.value == b then weights[i] else 0.0
      {
        BinWeightSnoc(closes, weights, low, width, b, i);
      }
      bins[index.value] := bins[index.value] + weights[i];
      assert bins[..] == was[index.value := was[index.value] + weights[i]];
      SumUpdate(was, index.value, was[index.value] + weights[i]);
      SumAppend(weights[..i], [weights[i]]);
      SumOne(weights[i]);
      assert weights[..i + 1] == weights[..i] + [weights[i]];
    }
    assert closes[..|closes|] == closes && weights[..|closes|] == weights;
    return Some(bins);
  }

  lemma SumOne(x: real)
    ensures Sum([x]) == x
  {
    assert [x][..0] == [];
    assert Sum([]) == 0.0;
  }

  // ----- the value area -----

  datatype Area = Area(low: nat, high: nat)

  function Covered(bins: Vector, a: Area): real
    requires a.low <= a.high < |bins|
  {
    Sum(bins[a.low..a.high + 1])
  }

  /** The larger neighbour, the upper one on a tie. */
  function Widen(bins: Vector, a: Area): Area
    requires a.low <= a.high < |bins| && (a.low > 0 || a.high + 1 < |bins|)
  {
    if a.low == 0 || (a.high + 1 < |bins| && bins[a.high + 1] >= bins[a.low - 1]) then Area(a.low, a.high + 1)
    else Area(a.low - 1, a.high)
  }

  /** Widened one bin at a time until enough is covered or nothing is left. */
  function Expanded(bins: Vector, a: Area, target: real): (r: Area)
    requires a.low <= a.high < |bins|
    ensures r.low <= a.low && a.high <= r.high < |bins|
    decreases a.low + |bins| - a.high
  {
    if Covered(bins, a) >= target || (a.low == 0 && a.high == |bins| - 1) then a
    else Expanded(bins, Widen(bins, a), target)
  }

  lemma WidenCovers(bins: Vector, a: Area)
    requires a.low <= a.high < |bins| && (a.low > 0 || a.high + 1 < |bins|)
    ensures var w := Widen(bins, a); Covered(bins, w) == Covered(bins, a) + if w.low < a.low then bins[w.low] else bins[w.high]
  {
    var w := Widen(bins, a);
    if w.low < a.low {
      SumAppend([bins[w.low]], bins[a.low..a.high + 1]);
      SumOne(bins[w.low]);
      assert bins[w.low..w.high + 1] == [bins[w.low]] + bins[a.low..a.high + 1];
    } else {
      SumAppend(bins[a.low..a.high + 1], [bins[w.high]]);
      SumOne(bins[w.high]);
      assert bins[w.low..w.high + 1] == bins[a.low..a.high + 1] + [bins[w.high]];
    }
  }

  /** The value area reaches its target, and was still short of it before its last bin was added. */
  lemma {:induction false} ExpandedIsEnoughAndNoMore(bins: Vector, a: Area, target: real)
    requires a.low <= a.high < |bins| && target <= Sum(bins)
    ensures var r := Expanded(bins, a, target);
      && Covered(bins, r) >= target
      && (r != a ==> (r.low < a.low && Covered(bins, Area(r.low + 1, r.high)) < target)
                     || (r.high > a.high && Covered(bins, Area(r.low, r.high - 1)) < target))
    decreases a.low + |bins| - a.high
  {
    hide Covered;
    WholeCoversAll(bins);
    if !(Covered(bins, a) >= target || (a.low == 0 && a.high == |bins| - 1)) {
      var w := Widen(bins, a);
      ExpandedIsEnoughAndNoMore(bins, w, target);
      hide Expanded;
      assert a == if w.low < a.low then Area(w.low + 1, w.high) else Area(w.low, w.high - 1);
    }
  }

  lemma WholeCoversAll(bins: Vector)
    requires bins != []
    ensures Covered(bins, Area(0, |bins| - 1)) == Sum(bins)
  {
    assert bins[0..|bins|] == bins;
  }

  /** Bin b was taken above: the area [l, b - 1] was short of its target and bin b no smaller than the bin below l. */
  ghost predicate TakenAbove(bins: Vector, r: Area, l: nat, b: nat, target: real)
    requires r.low <= r.high < |bins|
  {
    r.low <= l < b <= r.high && Covered(bins, Area(l, b - 1)) < target && (l > 0 ==> bins[b] >= bins[l - 1])
  }

  /** Bin b was taken below: the area [b + 1, h] was short of its target and bin b larger than the bin above h. */
  ghost predicate TakenBelow(bins: Vector, r: Area, h: nat, b: nat, target: real)
    requires r.low <= r.high < |bins|
  {
    r.low <= b < h <= r.high && Covered(bins, Area(b + 1, h)) < target && (h + 1 < |bins| ==> bins[b] > bins[h + 1])
  }

  ghost predicate WasTakenAbove(bins: Vector, r: Area, b: nat, target: real)
    requires r.low <= r.high < |bins|
  {
    exists l: nat :: TakenAbove(bins, r, l, b, target)
  }

  ghost predicate WasTakenBelow(bins: Vector, r: Area, b: nat, target: real)
    requires r.low <= r.high < |bins|
  {
    exists h: nat :: TakenBelow(bins, r, h, b, target)
  }

  /** Every bin of r outside a was taken for being the larger neighbour of an area still short of its target. */
  ghost predicate AllTaken(bins: Vector, a: Area, r: Area, target: real)
    requires r.low <= r.high < |bins|
  {
    && (forall b: nat :: a.high < b <= r.high ==> WasTakenAbove(bins, r, b, target))
    && (forall b: nat :: r.low <= b < a.low ==> WasTakenBelow(bins, r, b, target))
  }

  lemma TakenByWidening(bins: Vector, a: Area, r: Area, target: real)
    requires a.low <= a.high < |bins| && (a.low > 0 || a.high + 1 < |bins|) && Covered(bins, a) < target
    requires var w := Widen(bins, a); r.low <= w.low && w.high <= r.high < |bins|
    ensures var w := Widen(bins, a);
      if w.high > a.high then WasTakenAbove(bins, r, w.high, target) else WasTakenBelow(bins, r, w.low, target)
  {
    hide Covered;
    var w := Widen(bins, a);
    if w.high > a.high {
      assert Area(a.low, w.high - 1) == a;
      assert TakenAbove(bins, r, a.low, w.high, target);
    } else {
      assert Area(w.low + 1, a.high) == a;
      assert TakenBelow(bins, r, a.high, w.low, target);
    }
  }

  /** Every bin the area grew by was the larger neighbour when it was taken. */
  lemma {:induction false} GrowthPrefersLarger(bins: Vector, a: Area, target: real)
    requires a.low <= a.high < |bins|
    ensures AllTaken(bins, a, Expanded(bins, a, target), target)
    decreases a.low + |bins| - a.high
  {
    hide Covered;
    if !(Covered(bins, a) >= target || (a.low == 0 && a.high == |bins| - 1)) {
      var w := Widen(bins, a);
      GrowthPrefersLarger(bins, w, target);
      var r := Expanded(bins, w, target);
      assert Expanded(bins, a, target) == r;
      hide Expanded, TakenAbove, TakenBelow;
      TakenByWidening(bins, a, r, target);
      hide WasTakenAbove, WasTakenBelow;
      assert AllTaken(bins, w, r, target);
    }
  }

  /** The first bin of greatest weight. */
  method FullestBin(bins: array<real>) returns (poc: nat)
    requires bins.Length > 0
    ensures poc < bins.Length && (forall b :: 0 <= b < bins.Length ==> bins[b] <= bins[poc])
    ensures forall b :: 0 <= b < poc ==> bins[b] < bins[poc]
  {
    poc := 0;
    for b := 1 to bins.Length
      invariant poc < b && (forall x :: 0 <= x < b ==> bins[x] <= bins[poc])
      invariant forall x :: 0 <= x < poc ==> bins[x] < bins[poc]
    {
      if bins[b] > bins[poc] {
        poc := b;
      }
    }
  }

  /** The area around the fullest bin that first holds the target share of the weight. */
  method ValueArea(bins: array<real>) returns (poc: nat, area: Area)
    requires bins.Length > 0 && forall b :: 0 <= b < bins.Length ==> bins[b] >= 0.0
    ensures poc < bins.Length && (forall b :: 0 <= b < bins.Length ==> bins[b] <= bins[poc])
    ensures forall b :: 0 <= b < poc ==> bins[b] < bins[poc]
    ensures area == Expanded(bins[..], Area(poc, poc), VALUE_AREA * Sum(bins[..]))
    ensures area.low <= poc <= area.high < bins.Length
    ensures Covered(bins[..], area) >= VALUE_AREA * Sum(bins[..])
  {
    hide Sum, Covered, Expanded;
    poc := FullestBin(bins);
    ghost var all := bins[..];
    var total := Total(bins);
    var target := VALUE_AREA * total;
    SumNonNegative(all);
    ExpandedIsEnoughAndNoMore(all, Area(poc, poc), target);
    var covered := bins[poc];
    var low, high := poc, poc;
    OneBin(all, poc);
    while covered < target && (low > 0 || high < bins.Length - 1)
      invariant low <= high < bins.Length
      invariant covered == Covered(all, Area(low, high))
      invariant Expanded(all, Area(low, high), target) == Expanded(all, Area(poc, poc), target)
      decreases low + bins.Length - high
    {
      WidenCovers(all, Area(low, high));
      ExpandedUnfolds(all, Area(low, high), target);
      var below := if low > 0 then bins[low - 1] else -1.0;
      var above := if high < bins.Length - 1 then bins[high + 1] else -1.0;
      if above >= below {
        high := high + 1;
        covered := covered + bins[high];
      } else {
        low := low - 1;
        covered := covered + bins[low];
      }
    }
    area := Area(low, high);
    ExpandedUnfolds(all, area, target);
  }

  lemma OneBin(bins: Vector, b: nat)
    requires b < |bins|
    ensures Covered(bins, Area(b, b)) == bins[b]
  {
    SumOne(bins[b]);
    assert bins[b..b + 1] == [bins[b]];
  }

  lemma ExpandedUnfolds(bins: Vector, a: Area, target: real)
    requires a.low <= a.high < |bins|
    ensures Expanded(bins, a, target)
      == if Covered(bins, a) >= target || (a.low == 0 && a.high == |bins| - 1) then a else Expanded(bins, Widen(bins, a), target)
  {
    hide Covered;
  }

  method Total(bins: array<real>) returns (total: real)
    ensures total == Sum(bins[..])
  {
    total := 0.0;
    SumZeros(0);
    assert bins[..0] == Zeros(0);
    for i := 0 to bins.Length
      invariant total == Sum(bins[..i])
    {
      assert bins[..i + 1][..i] == bins[..i];
      total := total + bins[i];
    }
    assert bins[..bins.Length] == bins[..];
  }
}
