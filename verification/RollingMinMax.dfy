/**
  The rolling min-max kernel: two monotonic deques keep the extremes of the trailing window at their
  fronts, and each bar enters and leaves a deque at most once.
 */
module RollingMinMax {
  import opened Vectors
  import opened Wrappers
  import opened RollingWindows
  import RollingZScore

  /** Which extreme a deque tracks. */
  datatype Side = Low | High

  /** x is at least as extreme as y. */
  predicate Before(side: Side, x: real, y: real) {
    if side.Low? then x <= y else x >= y
  }

  /** v comes first among the values of t. */
  ghost predicate IsExtreme(side: Side, v: real, t: Vector) {
    v in t && forall u :: u in t ==> Before(side, v, u)
  }

  // ----- the naive scan -----

  /** The first of t in the order, by one pass as min() and max() make it. */
  function Extreme(side: Side, t: Vector): (v: real)
    requires t != []
    ensures v in t
  {
    if |t| == 1 then t[0]
    else
      var best := Extreme(side, t[..|t| - 1]);
      if Before(side, best, t[|t| - 1]) then best else t[|t| - 1]
  }

  lemma {:induction false} ExtremeIsFirst(side: Side, t: Vector)
    requires t != []
    ensures IsExtreme(side, Extreme(side, t), t)
  {
    if |t| > 1 {
      var n := |t| - 1;
      ExtremeIsFirst(side, t[..n]);
      assert t == t[..n] + [t[n]];
    } else {
      assert Before(side, t[0], t[0]);
    }
  }

  /** The definition the kernel replaced. */
  function NaiveMinMax(series: Series, i: nat, window: nat, minObs: int): Option<real>
    requires window >= 1 && i < |series|
  {
    if series[i].None? then None
    else
      var t := Trailing(series, i, window);
      if |t| < minObs then None
      else Position(series[i].value, Extreme(Low, t), Extreme(High, t))
  }

  function Position(value: real, low: real, high: real): Option<real> {
    if high > low then Some((value - low) / (high - low)) else None
  }

  // ----- the deques -----

  type Entry = (nat, real)
  type Deque = seq<Entry>

  /** Entries are present bars of [lo, hi), in time order. */
  ghost predicate Indexed(series: Series, d: Deque, lo: nat, hi: nat)
    requires hi <= |series|
  {
    && (forall k :: 0 <= k < |d| ==> lo <= d[k].0 < hi && series[d[k].0] == Some(d[k].1))
    && (forall k, l :: 0 <= k < l < |d| ==> d[k].0 < d[l].0)
  }

  /** Values run strictly away from the extreme: no entry comes before an earlier one, ties included. */
  ghost predicate Monotone(side: Side, d: Deque) {
    forall k, l :: 0 <= k < l < |d| ==> !Before(side, d[l].1, d[k].1)
  }

  /** Every present bar of [lo, hi) is matched by an entry no older that comes no later in the order. */
  ghost predicate Covers(side: Side, series: Series, d: Deque, lo: nat, hi: nat)
    requires hi <= |series|
  {
    forall j :: lo <= j < hi && series[j].Some? ==> Covered(side, series[j].value, j, d)
  }

  ghost predicate Covered(side: Side, v: real, j: nat, d: Deque) {
    exists k :: 0 <= k < |d| && j <= d[k].0 && Before(side, d[k].1, v)
  }

  ghost predicate IsWindowDeque(side: Side, series: Series, d: Deque, lo: nat, hi: nat)
    requires hi <= |series|
  {
    Indexed(series, d, lo, hi) && Monotone(side, d) && Covers(side, series, d, lo, hi)
  }

  /** The front of the deque is the extreme of the window, and the deque is empty only when the window is. */
  lemma FrontIsExtreme(side: Side, series: Series, d: Deque, lo: nat, hi: nat)
    requires lo <= hi <= |series| && IsWindowDeque(side, series, d, lo, hi)
    ensures d == [] <==> |Present(series[lo..hi])| == 0
    ensures d != [] ==> IsExtreme(side, d[0].1, Present(series[lo..hi]))
  {
    var w := series[lo..hi];
    forall v | v in Present(w) ensures d != [] && Before(side, d[0].1, v) {
      MemberIsCovered(side, series, d, lo, hi, v);
    }
    if |Present(w)| > 0 {
      MemberIsCovered(side, series, d, lo, hi, Present(w)[0]);
    }
    if d != [] {
      assert w[d[0].0 - lo] == Some(d[0].1);
      PresentMembers(w, d[0].1);
    }
  }

  lemma MemberIsCovered(side: Side, series: Series, d: Deque, lo: nat, hi: nat, v: real)
    requires lo <= hi <= |series| && IsWindowDeque(side, series, d, lo, hi)
    requires v in Present(series[lo..hi])
    ensures d != [] && Before(side, d[0].1, v)
  {
    var w := series[lo..hi];
    PresentMembers(w, v);
    var j :| 0 <= j < |w| && w[j] == Some(v);
    assert series[lo + j] == Some(v);
    assert Covered(side, v, lo + j, d);
    var k :| 0 <= k < |d| && lo + j <= d[k].0 && Before(side, d[k].1, v);
    assert k > 0 ==> !Before(side, d[k].1, d[0].1);
  }

  /** A present bar removes every last entry it dominates, then joins the end. */
  method Push(side: Side, series: Series, d: Deque, ghost lo: nat, i: nat) returns (e: Deque, ghost pops: nat)
    requires lo <= i < |series| && series[i].Some?
    requires IsWindowDeque(side, series, d, lo, i)
    ensures IsWindowDeque(side, series, e, lo, i + 1)
    ensures |e| + pops == |d| + 1
  {
    hide IsWindowDeque;
    var entering := series[i].value;
    e := d;
    pops := 0;
    while e != [] && Before(side, entering, e[|e| - 1].1)
      invariant e <= d && |e| + pops == |d|
      invariant forall k :: |e| <= k < |d| ==> Before(side, entering, d[k].1)
      decreases |e|
    {
      e := e[..|e| - 1];
      pops := pops + 1;
    }
    assert e == d[..|e|];
    PushKeepsDeque(side, series, d, |e|, lo, i);
    e := e + [(i, entering)];
  }

  lemma PushKeepsDeque(side: Side, series: Series, d: Deque, keep: nat, lo: nat, i: nat)
    requires lo <= i < |series| && series[i].Some?
    requires IsWindowDeque(side, series, d, lo, i)
    requires keep <= |d| && (keep > 0 ==> !Before(side, series[i].value, d[keep - 1].1))
    requires forall k :: keep <= k < |d| ==> Before(side, series[i].value, d[k].1)
    ensures IsWindowDeque(side, series, d[..keep] + [(i, series[i].value)], lo, i + 1)
  {
    hide Monotone, Covers, Before;
    PushKeepsMonotone(side, d, keep, (i, series[i].value));
    PushKeepsCovers(side, series, d, keep, lo, i);
  }

  lemma PushKeepsMonotone(side: Side, d: Deque, keep: nat, entry: Entry)
    requires Monotone(side, d)
    requires keep <= |d| && (keep > 0 ==> !Before(side, entry.1, d[keep - 1].1))
    ensures Monotone(side, d[..keep] + [entry])
  {
    forall k | 0 <= k < keep ensures !Before(side, entry.1, d[k].1) {
      if k < keep - 1 {
        assert !Before(side, d[keep - 1].1, d[k].1);
      }
    }
  }

  lemma PushKeepsCovers(side: Side, series: Series, d: Deque, keep: nat, lo: nat, i: nat)
    requires lo <= i < |series| && series[i].Some?
    requires Covers(side, series, d, lo, i) && keep <= |d|
    requires forall k :: keep <= k < |d| ==> Before(side, series[i].value, d[k].1)
    ensures Covers(side, series, d[..keep] + [(i, series[i].value)], lo, i + 1)
  {
    var e := d[..keep] + [(i, series[i].value)];
    forall j | lo <= j < i + 1 && series[j].Some? ensures Covered(side, series[j].value, j, e) {
      assert e[keep] == (i, series[i].value);
      if j < i {
        assert Covered(side, series[j].value, j, d);
        var k :| 0 <= k < |d| && j <= d[k].0 && Before(side, d[k].1, series[j].value);
        if k < keep {
          assert e[k] == d[k];
        }
      }
    }
  }

  /** A missing bar leaves the deque as it is. */
  lemma GapKeepsDeque(side: Side, series: Series, d: Deque, lo: nat, i: nat)
    requires lo <= i < |series| && series[i].None? && IsWindowDeque(side, series, d, lo, i)
    ensures IsWindowDeque(side, series, d, lo, i + 1)
  {
  }

  /** When bar `left` leaves the window, its entry goes too; if it is still there, it is the first one. */
  method Expire(side: Side, series: Series, d: Deque, left: nat, ghost hi: nat) returns (e: Deque, ghost pops: nat)
    requires left < hi <= |series| && IsWindowDeque(side, series, d, left, hi)
    ensures IsWindowDeque(side, series, e, left + 1, hi)
    ensures |e| + pops == |d|
  {
    hide Monotone, Covers;
    e, pops := d, 0;
    if e != [] && e[0].0 == left {
      e, pops := e[1..], 1;
    }
    ExpireKeepsOrder(side, d, e);
    ExpireKeepsCovers(side, series, d, e, left, hi);
  }

  lemma ExpireKeepsOrder(side: Side, d: Deque, e: Deque)
    requires Monotone(side, d) && (e == d || (d != [] && e == d[1..]))
    ensures Monotone(side, e)
  {
  }

  lemma ExpireKeepsCovers(side: Side, series: Series, d: Deque, e: Deque, left: nat, hi: nat)
    requires left < hi <= |series| && Covers(side, series, d, left, hi)
    requires e == d || (d != [] && d[0].0 == left && e == d[1..])
    ensures Covers(side, series, e, left + 1, hi)
  {
    forall j | left + 1 <= j < hi && series[j].Some? ensures Covered(side, series[j].value, j, e) {
      assert Covered(side, series[j].value, j, d);
      var k :| 0 <= k < |d| && j <= d[k].0 && Before(side, d[k].1, series[j].value);
      var l := k - (|d| - |e|);
      assert l >= 0 && e[l] == d[k];
    }
  }

  // ----- the kernel -----

  method RollingMinMax(series: Series, window: nat, minObsOption: Option<int>)
    returns (out: Series, ghost pushes: nat, ghost minPops: nat, ghost maxPops: nat)
    requires window >= 1
    ensures |out| == |series|
    ensures forall i :: 0 <= i < |series| ==>
      out[i] == NaiveMinMax(series, i, window, RollingZScore.MinObs(minObsOption, window))
    ensures minPops <= pushes <= |series| && maxPops <= pushes
  {
    hide *;
    var minObs := RollingZScore.MinObs(minObsOption, window);
    out := seq(|series|, _ => None);
    var count := 0;
    var minDeque: Deque, maxDeque: Deque := [], [];
    pushes, minPops, maxPops := 0, 0, 0;
    ghost var lo := 0;
    EmptyWindow(series);
    for i := 0 to |series|
      invariant |out| == |series|
      invariant lo <= i && lo == PreviousStart(i, window)
      invariant count == |Present(series[lo..i])|
      invariant IsWindowDeque(Low, series, minDeque, lo, i)
      invariant IsWindowDeque(High, series, maxDeque, lo, i)
      invariant pushes <= i
      invariant |minDeque| + minPops == pushes && |maxDeque| + maxPops == pushes
      invariant forall k :: i <= k < |series| ==> out[k] == None
      invariant forall k :: 0 <= k < i ==> out[k] == NaiveMinMax(series, k, window, minObs)
    {
      ghost var popped: nat;
      PresentGrows(series, lo, i);
      if series[i].Some? {
        count := count + 1;
        pushes := pushes + 1;
        minDeque, popped := Push(Low, series, minDeque, lo, i);
        minPops := minPops + popped;
        maxDeque, popped := Push(High, series, maxDeque, lo, i);
        maxPops := maxPops + popped;
      } else {
        GapKeepsDeque(Low, series, minDeque, lo, i);
        GapKeepsDeque(High, series, maxDeque, lo, i);
      }
      StartMoves(i, window);
      var left := i - window;
      if left >= 0 {
        PresentShrinks(series, left, i + 1);
        if series[left].Some? {
          count := count - 1;
        }
        minDeque, popped := Expire(Low, series, minDeque, left, i + 1);
        minPops := minPops + popped;
        maxDeque, popped := Expire(High, series, maxDeque, left, i + 1);
        maxPops := maxPops + popped;
        lo := left + 1;
      }
      DequesGiveNaive(series, minDeque, maxDeque, i, window, minObs);
      if series[i].Some? && count >= minObs {
        out := out[i := Position(series[i].value, minDeque[0].1, maxDeque[0].1)];
      }
    }
  }

  /** Where the window of the bar before i began. */
  function PreviousStart(i: nat, window: nat): nat
    requires window >= 1
  {
    if i == 0 then 0 else Start(i - 1, window)
  }

  lemma StartMoves(i: nat, window: nat)
    requires window >= 1
    ensures PreviousStart(i + 1, window) == Start(i, window)
    ensures i >= window ==> PreviousStart(i, window) == i - window && Start(i, window) == i - window + 1
    ensures i < window ==> PreviousStart(i, window) == Start(i, window) == 0
  {
  }

  lemma EmptyWindow(series: Series)
    ensures IsWindowDeque(Low, series, [], 0, 0) && IsWindowDeque(High, series, [], 0, 0)
    ensures |Present(series[0..0])| == 0
    ensures forall window: nat :: window >= 1 ==> PreviousStart(0, window) == 0
  {
    assert series[0..0] == [];
  }

  lemma PresentGrows(series: Series, lo: nat, i: nat)
    requires lo <= i < |series|
    ensures |Present(series[lo..i + 1])| == |Present(series[lo..i])| + if series[i].Some? then 1 else 0
  {
    assert series[lo..i + 1][..i - lo] == series[lo..i];
  }

  lemma PresentShrinks(series: Series, left: nat, hi: nat)
    requires left < hi <= |series|
    ensures |Present(series[left + 1..hi])| == |Present(series[left..hi])| - if series[left].Some? then 1 else 0
  {
    assert series[left..hi] == [series[left]] + series[left + 1..hi];
    PresentConcat([series[left]], series[left + 1..hi]);
    PresentSingleton(series[left]);
  }

  /** The two fronts are the true minimum and maximum of the trailing window. */
  lemma DequesGiveNaive(series: Series, minDeque: Deque, maxDeque: Deque, i: nat, window: nat, minObs: int)
    requires window >= 1 && i < |series|
    requires IsWindowDeque(Low, series, minDeque, Start(i, window), i + 1)
    requires IsWindowDeque(High, series, maxDeque, Start(i, window), i + 1)
    ensures series[i].Some? ==>
      && minDeque != [] && maxDeque != []
      && NaiveMinMax(series, i, window, minObs)
         == if |Trailing(series, i, window)| < minObs then None
            else Position(series[i].value, minDeque[0].1, maxDeque[0].1)
    ensures series[i].None? ==> NaiveMinMax(series, i, window, minObs) == None
    ensures Trailing(series, i, window) == Present(series[Start(i, window)..i + 1])
  {
    if series[i].Some? {
      var t := Trailing(series, i, window);
        FrontIsExtreme(Low, series, minDeque, Start(i, window), i + 1);
      FrontIsExtreme(High, series, maxDeque, Start(i, window), i + 1);
      ExtremeIsFirst(Low, t);
      ExtremeIsFirst(High, t);
    }
  }

  /** Bar j is a present bar of the window that ends at bar i. */
  predicate InWindow(series: Series, i: nat, window: nat, j: nat)
    requires i < |series|
  {
    i < j + window && j <= i && series[j].Some?
  }

  /** r places bar i between the least value of its window, at bar l, and the greatest, at bar h. */
  ghost predicate Places(series: Series, i: nat, window: nat, r: real, l: nat, h: nat)
    requires i < |series|
  {
    && InWindow(series, i, window, l) && InWindow(series, i, window, h) && InWindow(series, i, window, i)
    && (forall j: nat :: InWindow(series, i, window, j) ==> series[l].value <= series[j].value <= series[h].value)
    && series[l].value < series[h].value
    && r == (series[i].value - series[l].value) / (series[h].value - series[l].value)
  }

  ghost predicate IsFlat(series: Series, i: nat, window: nat)
    requires i < |series|
  {
    forall j: nat :: InWindow(series, i, window, j) ==> series[j] == series[i]
  }

  lemma TrailingMembers(series: Series, i: nat, window: nat, v: real)
    requires window >= 1 && i < |series|
    ensures v in Trailing(series, i, window) <==> exists j: nat :: InWindow(series, i, window, j) && series[j].value == v
  {
    var lo := Start(i, window);
    var w := series[lo..i + 1];
    PresentMembers(w, v);
    if v in Trailing(series, i, window) {
      var k :| 0 <= k < |w| && w[k] == Some(v);
      assert InWindow(series, i, window, lo + k);
    }
    if j: nat :| InWindow(series, i, window, j) && series[j].value == v {
      assert w[j - lo] == Some(v);
    }
  }

  /**
    A position is emitted exactly for a present bar whose window has enough values, not all the same, and it
    says where the bar lies between the least and the greatest of them.
   */
  lemma PositionInWindow(series: Series, i: nat, window: nat, minObs: int)
    requires window >= 1 && i < |series|
    ensures var r := NaiveMinMax(series, i, window, minObs);
      && (r.Some? ==> exists l: nat, h: nat :: Places(series, i, window, r.value, l, h))
      && (r.None? <==>
          series[i].None? || |Trailing(series, i, window)| < minObs || IsFlat(series, i, window))
  {
    if series[i].Some? {
      var t := Trailing(series, i, window);
      assert InWindow(series, i, window, i);
      TrailingMembers(series, i, window, series[i].value);
      ExtremeIsFirst(Low, t);
      ExtremeIsFirst(High, t);
      var low, high := Extreme(Low, t), Extreme(High, t);
      TrailingMembers(series, i, window, low);
      TrailingMembers(series, i, window, high);
      hide Trailing, Extreme;
      var l: nat :| InWindow(series, i, window, l) && series[l].value == low;
      var h: nat :| InWindow(series, i, window, h) && series[h].value == high;
      forall j: nat | InWindow(series, i, window, j) ensures low <= series[j].value <= high {
        TrailingMembers(series, i, window, series[j].value);
        assert Before(Low, low, series[j].value) && Before(High, high, series[j].value);
      }
      if NaiveMinMax(series, i, window, minObs).Some? {
        assert Places(series, i, window, NaiveMinMax(series, i, window, minObs).value, l, h);
      }
    }
  }

  /** So it is 0 exactly at the least value of the window, 1 exactly at the greatest, and otherwise between. */
  lemma PositionInUnitInterval(series: Series, i: nat, window: nat, r: real, l: nat, h: nat)
    requires i < |series| && Places(series, i, window, r, l, h)
    ensures 0.0 <= r <= 1.0
    ensures r == 0.0 <==> series[i] == series[l]
    ensures r == 1.0 <==> series[i] == series[h]
  {
    var x, d := series[i].value - series[l].value, series[h].value - series[l].value;
    assert r == x / d;
    FractionInUnitInterval(x, d);
  }

  lemma FractionInUnitInterval(x: real, d: real)
    requires 0.0 <= x <= d && d > 0.0
    ensures 0.0 <= x / d <= 1.0
    ensures x / d == 0.0 <==> x == 0.0
    ensures x / d == 1.0 <==> x == d
  {
    assert x / d * d == x;
  }
}
