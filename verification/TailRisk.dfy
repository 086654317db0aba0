/**
  Interpolated quantiles, historical value at risk and expected shortfall, and one-pass drawdowns
  against the worst decline over all pairs of bars.
 */
module TailRisk {
  import opened Vectors
  import opened Wrappers
  import opened Sorting
  import opened KolmogorovSmirnov

  // ----- interpolated quantiles -----

  /** The mixture of a and b with weight f on b. */
  function Blend(a: real, b: real, f: real): real {
    a * (1.0 - f) + b * f
  }

  /** Between the entries around a fractional position of an ascending sample. */
  function Interpolate(ordered: Vector, position: real): real
    requires ordered != [] && 0.0 <= position <= (|ordered| - 1) as real
  {
    var lower := position.Floor;
    var upper := if lower + 1 < |ordered| - 1 then lower + 1 else |ordered| - 1;
    Blend(ordered[lower], ordered[upper], position - lower as real)
  }

  function Quantile(values: Vector, q: real): real
    requires values != [] && 0.0 <= q <= 1.0
  {
    PositionInRange(q, |values|);
    Interpolate(Sorted(AtMost(), values), q * (|values| - 1) as real)
  }

  lemma PositionInRange(q: real, n: nat)
    requires 0.0 <= q <= 1.0 && n >= 1
    ensures 0.0 <= q * (n - 1) as real <= (n - 1) as real
  {
    MulMonotone((n - 1) as real, q, 1.0);
    MulMonotone((n - 1) as real, 0.0, q);
  }

  predicate Ascending(s: Vector) {
    forall i, j :: 0 <= i < j < |s| ==> s[i] <= s[j]
  }

  /** A convex combination stays between its ends and grows with the weight of the larger one. */
  lemma Convex(a: real, b: real, f: real, g: real)
    requires a <= b && 0.0 <= f <= g <= 1.0
    ensures a <= Blend(a, b, f) <= Blend(a, b, g) <= b
  {
    MulMonotone(b - a, 0.0, f);
    MulMonotone(b - a, f, g);
    MulMonotone(b - a, g, 1.0);
    MulZero(b - a);
    hide Mul, Blend;
  }

  lemma InterpolateIsBetween(ordered: Vector, position: real)
    requires ordered != [] && Ascending(ordered) && 0.0 <= position <= (|ordered| - 1) as real
    ensures ordered[position.Floor] <= Interpolate(ordered, position)
    ensures position.Floor + 1 < |ordered| ==> Interpolate(ordered, position) <= ordered[position.Floor + 1]
    ensures ordered[0] <= Interpolate(ordered, position) <= ordered[|ordered| - 1]
  {
    var lower := position.Floor;
    var upper := if lower + 1 < |ordered| - 1 then lower + 1 else |ordered| - 1;
    Convex(ordered[lower], ordered[upper], position - lower as real, position - lower as real);
    hide Blend;
  }

  /** From one rank to the next the interpolation is the straight line. */
  lemma InterpolateIsLinear(ordered: Vector, k: nat, f: real)
    requires k < |ordered| && 0.0 <= f < 1.0 && (f > 0.0 ==> k + 1 < |ordered|)
    ensures k as real + f <= (|ordered| - 1) as real
    ensures Interpolate(ordered, k as real + f)
         == if f == 0.0 then ordered[k] else ordered[k] + f * (ordered[k + 1] - ordered[k])
  {
    assert (k as real + f).Floor == k;
  }

  lemma InterpolateIsMonotone(ordered: Vector, p: real, q: real)
    requires ordered != [] && Ascending(ordered) && 0.0 <= p <= q <= (|ordered| - 1) as real
    ensures Interpolate(ordered, p) <= Interpolate(ordered, q)
  {
    var lower := p.Floor;
    if lower == q.Floor {
      var upper := if lower + 1 < |ordered| - 1 then lower + 1 else |ordered| - 1;
      Convex(ordered[lower], ordered[upper], p - lower as real, q - lower as real);
      hide Blend;
    } else {
      InterpolateIsBetween(ordered, p);
      InterpolateIsBetween(ordered, q);
      hide Interpolate;
    }
  }

  lemma SortedIsAscending(values: Vector)
    ensures Ascending(Sorted(AtMost(), values))
  {
    SortAscends(values);
  }

  /** Between the smallest and the largest value, and growing with q. */
  lemma QuantileIsMonotone(values: Vector, p: real, q: real)
    requires values != [] && 0.0 <= p <= q <= 1.0
    ensures Quantile(values, p) <= Quantile(values, q)
  {
    SortedIsAscending(values);
    PositionInRange(p, |values|);
    PositionInRange(q, |values|);
    MulMonotone((|values| - 1) as real, p, q);
    InterpolateIsMonotone(Sorted(AtMost(), values), p * (|values| - 1) as real, q * (|values| - 1) as real);
  }

  lemma QuantileIsBetween(values: Vector, q: real) returns (low: real, high: real)
    requires values != [] && 0.0 <= q <= 1.0
    ensures low in values && high in values && low <= Quantile(values, q) <= high
    ensures forall v :: v in values ==> low <= v <= high
  {
    var ordered := Sorted(AtMost(), values);
    QuantileBetweenEnds(values, q);
    low, high := ordered[0], ordered[|ordered| - 1];
    SortedIsAscending(values);
    hide Quantile, Sorted;
    forall v | v in values ensures low <= v <= high {
      SortKeepsMembers(AtMost(), values, v);
      var k :| 0 <= k < |ordered| && ordered[k] == v;
    }
    SortKeepsMembers(AtMost(), values, low);
    SortKeepsMembers(AtMost(), values, high);
  }

  lemma QuantileBetweenEnds(values: Vector, q: real)
    requires values != [] && 0.0 <= q <= 1.0
    ensures var ordered := Sorted(AtMost(), values);
      ordered[0] <= Quantile(values, q) <= ordered[|ordered| - 1]
  {
    hide Interpolate, Sorted;
    var ordered := Sorted(AtMost(), values);
    var position := q * (|values| - 1) as real;
    SortedIsAscending(values);
    PositionInRange(q, |values|);
    assert |ordered| == |values| && 0.0 <= position <= (|ordered| - 1) as real;
    InterpolateIsBetween(ordered, position);
  }

  // ----- value at risk and expected shortfall -----

  function Max0(x: real): (r: real)
    ensures r >= 0.0 && r >= x && (r == 0.0 || r == x)
  {
    if x > 0.0 then x else 0.0
  }

  /** The returns at or below a threshold, in order. */
  function Tail(rets: Vector, threshold: real): (t: Vector)
    ensures forall v :: v in t ==> v <= threshold
  {
    if rets == [] then []
    else
      var n := |rets| - 1;
      Tail(rets[..n], threshold) + if rets[n] <= threshold then [rets[n]] else []
  }

  function Average(s: Vector): real
    requires s != []
  {
    Sum(s) / |s| as real
  }

  datatype TailMetrics = TailMetrics(var95: real, var99: real, cvar95: Option<real>)

  /** The three tail measures of a full window of returns, in percent. */
  function Metrics(rets: Vector): TailMetrics
    requires rets != []
  {
    var q05 := Quantile(rets, 0.05);
    var q01 := Quantile(rets, 0.01);
    var losses := Tail(rets, q05);
    TailMetrics(Max0(-q05 * 100.0), Max0(-q01 * 100.0),
                if losses == [] then None else Some(Max0(-Average(losses) * 100.0)))
  }

  lemma {:induction false} TailHas(rets: Vector, threshold: real, v: real)
    requires v in rets && v <= threshold
    ensures v in Tail(rets, threshold)
  {
    var n := |rets| - 1;
    assert rets == rets[..n] + [rets[n]];
    if v in rets[..n] {
      TailHas(rets[..n], threshold, v);
    }
  }

  /** A return is in the tail as often as in the window if it is at or below the threshold, and else not at all. */
  lemma {:induction false} TailCounts(rets: Vector, threshold: real, v: real)
    ensures multiset(Tail(rets, threshold))[v] == if v <= threshold then multiset(rets)[v] else 0
  {
    if rets != [] {
      var n := |rets| - 1;
      assert rets == rets[..n] + [rets[n]];
      TailCounts(rets[..n], threshold, v);
    }
  }

  lemma {:induction false} SumBound(s: Vector, bound: real)
    requires forall v :: v in s ==> v <= bound
    ensures Sum(s) <= bound * |s| as real
  {
    if s != [] {
      var n := |s| - 1;
      assert s == s[..n] + [s[n]];
      assert forall v :: v in s[..n] ==> v in s;
      assert s[n] in s;
      SumBound(s[..n], bound);
    }
  }

  lemma AverageBound(s: Vector, bound: real)
    requires s != [] && forall v :: v in s ==> v <= bound
    ensures Average(s) <= bound
  {
    SumBound(s, bound);
  }

  /** The tail is never empty, and each measure is at least as severe as the 95% value at risk. */
  lemma TailIsOrdered(rets: Vector)
    requires rets != []
    ensures var m := Metrics(rets);
      m.cvar95.Some? && m.var95 <= m.var99 && m.var95 <= m.cvar95.value
  {
    var q05 := Quantile(rets, 0.05);
    QuantileIsMonotone(rets, 0.01, 0.05);
    var low, high := QuantileIsBetween(rets, 0.05);
    TailHas(rets, q05, low);
    AverageBound(Tail(rets, q05), q05);
    hide Quantile, Tail, Average;
  }

  /**
    A value at risk is the loss at its quantile and the shortfall the mean loss of the tail, in percent; a gain counts
    as no loss.
   */
  lemma TailIsMeasured(rets: Vector)
    requires rets != []
    ensures var m := Metrics(rets); var tail := Tail(rets, Quantile(rets, 0.05));
      && IsLoss(m.var95, Quantile(rets, 0.05)) && IsLoss(m.var99, Quantile(rets, 0.01))
      && tail != [] && m.cvar95.Some? && IsLoss(m.cvar95.value, Sum(tail) / |tail| as real)
  {
    TailIsOrdered(rets);
    hide Quantile, Tail;
  }

  predicate IsLoss(loss: real, ret: real) {
    if ret < 0.0 then loss == -100.0 * ret else loss == 0.0
  }

  // ----- drawdowns -----

  /** The highest close up to bar k. */
  function Peak(closes: Vector, k: nat): real
    requires k < |closes|
  {
    if k == 0 then closes[0]
    else if closes[k] > Peak(closes, k - 1) then closes[k] else Peak(closes, k - 1)
  }

  lemma {:induction false} PeakIsHighest(closes: Vector, k: nat)
    requires k < |closes|
    ensures exists j :: 0 <= j <= k && closes[j] == Peak(closes, k)
    ensures forall j :: 0 <= j <= k ==> closes[j] <= Peak(closes, k)
  {
    if k == 0 {
      assert closes[0] == Peak(closes, 0);
    } else {
      PeakIsHighest(closes, k - 1);
      if closes[k] > Peak(closes, k - 1) {
        assert closes[k] == Peak(closes, k);
      }
    }
  }

  function DeclineFrom(peak: real, close: real): real {
    if peak > 0.0 then (peak - close) / peak else 0.0
  }

  /** One pass, keeping the running peak. */
  method Drawdowns(closes: Vector) returns (drawdowns: Vector)
    requires closes != []
    ensures AreDrawdowns(closes, drawdowns)
  {
    hide DeclineFrom, Peak;
    PeakStep(closes, 0);
    var peak := closes[0];
    drawdowns := [];
    for k := 0 to |closes|
      invariant |drawdowns| == k && peak == Peak(closes, if k == 0 then 0 else k - 1)
      invariant forall j :: 0 <= j < k ==> drawdowns[j] == DeclineFrom(Peak(closes, j), closes[j])
    {
      PeakStep(closes, k);
      if closes[k] > peak {
        peak := closes[k];
      }
      drawdowns := drawdowns + [DeclineFrom(peak, closes[k])];
    }
  }

  lemma PeakStep(closes: Vector, k: nat)
    requires k < |closes|
    ensures Peak(closes, 0) == closes[0]
    ensures k > 0 ==>
      Peak(closes, k) == if closes[k] > Peak(closes, k - 1) then closes[k] else Peak(closes, k - 1)
  {
  }

  predicate Positive(closes: Vector) {
    forall k :: 0 <= k < |closes| ==> closes[k] > 0.0
  }

  /** Falling from a higher close is a worse decline, and no decline reaches 1. */
  lemma HigherPeakIsWorse(p: real, q: real, close: real)
    requires 0.0 < close && 0.0 < p <= q
    ensures DeclineFrom(p, close) <= DeclineFrom(q, close) < 1.0
  {
    DeclineAsRatio(p, close);
    DeclineAsRatio(q, close);
    RatioShrinks(close, p, q);
  }

  lemma DeclineAsRatio(p: real, close: real)
    requires 0.0 < p
    ensures DeclineFrom(p, close) == 1.0 - close / p
  {
    var d, e := (p - close) / p, close / p;
    assert Mul(d, p) == p - close && Mul(e, p) == close;
    MulDistributes(p, d, e);
    MulCommutes(p, d);
    MulCommutes(p, e);
    MulCommutes(p, d + e);
    assert Mul(1.0, p) == p;
    hide Mul;
  }

  lemma RatioShrinks(c: real, p: real, q: real)
    requires 0.0 < c && 0.0 < p <= q
    ensures 0.0 < c / q <= c / p
  {
    var x, y := c / p, c / q;
    MulMonotone(x, p, q);
  }

  lemma NoDecline(p: real, close: real)
    requires 0.0 < close <= p
    ensures DeclineFrom(p, close) >= 0.0
  {
    var d := DeclineFrom(p, close);
    assert d * p == p - close;
    if d < 0.0 {
      MulPositive(-d, p);
    }
  }

  /** For positive closes, the drawdown of a bar is the worst decline to it from any bar not after it. */
  lemma DrawdownIsWorstDecline(closes: Vector, k: nat)
    requires Positive(closes) && k < |closes|
    ensures var d := DeclineFrom(Peak(closes, k), closes[k]);
      && 0.0 <= d < 1.0
      && (forall j :: 0 <= j <= k ==> DeclineFrom(closes[j], closes[k]) <= d)
      && (exists j :: 0 <= j <= k && DeclineFrom(closes[j], closes[k]) == d)
      && forall j :: 0 <= j <= k ==> DeclineFrom(closes[j], closes[k]) == 1.0 - closes[k] / closes[j]
  {
    forall j | 0 <= j <= k ensures DeclineFrom(closes[j], closes[k]) == 1.0 - closes[k] / closes[j] {
      DeclineAsRatio(closes[j], closes[k]);
    }
    var p := Peak(closes, k);
    PeakIsHighest(closes, k);
    assert closes[k] <= p;
    NoDecline(p, closes[k]);
    HigherPeakIsWorse(p, p, closes[k]);
    forall j | 0 <= j <= k ensures DeclineFrom(closes[j], closes[k]) <= DeclineFrom(p, closes[k]) {
      HigherPeakIsWorse(closes[j], p, closes[k]);
    }
    hide DeclineFrom;
    var j :| 0 <= j <= k && closes[j] == p;
    assert DeclineFrom(closes[j], closes[k]) == DeclineFrom(p, closes[k]);
  }

  /** While no close has been above zero there is no drawdown. */
  lemma NoDrawdownBelowZero(closes: Vector, k: nat)
    requires k < |closes| && forall j :: 0 <= j <= k ==> closes[j] <= 0.0
    ensures DeclineFrom(Peak(closes, k), closes[k]) == 0.0
  {
    PeakIsHighest(closes, k);
  }

  function Largest(s: Vector): (m: real)
    requires s != []
    ensures exists k :: 0 <= k < |s| && s[k] == m
    ensures forall k :: 0 <= k < |s| ==> s[k] <= m
  {
    var n := |s| - 1;
    if n == 0 || s[n] > Largest(s[..n]) then s[n] else Largest(s[..n])
  }

  datatype DrawdownMetrics = DrawdownMetrics(maximum: real, current: real, ulcer: real)

  /** As fractions; the engine reports them times 100. */
  method MeasureDrawdowns(sqrt: real -> real, closes: Vector) returns (m: DrawdownMetrics)
    requires IsSqrt(sqrt) && closes != []
    ensures Positive(closes) ==>
      && IsWorstDecline(closes, m.maximum)
      && IsWorstDeclineTo(closes, |closes| - 1, m.current)
      && 0.0 <= m.current <= m.maximum && 0.0 <= m.ulcer <= m.maximum < 1.0
    ensures exists d: Vector :: AreDrawdowns(closes, d) && m == MetricsOf(sqrt, d)
  {
    var d := Drawdowns(closes);
    m := MetricsOf(sqrt, d);
    hide *;
    if Positive(closes) {
      MeasuresAreOrdered(sqrt, closes, d);
    }
  }

  /** Each bar's decline from the highest close so far. */
  predicate AreDrawdowns(closes: Vector, d: Vector) {
    |d| == |closes| && forall k :: 0 <= k < |closes| ==> d[k] == DeclineFrom(Peak(closes, k), closes[k])
  }

  function MetricsOf(sqrt: real -> real, d: Vector): DrawdownMetrics
    requires d != []
  {
    DrawdownMetrics(Largest(d), d[|d| - 1], RootMeanSquare(sqrt, d))
  }

  function RootMeanSquare(sqrt: real -> real, d: Vector): real
    requires d != []
  {
    sqrt(Dot(d, d) / |d| as real)
  }

  /** worst is the greatest decline to bar k from any bar not after it. */
  ghost predicate IsWorstDeclineTo(closes: Vector, k: nat, worst: real)
    requires k < |closes|
  {
    && (forall j :: 0 <= j <= k ==> DeclineFrom(closes[j], closes[k]) <= worst)
    && exists j :: 0 <= j <= k && DeclineFrom(closes[j], closes[k]) == worst
  }

  /** worst is the greatest decline between any bar and one not before it. */
  ghost predicate IsWorstDecline(closes: Vector, worst: real) {
    && (forall j, k :: 0 <= j <= k < |closes| ==> DeclineFrom(closes[j], closes[k]) <= worst)
    && exists j, k :: 0 <= j <= k < |closes| && DeclineFrom(closes[j], closes[k]) == worst
  }

  lemma {:induction false} SquaresBound(d: Vector, bound: real)
    requires bound >= 0.0 && forall k :: 0 <= k < |d| ==> 0.0 <= d[k] <= bound
    ensures 0.0 <= Dot(d, d) <= Mul(bound, bound) * |d| as real
  {
    if d != [] {
      var n := |d| - 1;
      SquaresBound(d[..n], bound);
      MulMonotone(d[n], 0.0, d[n]);
      MulMonotone(d[n], d[n], bound);
      MulMonotone(bound, d[n], bound);
      assert 0.0 <= Mul(d[n], d[n]) <= Mul(bound, bound);
      hide Mul;
    }
  }

  lemma RootBelow(sqrt: real -> real, x: real, bound: real)
    requires IsSqrt(sqrt) && bound >= 0.0 && 0.0 <= x <= Mul(bound, bound)
    ensures 0.0 <= sqrt(x) <= bound
  {
    var r := sqrt(x);
    assert r >= 0.0 && Square(r) == x;
    if r > bound {
      MulPositive(r - bound, r + bound);
    }
  }

  lemma UlcerBelowMaximum(sqrt: real -> real, d: Vector, bound: real)
    requires IsSqrt(sqrt) && d != [] && bound >= 0.0 && forall k :: 0 <= k < |d| ==> 0.0 <= d[k] <= bound
    ensures 0.0 <= RootMeanSquare(sqrt, d) <= bound
  {
    SquaresBound(d, bound);
    var mean := Dot(d, d) / |d| as real;
    RootBelow(sqrt, mean, bound);
  }

  lemma MeasuresAreOrdered(sqrt: real -> real, closes: Vector, d: Vector)
    requires IsSqrt(sqrt) && closes != [] && Positive(closes) && AreDrawdowns(closes, d)
    ensures d != []
    ensures var m := MetricsOf(sqrt, d);
      && IsWorstDecline(closes, m.maximum)
      && IsWorstDeclineTo(closes, |closes| - 1, m.current)
      && 0.0 <= m.current <= m.maximum && 0.0 <= m.ulcer <= m.maximum < 1.0
  {
    forall k | 0 <= k < |closes| ensures 0.0 <= d[k] < 1.0 && IsWorstDeclineTo(closes, k, d[k]) {
      hide AreDrawdowns;
      DrawdownOfBar(closes, d, k);
    }
    hide DeclineFrom, Peak, IsWorstDeclineTo, RootMeanSquare, IsSqrt, IsWorstDecline;
    WorstOverall(closes, d);
    UlcerBelowMaximum(sqrt, d, Largest(d));
  }

  lemma DrawdownOfBar(closes: Vector, d: Vector, k: nat)
    requires Positive(closes) && AreDrawdowns(closes, d) && k < |closes|
    ensures 0.0 <= d[k] < 1.0 && IsWorstDeclineTo(closes, k, d[k])
  {
    DrawdownIsWorstDecline(closes, k);
  }

  lemma WorstOverall(closes: Vector, d: Vector)
    requires |d| == |closes| > 0
    requires forall k :: 0 <= k < |closes| ==> IsWorstDeclineTo(closes, k, d[k])
    ensures IsWorstDecline(closes, Largest(d))
  {
    hide DeclineFrom, Largest;
    forall j, k | 0 <= j <= k < |closes| ensures DeclineFrom(closes[j], closes[k]) <= Largest(d) {
      assert IsWorstDeclineTo(closes, k, d[k]) && d[k] <= Largest(d);
    }
    var m :| 0 <= m < |d| && d[m] == Largest(d);
    assert IsWorstDeclineTo(closes, m, d[m]);
  }
}
