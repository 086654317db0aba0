/**
  The signals of the daily structure scan that have arithmetic or state of their own: the average true range
  and the order blocks it detects, the distance to resting liquidity, the structural bias, and the two
  probability scores.
 */
module StructureSignals {
  import opened Wrappers
  import opened Vectors

  datatype Candle = Candle(open: real, high: real, low: real, close: real)

  const ATR_WINDOW: nat := 14
  const LIQUIDITY_LEVELS: nat := 5
  const BOS_DECAY_BARS: nat := 10

  predicate Agree(c: seq<Candle>, d: seq<Candle>, n: nat) {
    n <= |c| && n <= |d| && forall m :: 0 <= m < n ==> c[m] == d[m]
  }

  function Max(x: real, y: real): (r: real)
    ensures r >= x && r >= y && (r == x || r == y)
  {
    if x >= y then x else y
  }

  function Min(x: real, y: real): (r: real)
    ensures r <= x && r <= y && (r == x || r == y)
  {
    if x <= y then x else y
  }

  /** The value of the interval nearest to x. */
  function Clamp(low: real, high: real, x: real): (r: real)
    ensures low <= high ==> low <= r <= high && (r == x || (x < low && r == low) || (x > high && r == high))
  {
    Max(low, Min(high, x))
  }

  // ----- average true range -----

  function TrueRange(c: seq<Candle>, i: nat): real
    requires i < |c|
  {
    if i == 0 then 0.0
    else Max(Max(c[i].high - c[i].low, Abs(c[i].high - c[i - 1].close)), Abs(c[i].low - c[i - 1].close))
  }

  /** The true range is the length of the least interval that holds the bar and the close before it. */
  lemma TrueRangeIsSpan(c: seq<Candle>, i: nat)
    requires 0 < i < |c| && c[i].low <= c[i].high
    ensures TrueRange(c, i) == Max(c[i].high, c[i - 1].close) - Min(c[i].low, c[i - 1].close)
  {
  }

  function TrueRanges(c: seq<Candle>, n: nat): Vector
    requires n <= |c|
  {
    seq(n, i requires 0 <= i < n => TrueRange(c, i))
  }

  /** The mean of the last fourteen true ranges, from the fifteenth bar on. */
  function Atr(c: seq<Candle>, i: nat): Option<real>
    requires i < |c|
  {
    if i < ATR_WINDOW then None
    else Some(Sum(TrueRanges(c, i + 1)[i + 1 - ATR_WINDOW..]) / ATR_WINDOW as real)
  }

  /** From bar to bar the mean gains the new true range and loses the one fourteen bars back, a fourteenth of each. */
  lemma AtrSlides(c: seq<Candle>, i: nat)
    requires ATR_WINDOW <= i && i + 1 < |c|
    ensures Atr(c, i).Some? && Atr(c, i + 1).Some?
    ensures Atr(c, i + 1).value == Atr(c, i).value + (TrueRange(c, i + 1) - TrueRange(c, i - 13)) / 14.0
  {
    hide TrueRange;
    var window, next := TrueRanges(c, i + 1)[i - 13..], TrueRanges(c, i + 2)[i - 12..];
    var shared := window[1..];
    assert window == [TrueRange(c, i - 13)] + shared;
    assert next == shared + [TrueRange(c, i + 1)];
    SumCons(TrueRange(c, i - 13), shared);
  }

  lemma {:induction false} SumCons(x: real, s: Vector)
    ensures Sum([x] + s) == x + Sum(s)
  {
    if s == [] {
      assert [x] + s == [x] && [x][..0] == [];
    } else {
      var n := |s| - 1;
      SumCons(x, s[..n]);
      assert ([x] + s)[..n + 1] == [x] + s[..n];
    }
  }

  /** Fourteen equal true ranges have that mean; before the fifteenth bar there is none. */
  lemma AtrOfSteadyRanges(c: seq<Candle>, i: nat, r: real)
    requires i < |c| && forall m :: i - 13 <= m <= i && 0 <= m ==> TrueRange(c, m) == r
    ensures Atr(c, i) == if i < 14 then None else Some(r)
  {
    hide TrueRange;
    if i >= 14 {
      var window := TrueRanges(c, i + 1)[i - 13..];
      assert forall k :: 0 <= k < 14 ==> window[k] == TrueRange(c, i - 13 + k);
      SumOfEqual(window, r);
      assert Sum(window) == 14.0 * r;
    }
  }

  lemma {:induction false} SumOfEqual(s: Vector, r: real)
    requires forall k :: 0 <= k < |s| ==> s[k] == r
    ensures Sum(s) == |s| as real * r
  {
    if s != [] {
      SumOfEqual(s[..|s| - 1], r);
    }
  }

  lemma AtrIsNotNegative(c: seq<Candle>, i: nat)
    requires i < |c| && Atr(c, i).Some?
    ensures Atr(c, i).value >= 0.0
  {
    assert forall k :: 0 <= k < i + 1 ==> TrueRange(c, k) >= 0.0;
    hide TrueRange;
    SumIsNotNegative(TrueRanges(c, i + 1)[i + 1 - ATR_WINDOW..]);
  }

  lemma {:induction false} SumIsNotNegative(s: Vector)
    requires forall k :: 0 <= k < |s| ==> s[k] >= 0.0
    ensures Sum(s) >= 0.0
  {
    if s != [] {
      SumIsNotNegative(s[..|s| - 1]);
    }
  }

  method AverageTrueRanges(c: seq<Candle>) returns (atr: seq<Option<real>>)
    ensures |atr| == |c| && forall i :: 0 <= i < |c| ==> atr[i] == Atr(c, i)
  {
    hide Sum, TrueRange;
    atr := [];
    var ranges: Vector := [];
    for i := 0 to |c|
      invariant ranges == TrueRanges(c, i)
      invariant |atr| == i && forall j :: 0 <= j < i ==> atr[j] == Atr(c, j)
    {
      ranges := ranges + [TrueRange(c, i)];
      assert ranges == TrueRanges(c, i + 1);
      var mean := None;
      if i >= ATR_WINDOW {
        mean := Some(Sum(ranges[i + 1 - ATR_WINDOW..]) / ATR_WINDOW as real);
      }
      atr := atr + [mean];
    }
  }

  // ----- order blocks -----

  /** Bar i moves more than the average true range against the colour of the bar before it. */
  predicate Impulse(c: seq<Candle>, i: nat)
    requires i < |c|
  {
    && i >= 1 && Atr(c, i).Some?
    && var move := c[i].close - c[i - 1].close;
      || (move > Atr(c, i).value && c[i - 1].close < c[i - 1].open)
      || (move < -Atr(c, i).value && c[i - 1].close > c[i - 1].open)
  }

  /** An impulse is a move of more than the average true range that runs against the body of the bar before it. */
  lemma ImpulseReverses(c: seq<Candle>, i: nat)
    requires 1 <= i < |c|
    ensures var move := c[i].close - c[i - 1].close; var body := c[i - 1].close - c[i - 1].open;
      Impulse(c, i) <==> Atr(c, i).Some? && Abs(move) > Atr(c, i).value && Mul(move, body) < 0.0
  {
    var move, body := c[i].close - c[i - 1].close, c[i - 1].close - c[i - 1].open;
    SignOfProduct(move, body);
    if Atr(c, i).Some? {
      AtrIsNotNegative(c, i);
      BeyondEither(move, Atr(c, i).value);
    }
    hide Atr, Abs, Mul;
  }

  lemma BeyondEither(x: real, a: real)
    requires a >= 0.0
    ensures Abs(x) > a <==> x > a || x < -a
  {
  }

  lemma SignOfProduct(x: real, y: real)
    ensures Mul(x, y) < 0.0 <==> (x > 0.0 && y < 0.0) || (x < 0.0 && y > 0.0)
  {
    if x > 0.0 && y < 0.0 {
      MulPositive(x, -y);
    } else if x < 0.0 && y > 0.0 {
      MulPositive(-x, y);
    } else if x > 0.0 && y > 0.0 {
      MulPositive(x, y);
    } else if x < 0.0 && y < 0.0 {
      MulPositive(-x, -y);
    }
  }

  /** The middle of the bar before the latest impulse among the first n bars. */
  function OrderBlock(c: seq<Candle>, n: nat): Option<real>
    requires n <= |c|
  {
    if n == 0 then None
    else if Impulse(c, n - 1) then Some((c[n - 2].high + c[n - 2].low) / 2.0)
    else OrderBlock(c, n - 1)
  }

  predicate IsLatestImpulse(c: seq<Candle>, n: nat, i: nat)
    requires n <= |c|
  {
    i < n && Impulse(c, i) && forall m :: i < m < n ==> !Impulse(c, m)
  }

  /** The order block in force is that of the latest impulse. */
  lemma {:induction false} OrderBlockIsLatest(c: seq<Candle>, n: nat, i: nat)
    requires n <= |c| && IsLatestImpulse(c, n, i)
    ensures i >= 1 && OrderBlock(c, n) == Some((c[i - 1].high + c[i - 1].low) / 2.0)
    decreases n
  {
    assert i >= 1;
    hide Impulse;
    if i < n - 1 {
      OrderBlockIsLatest(c, n - 1, i);
    }
  }

  /** Without an impulse there is no order block. */
  lemma {:induction false} NoImpulseNoBlock(c: seq<Candle>, n: nat)
    requires n <= |c|
    ensures OrderBlock(c, n).None? <==> forall m :: 0 <= m < n ==> !Impulse(c, m)
  {
    hide Impulse;
    if n > 0 {
      NoImpulseNoBlock(c, n - 1);
    }
  }

  method NextBlock(c: seq<Candle>, i: nat, atr: Option<real>, block: Option<real>) returns (block': Option<real>)
    requires i < |c| && atr == Atr(c, i) && block == OrderBlock(c, i)
    ensures block' == OrderBlock(c, i + 1)
  {
    hide Atr;
    block' := block;
    if i >= 1 && atr.Some? {
      var impulse := c[i].close - c[i - 1].close;
      var prev := c[i - 1];
      if impulse > atr.value && prev.close < prev.open {
        block' := Some((prev.high + prev.low) / 2.0);
      } else if impulse < -atr.value && prev.close > prev.open {
        block' := Some((prev.high + prev.low) / 2.0);
      }
    }
  }

  /** The distance to an order block at level zero divides by zero, which ends the scan. */
  ghost predicate Raises(c: seq<Candle>, i: nat)
    requires i < |c|
  {
    OrderBlock(c, i + 1) == Some(0.0) && c[i].close > 0.0
  }

  /** Open and close lie between low and high, and no price is negative. */
  predicate IsBar(b: Candle) {
    0.0 <= b.low <= Min(b.open, b.close) && Max(b.open, b.close) <= b.high
  }

  /** Nonnegative prices never end the scan: the bar before an impulse has a body, so its middle is above zero. */
  lemma PricesNeverRaise(c: seq<Candle>, i: nat)
    requires i < |c| && forall m :: 0 <= m <= i ==> IsBar(c[m])
    ensures !Raises(c, i)
  {
    BlockIsPositive(c, i + 1);
  }

  lemma {:induction false} BlockIsPositive(c: seq<Candle>, n: nat)
    requires n <= |c| && forall m :: 0 <= m < n ==> IsBar(c[m])
    ensures OrderBlock(c, n).Some? ==> OrderBlock(c, n).value > 0.0
  {
    if n > 0 {
      BlockIsPositive(c, n - 1);
      hide Atr;
    }
  }

  /** Thirteen bars at zero, one from 1 down to -1, and a jump to 9: the block is at zero and the last bar ends the scan. */
  lemma JumpFromZeroRaises(still: Candle, fall: Candle, jump: Candle)
    requires still == Candle(0.0, 0.0, 0.0, 0.0) && fall == Candle(1.0, 1.0, -1.0, -1.0) && jump == Candle(9.0, 9.0, 9.0, 9.0)
    ensures Raises(seq(13, i => still) + [fall, jump], 14)
  {
    var c := seq(13, i => still) + [fall, jump];
    var ranges := TrueRanges(c, 15)[1..];
    assert forall i :: 0 <= i < 13 ==> c[i] == still;
    assert forall i :: 0 < i < 13 ==> TrueRange(c, i) == 0.0;
    assert TrueRange(c, 13) == 2.0 && TrueRange(c, 14) == 10.0;
    var front := ranges[..12];
    assert ranges[..13] == front + [2.0] && ranges == ranges[..13] + [10.0];
    assert (front + [2.0])[..12] == front;
    NothingSums(front);
    hide TrueRange;
    assert Sum(ranges) == 12.0;
    assert Atr(c, 14) == Some(12.0 / 14.0);
    assert Impulse(c, 14);
  }

  lemma {:induction false} NothingSums(s: Vector)
    requires forall i :: 0 <= i < |s| ==> s[i] == 0.0
    ensures Sum(s) == 0.0
  {
    if s != [] {
      NothingSums(s[..|s| - 1]);
    }
  }

  function BlockDistance(block: Option<real>, close: real): Option<real> {
    if block.Some? && block.value != 0.0 && close > 0.0 then Some((close - block.value) / block.value * 100.0) else None
  }

  /** The close is that many percent above the block. */
  lemma BlockDistanceIsPercent(block: Option<real>, close: real)
    ensures BlockDistance(block, close).Some? <==> block.Some? && block.value != 0.0 && close > 0.0
    ensures BlockDistance(block, close).Some? ==>
      close == block.value + BlockDistance(block, close).value / 100.0 * block.value
  {
    if BlockDistance(block, close).Some? {
      assert (close - block.value) / block.value * block.value == close - block.value;
    }
  }

  lemma {:induction false} BlocksAgree(c: seq<Candle>, d: seq<Candle>, n: nat)
    requires Agree(c, d, n)
    ensures OrderBlock(c, n) == OrderBlock(d, n)
  {
    if n > 0 {
      hide Impulse;
      BlocksAgree(c, d, n - 1);
      ImpulsesAgree(c, d, n - 1);
    }
  }

  lemma ImpulsesAgree(c: seq<Candle>, d: seq<Candle>, i: nat)
    requires Agree(c, d, i + 1)
    ensures Impulse(c, i) == Impulse(d, i)
    ensures Impulse(c, i) ==> i >= 1 && c[i - 1] == d[i - 1]
  {
    AtrAgrees(c, d, i);
    hide Atr;
  }

  lemma AtrAgrees(c: seq<Candle>, d: seq<Candle>, i: nat)
    requires Agree(c, d, i + 1)
    ensures Atr(c, i) == Atr(d, i)
  {
    assert TrueRanges(c, i + 1) == TrueRanges(d, i + 1);
    hide TrueRange;
  }

  // ----- resting liquidity -----

  function Tail(levels: seq<real>): seq<real> {
    if |levels| <= LIQUIDITY_LEVELS then levels else levels[|levels| - LIQUIDITY_LEVELS..]
  }

  /** The least distance from x to one of the levels. */
  function Nearest(levels: seq<real>, x: real): (d: real)
    requires levels != []
    ensures forall k :: 0 <= k < |levels| ==> d <= Abs(levels[k] - x)
    ensures exists k :: 0 <= k < |levels| && d == Abs(levels[k] - x)
  {
    var n := |levels| - 1;
    if n == 0 then Abs(levels[0] - x)
    else
      var rest := Nearest(levels[..n], x);
      var k :| 0 <= k < n && rest == Abs(levels[..n][k] - x);
      assert levels[..n][k] == levels[k];
      Min(rest, Abs(levels[n] - x))
  }
  /** Percent distance from the close to the nearest of the last five levels on either side. */
  function LiquidityDistance(highs: seq<real>, lows: seq<real>, close: real): Option<real> {
    var levels := Tail(highs) + Tail(lows);
    if levels != [] && close > 0.0 then Some(Nearest(levels, close) / close * 100.0) else None
  }

  /** x is among the last five levels. */
  predicate IsRecent(levels: seq<real>, x: real) {
    exists k :: 0 <= k < |levels| && |levels| - 5 <= k && levels[k] == x
  }

  lemma TailIsRecent(levels: seq<real>, x: real)
    ensures x in Tail(levels) <==> IsRecent(levels, x)
  {
    var t := Tail(levels);
    assert forall j :: 0 <= j < |t| ==> t[j] == levels[|levels| - |t| + j];
    if k :| 0 <= k < |levels| && |levels| - 5 <= k && levels[k] == x {
      assert t[k - (|levels| - |t|)] == x;
    }
  }

  /** One of the recent levels of either side is this far from x, and none is nearer. */
  ghost predicate IsNearestRecent(highs: seq<real>, lows: seq<real>, x: real, near: real) {
    && (forall l :: IsRecent(highs, l) || IsRecent(lows, l) ==> Abs(l - x) >= near)
    && exists l :: (IsRecent(highs, l) || IsRecent(lows, l)) && Abs(l - x) == near
  }

  function Percent(p: real, x: real): real {
    p / 100.0 * x
  }

  lemma NearestOfMembers(levels: seq<real>, x: real)
    requires levels != []
    ensures forall l :: l in levels ==> Abs(l - x) >= Nearest(levels, x)
    ensures exists l :: l in levels && Abs(l - x) == Nearest(levels, x)
  {
    var near := Nearest(levels, x);
    hide Abs, Nearest;
    var j :| 0 <= j < |levels| && near == Abs(levels[j] - x);
    assert levels[j] in levels;
  }

  lemma RecentLevels(highs: seq<real>, lows: seq<real>, l: real)
    ensures l in Tail(highs) + Tail(lows) <==> IsRecent(highs, l) || IsRecent(lows, l)
  {
    hide Tail, IsRecent;
    TailIsRecent(highs, l);
    TailIsRecent(lows, l);
  }

  lemma NearestIsRecent(highs: seq<real>, lows: seq<real>, x: real)
    requires Tail(highs) + Tail(lows) != []
    ensures IsNearestRecent(highs, lows, x, Nearest(Tail(highs) + Tail(lows), x))
  {
    hide Abs, Nearest, Tail, IsRecent;
    NearestOfMembers(Tail(highs) + Tail(lows), x);
    forall l ensures l in Tail(highs) + Tail(lows) <==> IsRecent(highs, l) || IsRecent(lows, l) {
      RecentLevels(highs, lows, l);
    }
  }

  /** The distance, a percentage of the close, leads to one of the last five levels of either side, and none of them is nearer. */
  lemma LiquidityIsNearest(highs: seq<real>, lows: seq<real>, close: real)
    ensures LiquidityDistance(highs, lows, close).Some? <==> (highs != [] || lows != []) && close > 0.0
    ensures LiquidityDistance(highs, lows, close).Some? ==>
      IsNearestRecent(highs, lows, close, Percent(LiquidityDistance(highs, lows, close).value, close))
  {
    hide *;
    LiquidityOf(highs, lows, close);
    if LiquidityDistance(highs, lows, close).Some? {
      NearestIsRecent(highs, lows, close);
      var near := Nearest(Tail(highs) + Tail(lows), close);
      PercentOf(near, close);
    }
  }

  lemma LiquidityOf(highs: seq<real>, lows: seq<real>, close: real)
    ensures Tail(highs) + Tail(lows) != [] <==> highs != [] || lows != []
    ensures LiquidityDistance(highs, lows, close)
      == if Tail(highs) + Tail(lows) != [] && close > 0.0 then Some(Nearest(Tail(highs) + Tail(lows), close) / close * 100.0) else None
  {
  }

  lemma PercentOf(d: real, close: real)
    requires close > 0.0
    ensures Percent(d / close * 100.0, close) == d
  {
    assert d / close * 100.0 / 100.0 == d / close;
  }

  /** The distance is zero exactly when the close stands on a recent level. */
  lemma LiquidityIsZeroIff(highs: seq<real>, lows: seq<real>, close: real)
    requires LiquidityDistance(highs, lows, close).Some?
    ensures LiquidityDistance(highs, lows, close).value >= 0.0
    ensures LiquidityDistance(highs, lows, close).value == 0.0 <==> close in Tail(highs) || close in Tail(lows)
  {
    var levels := Tail(highs) + Tail(lows);
    var d := Nearest(levels, close);
    assert close in levels <==> close in Tail(highs) || close in Tail(lows);
    if close in levels {
      var k :| 0 <= k < |levels| && levels[k] == close;
      assert d <= Abs(levels[k] - close);
    }
    hide Tail;
    PercentIsZeroIff(d, close);
  }

  lemma PercentIsZeroIff(d: real, close: real)
    requires d >= 0.0 && close > 0.0
    ensures d / close * 100.0 >= 0.0
    ensures d / close * 100.0 == 0.0 <==> d == 0.0
  {
    var q := d / close;
    assert q * close == d;
  }

  // ----- bias and scores -----

  /** What is left of the latest break: its direction, fading to nothing over ten bars. */
  function DecayedBos(lastBreak: Option<nat>, direction: int, i: nat): real {
    if lastBreak.Some? && i - lastBreak.value <= BOS_DECAY_BARS
    then direction as real * (1.0 - (i - lastBreak.value) as real / BOS_DECAY_BARS as real)
    else 0.0
  }

  function Blend(trend: int, decayed: real, balance: real): real {
    0.5 * trend as real + 0.3 * decayed + 0.2 * balance
  }

  function Bias(tanh: real -> real, trend: int, decayed: real, hh: nat, ll: nat): real {
    Clamp(-1.0, 1.0, Blend(trend, decayed, tanh((hh - ll) as real / 3.0)))
  }

  /** Closeness to a level: 1 on it, 0 from two percent away. */
  function Proximity(percent: real): real {
    1.0 - Min(percent, 2.0) / 2.0
  }

  function Breakout(bias: real, lastHigh: real, close: real): real
    requires close > 0.0
  {
    Clamp(0.05, 0.95, 0.5 + 0.3 * bias + 0.2 * Proximity(Abs(lastHigh - close) / close * 100.0))
  }

  function Sweep(liquidity: real): real {
    Clamp(0.05, 0.95, 0.15 + 0.7 * Proximity(liquidity))
  }

  lemma DecayedInRange(lastBreak: Option<nat>, direction: int, i: nat)
    requires -1 <= direction <= 1 && (lastBreak.Some? ==> lastBreak.value <= i)
    ensures -1.0 <= DecayedBos(lastBreak, direction, i) <= 1.0
  {
  }

  /** A break counts fully on its bar, loses a tenth with every bar after it, and nothing is left after ten. */
  lemma BreakFades(lastBreak: nat, direction: int, i: nat)
    requires lastBreak <= i
    ensures DecayedBos(Some(lastBreak), direction, lastBreak) == direction as real
    ensures i - lastBreak < 10 ==>
      DecayedBos(Some(lastBreak), direction, i + 1) == DecayedBos(Some(lastBreak), direction, i) - direction as real / 10.0
    ensures i - lastBreak >= 10 ==> DecayedBos(Some(lastBreak), direction, i) == 0.0
    ensures DecayedBos(None, direction, i) == 0.0
  {
    var k, d := (i - lastBreak) as real, direction as real;
    assert d * (1.0 - (k + 1.0) / 10.0) == d * (1.0 - k / 10.0) - d / 10.0;
  }

  /** With a hyperbolic tangent in -1..1 the weights already keep the blend there: the clamp never acts. */
  lemma BiasNeedsNoClamp(tanh: real -> real, trend: int, lastBreak: Option<nat>, direction: int, i: nat, hh: nat, ll: nat)
    requires -1 <= trend <= 1 && -1 <= direction <= 1 && (lastBreak.Some? ==> lastBreak.value <= i)
    requires -1.0 <= tanh((hh - ll) as real / 3.0) <= 1.0
    ensures var decayed := DecayedBos(lastBreak, direction, i);
      Bias(tanh, trend, decayed, hh, ll) == Blend(trend, decayed, tanh((hh - ll) as real / 3.0))
  {
    DecayedInRange(lastBreak, direction, i);
    hide DecayedBos;
  }

  /** The sweep score falls from 0.85 on a level to 0.15 two percent away: neither of its limits is ever reached. */
  lemma SweepNeedsNoClamp(liquidity: real)
    requires liquidity >= 0.0
    ensures Sweep(liquidity) == if liquidity <= 2.0 then 0.85 - 0.35 * liquidity else 0.15
    ensures 0.15 <= Sweep(liquidity) <= 0.85
  {
  }

  /** Two percent from the high and more the breakout score is the bias alone; nearer it gains, and only its upper limit acts. */
  lemma BreakoutInPercent(bias: real, high: real, close: real, percent: real)
    requires -1.0 <= bias <= 1.0 && close > 0.0 && Abs(high - close) == percent / 100.0 * close
    ensures Breakout(bias, high, close)
         == if percent >= 2.0 then 0.5 + 0.3 * bias else Min(0.95, 0.7 + 0.3 * bias - 0.1 * percent)
  {
    PercentBack(Abs(high - close), percent, close);
    hide Abs;
  }

  lemma PercentBack(d: real, percent: real, close: real)
    requires close > 0.0 && d >= 0.0 && d == percent / 100.0 * close
    ensures percent >= 0.0 && d / close * 100.0 == percent
  {
    var f := percent / 100.0;
    SignOfProduct(f, close);
    assert d == f * close;
    assert d / close == f;
  }

  /** The breakout score never reaches its lower limit; a higher bias or a nearer high never lowers it. */
  lemma BreakoutIsMonotone(a: real, b: real, high: real, other: real, close: real)
    requires -1.0 <= a <= b <= 1.0 && close > 0.0 && Abs(other - close) <= Abs(high - close)
    ensures 0.2 <= Breakout(a, high, close) <= Breakout(b, other, close) <= 0.95
  {
    var x, y := Abs(high - close) / close * 100.0, Abs(other - close) / close * 100.0;
    assert 0.0 <= y <= x by {
      PercentIsMonotone(Abs(other - close), Abs(high - close), close);
    }
    hide Abs;
  }

  lemma PercentIsMonotone(d: real, e: real, close: real)
    requires 0.0 <= d <= e && close > 0.0
    ensures 0.0 <= d / close * 100.0 <= e / close * 100.0
  {
    var p, q := d / close, e / close;
    assert p * close == d && q * close == e;
    assert p > q ==> p * close > q * close;
  }
}
