/**
  The daily market-structure scan: swing levels confirmed with the fractal lag, the breaks of structure they
  trigger, and the fair value gaps still open. The specifications say what each bar's row means in terms of
  the bars up to it; the scan is proved to produce those rows with its running state alone.
 */
module MarketStructure {
  import opened Wrappers
  import opened StructureSignals

  /** The fractal width, the tolerance test that decides when two levels are one, and the hyperbolic tangent. */
  datatype Settings = Settings(fractal: nat, isClose: (real, real) -> bool, tanh: real -> real)

  /** Highs and lows are scanned alike. */
  datatype Side = Upper | Lower

  function Level(side: Side, c: Candle): real {
    if side.Upper? then c.high else c.low
  }

  predicate Beyond(side: Side, x: real, y: real) {
    if side.Upper? then x > y else x < y
  }

  function Last(levels: seq<real>): real
    requires levels != []
  {
    levels[|levels| - 1]
  }

  function LastOf(levels: seq<real>): Option<real> {
    if levels == [] then None else Some(Last(levels))
  }

  // ----- swings -----

  /** Bar j is the extreme of its neighbourhood of k bars either side. */
  predicate Pivot(side: Side, c: seq<Candle>, k: nat, j: nat)
    requires k <= j && j + k < |c|
  {
    forall m :: j - k <= m <= j + k ==> !Beyond(side, Level(side, c[m]), Level(side, c[j]))
  }

  /** A pivot is confirmed k bars after it. */
  predicate Confirms(side: Side, c: seq<Candle>, k: nat, i: nat)
    requires i < |c|
  {
    2 * k <= i && Pivot(side, c, k, i - k)
  }

  predicate IsNew(p: Settings, kept: seq<real>, level: real) {
    kept == [] || !p.isClose(level, Last(kept))
  }

  /** The swing levels known after n bars, equal neighbours counted once. */
  function Levels(side: Side, c: seq<Candle>, p: Settings, n: nat): seq<real>
    requires n <= |c|
  {
    if n == 0 then []
    else
      var front := Levels(side, c, p, n - 1);
      if Confirms(side, c, p.fractal, n - 1) && IsNew(p, front, Level(side, c[n - 1 - p.fractal]))
      then front + [Level(side, c[n - 1 - p.fractal])]
      else front
  }

  /** Bar i confirms a swing that differs from the one before it. */
  predicate Fresh(side: Side, c: seq<Candle>, p: Settings, i: nat)
    requires i < |c|
  {
    Confirms(side, c, p.fractal, i) && IsNew(p, Levels(side, c, p, i), Level(side, c[i - p.fractal]))
  }

  /** How many swings in a row, counted back from the last, went beyond their predecessor. */
  function Run(side: Side, levels: seq<real>): nat {
    var n := |levels| - 1;
    if n >= 1 && Beyond(side, levels[n], levels[n - 1]) then Run(side, levels[..n]) + 1 else 0
  }

  // ----- breaks -----

  /** The bar that confirmed the swing level in force after n bars. */
  function Armed(side: Side, c: seq<Candle>, p: Settings, n: nat): (r: nat)
    requires n <= |c| && Levels(side, c, p, n) != []
    ensures r < n
  {
    if Fresh(side, c, p, n - 1) then n - 1 else Armed(side, c, p, n - 1)
  }

  /** The bar closes beyond the level in force; an upward break takes precedence over a downward one. */
  ghost predicate Hits(side: Side, c: seq<Candle>, p: Settings, m: nat)
    requires m < |c|
    decreases side.Lower?, 0
  {
    var levels := Levels(side, c, p, m + 1);
    levels != [] && Beyond(side, c[m].close, Last(levels)) && (side.Lower? ==> !Breaks(Upper, c, p, m))
  }

  /** A break of structure: the first such close since the level was confirmed. */
  ghost predicate Breaks(side: Side, c: seq<Candle>, p: Settings, i: nat)
    requires i < |c|
    decreases side.Lower?, 1
  {
    Hits(side, c, p, i) && forall m :: Armed(side, c, p, i + 1) <= m < i ==> !Hits(side, c, p, m)
  }

  ghost function Bos(c: seq<Candle>, p: Settings, i: nat): int
    requires i < |c|
  {
    if Breaks(Upper, c, p, i) then 1 else if Breaks(Lower, c, p, i) then -1 else 0
  }

  function TrendOf(highs: seq<real>, lows: seq<real>): Option<int> {
    if |highs| < 2 || |lows| < 2 then None
    else
      var h0, h1 := highs[|highs| - 2], highs[|highs| - 1];
      var l0, l1 := lows[|lows| - 2], lows[|lows| - 1];
      Some(if h1 > h0 && l1 > l0 then 1 else if h1 < h0 && l1 < l0 then -1 else 0)
  }

  /** A change of character is a break against the prevailing trend. */
  function ChochOf(bos: int, trend: Option<int>): int {
    if bos != 0 && trend == Some(-bos) then bos else 0
  }

  /** The latest of the first n bars with a break. */
  ghost function LastBreak(c: seq<Candle>, p: Settings, n: nat): (r: Option<nat>)
    requires n <= |c|
    ensures r.Some? ==> r.value < n
  {
    if n == 0 then None else if Bos(c, p, n - 1) != 0 then Some(n - 1) else LastBreak(c, p, n - 1)
  }

  ghost function LastDirection(c: seq<Candle>, p: Settings, n: nat): int
    requires n <= |c|
  {
    if LastBreak(c, p, n).Some? then Bos(c, p, LastBreak(c, p, n).value) else 0
  }

  // ----- fair value gaps -----

  datatype Gap = Gap(top: real, bottom: real, direction: int)

  const FVG_LOOKBACK: nat := 100

  /** The gap, if any, that bar i leaves to the bar two before it. */
  function NewGap(c: seq<Candle>, i: nat): seq<Gap>
    requires i < |c|
  {
    if i < 2 then []
    else if c[i].low > c[i - 2].high then [Gap(c[i].low, c[i - 2].high, 1)]
    else if c[i].high < c[i - 2].low then [Gap(c[i - 2].low, c[i].high, -1)]
    else []
  }

  /** The bar trades through the middle of the gap. */
  predicate Fills(bar: Candle, g: Gap) {
    bar.low <= (g.top + g.bottom) / 2.0 <= bar.high
  }

  function Unfilled(bar: Candle, gaps: seq<Gap>): seq<Gap> {
    if gaps == [] then []
    else Unfilled(bar, gaps[..|gaps| - 1]) + if Fills(bar, gaps[|gaps| - 1]) then [] else [gaps[|gaps| - 1]]
  }

  function Newest(gaps: seq<Gap>): seq<Gap> {
    if |gaps| <= FVG_LOOKBACK then gaps else gaps[|gaps| - FVG_LOOKBACK..]
  }

  /** The gaps the scan still follows after n bars. */
  function OpenGaps(c: seq<Candle>, n: nat): seq<Gap>
    requires n <= |c|
  {
    if n == 0 then [] else Unfilled(c[n - 1], Newest(OpenGaps(c, n - 1) + NewGap(c, n - 1)))
  }

  function NetDirection(gaps: seq<Gap>): int {
    if gaps == [] then 0 else NetDirection(gaps[..|gaps| - 1]) + gaps[|gaps| - 1].direction
  }

  // ----- the row of a bar -----

  datatype Row = Row(swingHigh: Option<real>, swingLow: Option<real>, higherHighs: Option<nat>, lowerLows: Option<nat>,
                     trend: Option<int>, bos: int, choch: int, fvgNet: int, signals: Signals)

  datatype Signals = Signals(liquidity: Option<real>, blockDistance: Option<real>, bias: Option<real>,
                             breakout: Option<real>, sweep: Option<real>)

  function OrZero(count: Option<nat>): nat {
    if count.Some? then count.value else 0
  }

  /** The signals of bar i, from the levels, the trend, the breaks and the order block up to it. */
  function SignalsOf(tanh: real -> real, highs: seq<real>, lows: seq<real>, trend: Option<int>, lastBreak: Option<nat>,
                     direction: int, block: Option<real>, close: real, i: nat): Signals
  {
    var liquidity := LiquidityDistance(highs, lows, close);
    var bias := if trend.None? then None
                else Some(Bias(tanh, trend.value, DecayedBos(lastBreak, direction, i),
                               OrZero(RunOf(Upper, highs)), OrZero(RunOf(Lower, lows))));
    Signals(liquidity, BlockDistance(block, close), bias,
            if bias.Some? && highs != [] && close > 0.0 then Some(Breakout(bias.value, Last(highs), close)) else None,
            if liquidity.Some? then Some(Sweep(liquidity.value)) else None)
  }

  ghost function SignalsAt(c: seq<Candle>, p: Settings, i: nat): Signals
    requires i < |c|
  {
    var highs, lows := Levels(Upper, c, p, i + 1), Levels(Lower, c, p, i + 1);
    SignalsOf(p.tanh, highs, lows, TrendOf(highs, lows), LastBreak(c, p, i + 1), LastDirection(c, p, i + 1),
              OrderBlock(c, i + 1), c[i].close, i)
  }

  function RunOf(side: Side, levels: seq<real>): Option<nat> {
    if levels == [] then None else Some(Run(side, levels))
  }

  /** What bar i's features say, in terms of the bars up to i. */
  ghost function RowAt(c: seq<Candle>, p: Settings, i: nat): Row
    requires i < |c|
  {
    var highs, lows := Levels(Upper, c, p, i + 1), Levels(Lower, c, p, i + 1);
    var trend := TrendOf(highs, lows);
    Row(LastOf(highs), LastOf(lows), RunOf(Upper, highs), RunOf(Lower, lows), trend,
        Bos(c, p, i), ChochOf(Bos(c, p, i), trend), NetDirection(OpenGaps(c, i + 1)), SignalsAt(c, p, i))
  }

  // ----- no look-ahead -----

  lemma {:induction false} LevelsAgree(side: Side, c: seq<Candle>, d: seq<Candle>, p: Settings, n: nat)
    requires Agree(c, d, n)
    ensures n <= |c| && n <= |d| && Levels(side, c, p, n) == Levels(side, d, p, n)
    ensures Levels(side, c, p, n) != [] ==> Armed(side, c, p, n) == Armed(side, d, p, n)
  {
    if n > 0 {
      hide Agree, Beyond, Level, IsNew, Pivot, Confirms;
      LevelsAgree(side, c, d, p, n - 1);
      SwingsAgree(side, c, d, p.fractal, n - 1);
    }
  }

  lemma SwingsAgree(side: Side, c: seq<Candle>, d: seq<Candle>, k: nat, i: nat)
    requires Agree(c, d, i + 1)
    ensures Confirms(side, c, k, i) == Confirms(side, d, k, i)
    ensures Confirms(side, c, k, i) ==> Level(side, c[i - k]) == Level(side, d[i - k])
  {
    hide Beyond, Level;
  }

  lemma {:induction false} HitsAgree(side: Side, c: seq<Candle>, d: seq<Candle>, p: Settings, m: nat)
    requires Agree(c, d, m + 1)
    ensures Hits(side, c, p, m) == Hits(side, d, p, m)
    decreases side.Lower?, 0
  {
    LevelsAgree(side, c, d, p, m + 1);
    if side.Lower? {
      BreaksAgree(Upper, c, d, p, m);
    }
    hide Levels, Breaks;
  }

  lemma {:induction false} BreaksAgree(side: Side, c: seq<Candle>, d: seq<Candle>, p: Settings, i: nat)
    requires Agree(c, d, i + 1)
    ensures Breaks(side, c, p, i) == Breaks(side, d, p, i)
    decreases side.Lower?, 1
  {
    LevelsAgree(side, c, d, p, i + 1);
    forall m: nat | m <= i ensures Hits(side, c, p, m) == Hits(side, d, p, m) {
      HitsAgree(side, c, d, p, m);
    }
    if Hits(side, c, p, i) {
      assert Levels(side, c, p, i + 1) != [];
      hide Hits, Levels, Armed;
    } else {
      hide Hits, Levels, Armed;
    }
  }

  lemma {:induction false} GapsAgree(c: seq<Candle>, d: seq<Candle>, n: nat)
    requires Agree(c, d, n)
    ensures OpenGaps(c, n) == OpenGaps(d, n)
  {
    if n > 0 {
      hide OpenGaps, Unfilled, Newest, NewGap, Agree;
      AgreeShorter(c, d, n - 1, n);
      GapsAgree(c, d, n - 1);
      OpenGapsStep(c, n - 1);
      OpenGapsStep(d, n - 1);
      NewGapAgrees(c, d, n - 1);
    }
  }

  lemma NewGapAgrees(c: seq<Candle>, d: seq<Candle>, i: nat)
    requires Agree(c, d, i + 1)
    ensures c[i] == d[i] && NewGap(c, i) == NewGap(d, i)
  {
  }

  lemma OpenGapsStep(c: seq<Candle>, i: nat)
    requires i < |c|
    ensures OpenGaps(c, i + 1) == Unfilled(c[i], Newest(OpenGaps(c, i) + NewGap(c, i)))
  {
  }

  lemma {:induction false} LastBreaksAgree(c: seq<Candle>, d: seq<Candle>, p: Settings, n: nat)
    requires Agree(c, d, n)
    ensures LastBreak(c, p, n) == LastBreak(d, p, n) && LastDirection(c, p, n) == LastDirection(d, p, n)
  {
    if n > 0 {
      hide Bos, Agree;
      AgreeShorter(c, d, n - 1, n);
      LastBreaksAgree(c, d, p, n - 1);
      BosAgrees(c, d, p, n - 1);
    }
  }

  lemma AgreeShorter(c: seq<Candle>, d: seq<Candle>, m: nat, n: nat)
    requires m <= n && Agree(c, d, n)
    ensures n <= |c| && n <= |d| && Agree(c, d, m)
  {
  }

  lemma BosAgrees(c: seq<Candle>, d: seq<Candle>, p: Settings, i: nat)
    requires Agree(c, d, i + 1)
    ensures Bos(c, p, i) == Bos(d, p, i)
  {
    BreaksAgree(Upper, c, d, p, i);
    BreaksAgree(Lower, c, d, p, i);
    hide Breaks;
  }

  lemma SignalsAgree(c: seq<Candle>, d: seq<Candle>, p: Settings, i: nat)
    requires Agree(c, d, i + 1)
    ensures SignalsAt(c, p, i) == SignalsAt(d, p, i) && Raises(c, i) == Raises(d, i)
  {
    hide Levels, LastBreak, LastDirection, OrderBlock, SignalsOf;
    LevelsAgree(Upper, c, d, p, i + 1);
    LevelsAgree(Lower, c, d, p, i + 1);
    LastBreaksAgree(c, d, p, i + 1);
    BlocksAgree(c, d, i + 1);
  }

  /** Bars after i never change the row of bar i, nor whether it ends the scan. */
  lemma NoLookAhead(c: seq<Candle>, d: seq<Candle>, p: Settings, i: nat)
    requires Agree(c, d, i + 1)
    ensures RowAt(c, p, i) == RowAt(d, p, i) && Raises(c, i) == Raises(d, i)
  {
    hide Levels, Breaks, OpenGaps, NetDirection, TrendOf, ChochOf, RunOf, LastOf, Agree, SignalsAt, Raises;
    SignalsAgree(c, d, p, i);
    LevelsAgree(Upper, c, d, p, i + 1);
    LevelsAgree(Lower, c, d, p, i + 1);
    BreaksAgree(Upper, c, d, p, i);
    BreaksAgree(Lower, c, d, p, i);
    GapsAgree(c, d, i + 1);
  }

  // ----- what the rows promise -----

  /** Without a fresh swing in between, the level in force and its bar stay. */
  lemma {:induction false} LevelsStay(side: Side, c: seq<Candle>, p: Settings, a: nat, b: nat)
    requires a <= b <= |c| && forall i :: a <= i < b ==> !Fresh(side, c, p, i)
    ensures Levels(side, c, p, b) == Levels(side, c, p, a)
    ensures Levels(side, c, p, a) != [] ==> Armed(side, c, p, b) == Armed(side, c, p, a)
    decreases b - a
  {
    if a < b {
      LevelsStay(side, c, p, a, b - 1);
      assert !Fresh(side, c, p, b - 1);
      hide Pivot, IsNew, Level;
    }
  }

  /** Between two breaks on one side a fresh swing, not close to the previous one, was confirmed. */
  lemma BreaksNeedFreshSwing(side: Side, c: seq<Candle>, p: Settings, a: nat, b: nat)
    requires a < b < |c| && Breaks(side, c, p, a) && Breaks(side, c, p, b)
    ensures exists i :: a < i <= b && Fresh(side, c, p, i)
  {
    hide Fresh, Levels, Hits, Breaks, Armed;
    if forall i :: a + 1 <= i < b + 1 ==> !Fresh(side, c, p, i) {
      LevelsStay(side, c, p, a + 1, b + 1);
      SameLevelBreaksOnce(side, c, p, a, b);
    }
  }

  lemma SameLevelBreaksOnce(side: Side, c: seq<Candle>, p: Settings, a: nat, b: nat)
    requires a < b < |c| && Breaks(side, c, p, a) && Levels(side, c, p, b + 1) == Levels(side, c, p, a + 1)
    requires Levels(side, c, p, a + 1) != [] ==> Armed(side, c, p, b + 1) == Armed(side, c, p, a + 1)
    ensures !Breaks(side, c, p, b)
  {
    assert Levels(side, c, p, a + 1) != [];
    hide Levels;
  }

  /** A change of character is that bar's break, and the trend runs the other way. */
  lemma ChangeOpposesTrend(c: seq<Candle>, p: Settings, i: nat)
    requires i < |c|
    ensures var r := RowAt(c, p, i);
      r.choch != 0 <==> r.bos != 0 && r.trend == Some(-r.bos)
    ensures var r := RowAt(c, p, i);
      r.choch != 0 ==> r.choch == r.bos && Breaks(if r.choch == 1 then Upper else Lower, c, p, i)
  {
    hide Breaks, Levels, TrendOf, SignalsAt, NetDirection, OpenGaps, RunOf, LastOf;
  }

  /** Bar i confirms a swing high: the bar k before it is no lower than any of its k neighbours on either side. */
  predicate ConfirmsHigh(c: seq<Candle>, k: nat, i: nat) {
    2 * k <= i < |c| && forall m :: i - 2 * k <= m <= i ==> c[m].high <= c[i - k].high
  }

  predicate ConfirmsLow(c: seq<Candle>, k: nat, i: nat) {
    2 * k <= i < |c| && forall m :: i - 2 * k <= m <= i ==> c[m].low >= c[i - k].low
  }

  lemma ConfirmsInPrices(c: seq<Candle>, k: nat, i: nat)
    requires i < |c|
    ensures Confirms(Upper, c, k, i) <==> ConfirmsHigh(c, k, i)
    ensures Confirms(Lower, c, k, i) <==> ConfirmsLow(c, k, i)
  {
  }

  /** Every level is the price of a pivot that its confirmation bar had already seen, and no two in a row are close. */
  lemma {:induction false} LevelsArePivots(side: Side, c: seq<Candle>, p: Settings, n: nat, x: nat)
    requires n <= |c| && x < |Levels(side, c, p, n)|
    ensures var level := Levels(side, c, p, n)[x]; var k := p.fractal;
      if side.Upper? then exists i: nat :: i < n && ConfirmsHigh(c, k, i) && c[i - k].high == level
      else exists i: nat :: i < n && ConfirmsLow(c, k, i) && c[i - k].low == level
    ensures x > 0 ==> !p.isClose(Levels(side, c, p, n)[x], Levels(side, c, p, n)[x - 1])
  {
    ConfirmsInPrices(c, p.fractal, n - 1);
    hide Pivot, ConfirmsHigh, ConfirmsLow;
    if x < |Levels(side, c, p, n - 1)| {
      LevelsArePivots(side, c, p, n - 1, x);
      if side.Upper? {
        var i: nat :| i < n - 1 && ConfirmsHigh(c, p.fractal, i) && c[i - p.fractal].high == Levels(side, c, p, n)[x];
      } else {
        var i: nat :| i < n - 1 && ConfirmsLow(c, p.fractal, i) && c[i - p.fractal].low == Levels(side, c, p, n)[x];
      }
    }
  }

  /** The swing high of the bar before, if any. */
  ghost function HighBefore(c: seq<Candle>, p: Settings, i: nat): Option<real>
    requires i < |c|
  {
    if i == 0 then None else RowAt(c, p, i - 1).swingHigh
  }

  ghost function LowBefore(c: seq<Candle>, p: Settings, i: nat): Option<real>
    requires i < |c|
  {
    if i == 0 then None else RowAt(c, p, i - 1).swingLow
  }

  /** Bar i confirms a swing high that is not close to the one shown before. */
  ghost predicate FreshHigh(c: seq<Candle>, p: Settings, i: nat)
    requires i < |c|
  {
    && ConfirmsHigh(c, p.fractal, i)
    && (HighBefore(c, p, i).None? || !p.isClose(c[i - p.fractal].high, HighBefore(c, p, i).value))
  }

  ghost predicate FreshLow(c: seq<Candle>, p: Settings, i: nat)
    requires i < |c|
  {
    && ConfirmsLow(c, p.fractal, i)
    && (LowBefore(c, p, i).None? || !p.isClose(c[i - p.fractal].low, LowBefore(c, p, i).value))
  }

  /** A row shows the pivot its bar confirms, unless that is close to the last one shown, and otherwise what was shown before. */
  lemma SwingsShown(c: seq<Candle>, p: Settings, i: nat)
    requires i < |c|
    ensures RowAt(c, p, i).swingHigh == if FreshHigh(c, p, i) then Some(c[i - p.fractal].high) else HighBefore(c, p, i)
    ensures RowAt(c, p, i).swingLow == if FreshLow(c, p, i) then Some(c[i - p.fractal].low) else LowBefore(c, p, i)
  {
    FreshInPrices(c, p, i);
    RowShowsLevels(c, p, i);
    if i > 0 {
      RowShowsLevels(c, p, i - 1);
    }
    LevelShown(Upper, c, p, i);
    LevelShown(Lower, c, p, i);
    hide RowAt, FreshHigh, FreshLow, Fresh, Levels, LastOf;
  }

  lemma LevelShown(side: Side, c: seq<Candle>, p: Settings, i: nat)
    requires i < |c|
    ensures LastOf(Levels(side, c, p, i + 1))
      == if Fresh(side, c, p, i) then Some(Level(side, c[i - p.fractal])) else LastOf(Levels(side, c, p, i))
    ensures LastOf(Levels(side, c, p, 0)) == None
  {
    hide Confirms, Level;
  }

  lemma FreshInPrices(c: seq<Candle>, p: Settings, i: nat)
    requires i < |c|
    ensures Fresh(Upper, c, p, i) <==> FreshHigh(c, p, i)
    ensures Fresh(Lower, c, p, i) <==> FreshLow(c, p, i)
    ensures Fresh(Upper, c, p, i) ==> Level(Upper, c[i - p.fractal]) == c[i - p.fractal].high
    ensures Fresh(Lower, c, p, i) ==> Level(Lower, c[i - p.fractal]) == c[i - p.fractal].low
  {
    ConfirmsInPrices(c, p.fractal, i);
    if i > 0 {
      RowShowsLevels(c, p, i - 1);
    }
    hide RowAt, ConfirmsHigh, ConfirmsLow, Pivot;
  }

  lemma RowShowsLevels(c: seq<Candle>, p: Settings, i: nat)
    requires i < |c|
    ensures RowAt(c, p, i).swingHigh == LastOf(Levels(Upper, c, p, i + 1))
    ensures RowAt(c, p, i).swingLow == LastOf(Levels(Lower, c, p, i + 1))
    ensures RowAt(c, p, i).bos == Bos(c, p, i)
  {
    hide Levels, Breaks, TrendOf, SignalsAt, NetDirection, OpenGaps, RunOf;
  }

  /** From the bar that confirmed it on, until the next fresh one, the same level is in force. */
  lemma LevelInForce(side: Side, c: seq<Candle>, p: Settings, a: nat, i: nat)
    requires a <= i < |c| && Fresh(side, c, p, a) && forall m :: a < m <= i ==> !Fresh(side, c, p, m)
    ensures a >= p.fractal
    ensures Levels(side, c, p, i + 1) != [] && Last(Levels(side, c, p, i + 1)) == Level(side, c[a - p.fractal])
    ensures Armed(side, c, p, i + 1) == a
  {
    ArmedByFresh(side, c, p, a);
    hide Levels, Armed, Fresh, Level;
    LevelsStay(side, c, p, a + 1, i + 1);
  }

  lemma ArmedByFresh(side: Side, c: seq<Candle>, p: Settings, a: nat)
    requires a < |c| && Fresh(side, c, p, a)
    ensures a >= p.fractal && Levels(side, c, p, a + 1) != []
    ensures Last(Levels(side, c, p, a + 1)) == Level(side, c[a - p.fractal]) && Armed(side, c, p, a + 1) == a
  {
    hide Pivot, Level, IsNew;
  }

  /**
    With the swing high of bar a in force, bar i breaks upward exactly if it is the first since a to close above that high.
   */
  lemma UpwardBreakInPrices(c: seq<Candle>, p: Settings, a: nat, i: nat)
    requires a <= i < |c| && FreshHigh(c, p, a) && forall m :: a < m <= i ==> !FreshHigh(c, p, m)
    ensures RowAt(c, p, i).bos == 1
      <==> c[i].close > c[a - p.fractal].high && forall m :: a <= m < i ==> c[m].close <= c[a - p.fractal].high
  {
    assert a >= p.fractal;
    hide RowAt, FreshHigh, Fresh, Levels, Level, Armed;
    RowShowsLevels(c, p, i);
    forall m | a <= m <= i ensures FreshHigh(c, p, m) <==> Fresh(Upper, c, p, m) {
      FreshInPrices(c, p, m);
    }
    FreshInPrices(c, p, a);
    forall m: nat | a <= m <= i ensures Hits(Upper, c, p, m) <==> c[m].close > c[a - p.fractal].high {
      LevelInForce(Upper, c, p, a, m);
    }
    LevelInForce(Upper, c, p, a, i);
    hide Hits;
  }

  /** Likewise downward, where bars that broke upward do not count. */
  lemma DownwardBreakInPrices(c: seq<Candle>, p: Settings, a: nat, i: nat)
    requires a <= i < |c| && FreshLow(c, p, a) && forall m :: a < m <= i ==> !FreshLow(c, p, m)
    ensures RowAt(c, p, i).bos == -1
      <==> && c[i].close < c[a - p.fractal].low && RowAt(c, p, i).bos != 1
           && forall m :: a <= m < i ==> c[m].close >= c[a - p.fractal].low || RowAt(c, p, m).bos == 1
  {
    assert a >= p.fractal;
    hide RowAt, FreshLow, Fresh, Levels, Level, Armed;
    forall m | a <= m <= i ensures FreshLow(c, p, m) <==> Fresh(Lower, c, p, m) {
      FreshInPrices(c, p, m);
    }
    FreshInPrices(c, p, a);
    forall m: nat | a <= m <= i
      ensures RowAt(c, p, m).bos == Bos(c, p, m)
      ensures Hits(Lower, c, p, m) <==> c[m].close < c[a - p.fractal].low && RowAt(c, p, m).bos != 1
    {
      RowShowsLevels(c, p, m);
      LevelInForce(Lower, c, p, a, m);
      hide Breaks;
    }
    LevelInForce(Lower, c, p, a, i);
    hide Hits;
  }

  /** One more fresh swing high: it goes beyond the last one, and the count grows, or the count starts over. */
  lemma HigherHighsInRows(c: seq<Candle>, p: Settings, i: nat)
    requires i < |c|
    ensures var high := HighBefore(c, p, i); var before := if i == 0 then None else RowAt(c, p, i - 1).higherHighs;
      RowAt(c, p, i).higherHighs
      == if !FreshHigh(c, p, i) then before
         else if high.Some? && c[i - p.fractal].high > high.value && before.Some? then Some(before.value + 1) else Some(0)
    ensures RowAt(c, p, i).higherHighs.Some? <==> RowAt(c, p, i).swingHigh.Some?
  {
    hide RowAt, Levels, Run, FreshHigh, Fresh, Level;
    FreshInPrices(c, p, i);
    RowShowsRuns(c, p, i);
    if i > 0 {
      RowShowsRuns(c, p, i - 1);
      RowShowsLevels(c, p, i - 1);
    }
    RowShowsLevels(c, p, i);
    RunShown(Upper, c, p, i);
  }

  lemma LowerLowsInRows(c: seq<Candle>, p: Settings, i: nat)
    requires i < |c|
    ensures var low := LowBefore(c, p, i); var before := if i == 0 then None else RowAt(c, p, i - 1).lowerLows;
      RowAt(c, p, i).lowerLows
      == if !FreshLow(c, p, i) then before
         else if low.Some? && c[i - p.fractal].low < low.value && before.Some? then Some(before.value + 1) else Some(0)
    ensures RowAt(c, p, i).lowerLows.Some? <==> RowAt(c, p, i).swingLow.Some?
  {
    hide RowAt, Levels, Run, FreshLow, Fresh, Level;
    FreshInPrices(c, p, i);
    RowShowsRuns(c, p, i);
    if i > 0 {
      RowShowsRuns(c, p, i - 1);
      RowShowsLevels(c, p, i - 1);
    }
    RowShowsLevels(c, p, i);
    RunShown(Lower, c, p, i);
  }

  lemma RowShowsRuns(c: seq<Candle>, p: Settings, i: nat)
    requires i < |c|
    ensures RowAt(c, p, i).higherHighs == RunOf(Upper, Levels(Upper, c, p, i + 1))
    ensures RowAt(c, p, i).lowerLows == RunOf(Lower, Levels(Lower, c, p, i + 1))
    ensures RowAt(c, p, i).trend == TrendOf(Levels(Upper, c, p, i + 1), Levels(Lower, c, p, i + 1))
  {
    hide Levels, Breaks, TrendOf, SignalsAt, NetDirection, OpenGaps, RunOf;
  }

  lemma RunShown(side: Side, c: seq<Candle>, p: Settings, i: nat)
    requires i < |c|
    ensures var front := Levels(side, c, p, i); var level := Level(side, c[if Fresh(side, c, p, i) then i - p.fractal else i]);
      RunOf(side, Levels(side, c, p, i + 1))
      == if !Fresh(side, c, p, i) then RunOf(side, front)
         else if front != [] && (if side.Upper? then level > Last(front) else level < Last(front)) then Some(Run(side, front) + 1)
         else Some(0)
    ensures RunOf(side, Levels(side, c, p, 0)) == None
  {
    assert Levels(side, c, p, 0) == [];
    hide Levels, Level, Run, Fresh;
    if Fresh(side, c, p, i) {
      FreshAppends(side, c, p, i);
      RunSnoc(side, Levels(side, c, p, i), Level(side, c[i - p.fractal]));
    } else {
      LevelsStay(side, c, p, i, i + 1);
    }
  }

  /** The last two swings of a side: the one in force since bar a, and the one in force since bar z before that. */
  lemma LastTwoLevels(side: Side, c: seq<Candle>, p: Settings, z: nat, a: nat, i: nat)
    requires z < a <= i < |c| && Fresh(side, c, p, z) && Fresh(side, c, p, a)
    requires forall m :: z < m <= i && m != a ==> !Fresh(side, c, p, m)
    ensures z >= p.fractal && a >= p.fractal
    ensures var levels := Levels(side, c, p, i + 1); var n := |levels|;
      n >= 2 && levels[n - 1] == Level(side, c[a - p.fractal]) && levels[n - 2] == Level(side, c[z - p.fractal])
  {
    hide *;
    LevelInForce(side, c, p, z, a - 1);
    LevelsStay(side, c, p, a + 1, i + 1);
    FreshAppends(side, c, p, a);
    LastIsLast(Levels(side, c, p, a));
  }

  lemma LastIsLast(levels: seq<real>)
    requires levels != []
    ensures Last(levels) == levels[|levels| - 1]
  {
  }

  lemma LastTwoHighs(c: seq<Candle>, p: Settings, z: nat, a: nat, i: nat)
    requires z < a <= i < |c| && FreshHigh(c, p, z) && FreshHigh(c, p, a)
    requires forall m :: z < m <= i && m != a ==> !FreshHigh(c, p, m)
    ensures z >= p.fractal && a >= p.fractal
    ensures var levels := Levels(Upper, c, p, i + 1); var n := |levels|;
      n >= 2 && levels[n - 1] == c[a - p.fractal].high && levels[n - 2] == c[z - p.fractal].high
  {
    hide *;
    forall m: nat | m <= i ensures Fresh(Upper, c, p, m) <==> FreshHigh(c, p, m) {
      FreshInPrices(c, p, m);
    }
    FreshInPrices(c, p, z);
    FreshInPrices(c, p, a);
    LastTwoLevels(Upper, c, p, z, a, i);
  }

  lemma LastTwoLows(c: seq<Candle>, p: Settings, z: nat, a: nat, i: nat)
    requires z < a <= i < |c| && FreshLow(c, p, z) && FreshLow(c, p, a)
    requires forall m :: z < m <= i && m != a ==> !FreshLow(c, p, m)
    ensures z >= p.fractal && a >= p.fractal
    ensures var levels := Levels(Lower, c, p, i + 1); var n := |levels|;
      n >= 2 && levels[n - 1] == c[a - p.fractal].low && levels[n - 2] == c[z - p.fractal].low
  {
    hide *;
    forall m: nat | m <= i ensures Fresh(Lower, c, p, m) <==> FreshLow(c, p, m) {
      FreshInPrices(c, p, m);
    }
    FreshInPrices(c, p, z);
    FreshInPrices(c, p, a);
    LastTwoLevels(Lower, c, p, z, a, i);
  }

  lemma FreshAppends(side: Side, c: seq<Candle>, p: Settings, a: nat)
    requires a < |c| && Fresh(side, c, p, a)
    ensures a >= p.fractal && Levels(side, c, p, a + 1) == Levels(side, c, p, a) + [Level(side, c[a - p.fractal])]
  {
    hide Pivot, Level, IsNew;
  }

  /**
    The last two fresh swing highs were confirmed at bars z and a, the last two fresh lows at y and b: both rose, both
    fell, or neither.
   */
  lemma TrendInPrices(c: seq<Candle>, p: Settings, z: nat, a: nat, y: nat, b: nat, i: nat)
    requires z < a <= i < |c| && FreshHigh(c, p, z) && FreshHigh(c, p, a)
    requires forall m :: z < m <= i && m != a ==> !FreshHigh(c, p, m)
    requires y < b <= i && FreshLow(c, p, y) && FreshLow(c, p, b)
    requires forall m :: y < m <= i && m != b ==> !FreshLow(c, p, m)
    ensures var k := p.fractal; var trend := RowAt(c, p, i).trend;
      && z >= k && y >= k && trend.Some? && -1 <= trend.value <= 1
      && (trend == Some(1) <==> c[a - k].high > c[z - k].high && c[b - k].low > c[y - k].low)
      && (trend == Some(-1) <==> c[a - k].high < c[z - k].high && c[b - k].low < c[y - k].low)
  {
    hide RowAt, FreshHigh, FreshLow, Levels;
    LastTwoHighs(c, p, z, a, i);
    LastTwoLows(c, p, y, b, i);
    RowShowsRuns(c, p, i);
  }

  /** Which signals a row has, and what the scores are computed from. */
  lemma SignalsInRow(c: seq<Candle>, p: Settings, i: nat)
    requires i < |c|
    ensures var row := RowAt(c, p, i); var signals := row.signals; var close := c[i].close;
      && (signals.liquidity.Some? <==> (row.swingHigh.Some? || row.swingLow.Some?) && close > 0.0)
      && signals.blockDistance == BlockDistance(OrderBlock(c, i + 1), close)
      && (signals.bias.Some? <==> row.trend.Some?)
      && (row.trend.Some? ==> row.swingHigh.Some?)
      && signals.breakout == (if row.trend.Some? && close > 0.0
                              then Some(Breakout(signals.bias.value, row.swingHigh.value, close)) else None)
      && signals.sweep == if signals.liquidity.Some? then Some(Sweep(signals.liquidity.value)) else None
  {
    RowShowsLevels(c, p, i);
    RowShowsRuns(c, p, i);
    assert RowAt(c, p, i).signals == SignalsAt(c, p, i);
    hide RowAt, Levels, LastBreak, LastDirection, OrderBlock, Bias, Breakout, Sweep, BlockDistance, Nearest, Tail,
      DecayedBos, Run;
    LiquidityOf(Levels(Upper, c, p, i + 1), Levels(Lower, c, p, i + 1), c[i].close);
  }

  /** The run is the longest streak of swings, back from the last, each beyond the one before. */
  lemma {:induction false} RunIsLongestStreak(side: Side, levels: seq<real>)
    requires levels != []
    ensures var r := Run(side, levels); var n := |levels|;
      && r < n
      && (forall j :: n - r <= j < n ==> Beyond(side, levels[j], levels[j - 1]))
      && (r + 1 < n ==> !Beyond(side, levels[n - r - 1], levels[n - r - 2]))
  {
    var n := |levels| - 1;
    hide Beyond;
    if n >= 1 && Beyond(side, levels[n], levels[n - 1]) {
      RunIsLongestStreak(side, levels[..n]);
    }
  }

  /** The last break is that of the latest bar with one. */
  lemma {:induction false} LastBreakIsLatest(c: seq<Candle>, p: Settings, n: nat)
    requires n <= |c|
    ensures LastBreak(c, p, n).None? ==> forall m: nat :: m < n ==> Bos(c, p, m) == 0
    ensures LastBreak(c, p, n).Some? ==> LastDirection(c, p, n) != 0
    ensures LastBreak(c, p, n).Some? ==> forall m: nat :: LastBreak(c, p, n).value < m < n ==> Bos(c, p, m) == 0
  {
    hide Bos;
    if n > 0 {
      LastBreakIsLatest(c, p, n - 1);
    }
  }

  /** With a hyperbolic tangent in -1..1, the bias of every bar is the plain blend: its clamp never acts. */
  lemma BiasIsBlend(c: seq<Candle>, p: Settings, i: nat)
    requires i < |c| && RowAt(c, p, i).signals.bias.Some? && forall x :: -1.0 <= p.tanh(x) <= 1.0
    ensures var row := RowAt(c, p, i);
      && row.trend.Some? && row.higherHighs.Some? && row.lowerLows.Some?
      && row.signals.bias.value
         == 0.5 * row.trend.value as real
            + 0.3 * DecayedBos(LastBreak(c, p, i + 1), LastDirection(c, p, i + 1), i)
            + 0.2 * p.tanh((row.higherHighs.value - row.lowerLows.value) as real / 3.0)
  {
    hide Levels, Breaks, Run, Bias, DecayedBos, LastBreak, NetDirection, OpenGaps, OrderBlock, LiquidityDistance,
      BlockDistance, Breakout, Sweep, ChochOf;
    var row := RowAt(c, p, i);
    TrendRange(Levels(Upper, c, p, i + 1), Levels(Lower, c, p, i + 1));
    BiasNeedsNoClamp(p.tanh, row.trend.value, LastBreak(c, p, i + 1), LastDirection(c, p, i + 1), i,
                     row.higherHighs.value, row.lowerLows.value);
  }

  // ----- gaps: what is followed, and what is forgotten -----

  predicate Survives(c: seq<Candle>, g: Gap, from: nat, n: nat)
    requires n <= |c|
  {
    forall m :: from <= m < n ==> !Fills(c[m], g)
  }

  /** Of the gaps formed at the first b bars, those that no bar before n has filled. */
  function SurvivingGaps(c: seq<Candle>, n: nat, b: nat): seq<Gap>
    requires n <= |c| && b <= |c|
  {
    if b == 0 then [] else SurvivingGaps(c, n, b - 1) + Surviving(c, n, b - 1)
  }

  /** Bar i's gap, if it has one that no bar before n has filled. */
  function Surviving(c: seq<Candle>, n: nat, i: nat): seq<Gap>
    requires n <= |c| && i < |c|
  {
    var g := NewGap(c, i);
    if g != [] && Survives(c, g[0], i, n) then [g[0]] else []
  }

  /** Every gap still unfilled after n bars. */
  function AllOpen(c: seq<Candle>, n: nat): seq<Gap>
    requires n <= |c|
  {
    SurvivingGaps(c, n, n)
  }

  lemma {:induction false} UnfilledConcat(bar: Candle, a: seq<Gap>, b: seq<Gap>)
    ensures Unfilled(bar, a + b) == Unfilled(bar, a) + Unfilled(bar, b)
  {
    hide Fills;
    if b == [] {
      assert a + b == a;
    } else {
      var n := |b| - 1;
      UnfilledConcat(bar, a, b[..n]);
      assert (a + b)[..|a| + n] == a + b[..n];
    }
  }

  lemma UnfilledOne(bar: Candle, g: Gap)
    ensures Unfilled(bar, [g]) == if Fills(bar, g) then [] else [g]
  {
    assert [g][..0] == [];
  }

  lemma SurvivingStep(c: seq<Candle>, n: nat, i: nat)
    requires n < |c| && i <= n
    ensures Surviving(c, n + 1, i) == Unfilled(c[n], Surviving(c, n, i))
  {
    hide Fills, NewGap, Unfilled;
    UnfilledNone(c[n]);
    var g := NewGap(c, i);
    if g != [] {
      UnfilledOne(c[n], g[0]);
      SurvivesStep(c, g[0], i, n);
      hide Survives;
    }
  }

  lemma SurvivesStep(c: seq<Candle>, g: Gap, i: nat, n: nat)
    requires n < |c| && i <= n
    ensures Survives(c, g, i, n + 1) <==> Survives(c, g, i, n) && !Fills(c[n], g)
  {
    hide Fills;
  }

  lemma UnfilledNone(bar: Candle)
    ensures Unfilled(bar, []) == []
  {
  }

  lemma {:induction false} SurvivorsStep(c: seq<Candle>, n: nat, b: nat)
    requires n < |c| && b <= n + 1
    ensures SurvivingGaps(c, n + 1, b) == Unfilled(c[n], SurvivingGaps(c, n, b))
  {
    hide Fills, Unfilled, Surviving;
    UnfilledNone(c[n]);
    if b > 0 {
      SurvivorsStep(c, n, b - 1);
      SurvivingStep(c, n, b - 1);
      UnfilledConcat(c[n], SurvivingGaps(c, n, b - 1), Surviving(c, n, b - 1));
    }
  }

  /** Unlike the scan, the full list only ever loses gaps by filling them. */
  lemma AllOpenStep(c: seq<Candle>, n: nat)
    requires n < |c|
    ensures AllOpen(c, n + 1) == Unfilled(c[n], AllOpen(c, n) + NewGap(c, n))
  {
    SurvivorsStep(c, n, n + 1);
    SurvivingFresh(c, n);
    hide Fills, Unfilled, Surviving, NewGap;
  }

  /** A gap survives until the first bar that is asked. */
  lemma SurvivingFresh(c: seq<Candle>, n: nat)
    requires n < |c|
    ensures Surviving(c, n, n) == NewGap(c, n)
  {
  }

  predicate IsSuffix(a: seq<Gap>, b: seq<Gap>) {
    |a| <= |b| && b == b[..|b| - |a|] + a
  }

  lemma UnfilledSuffix(bar: Candle, a: seq<Gap>, b: seq<Gap>)
    requires IsSuffix(a, b)
    ensures IsSuffix(Unfilled(bar, a), Unfilled(bar, b))
  {
    UnfilledConcat(bar, b[..|b| - |a|], a);
    var front := Unfilled(bar, b[..|b| - |a|]);
    hide Unfilled;
    assert (front + Unfilled(bar, a))[..|front|] == front;
  }

  lemma NewestIsSuffix(a: seq<Gap>, b: seq<Gap>, g: seq<Gap>)
    requires IsSuffix(a, b)
    ensures IsSuffix(Newest(a + g), b + g)
  {
    var n := |b + g| - |Newest(a + g)|;
    forall i | 0 <= i < |Newest(a + g)| ensures Newest(a + g)[i] == (b + g)[n + i] {
      assert b == b[..|b| - |a|] + a;
    }
    assert (b + g)[n..] == Newest(a + g);
    assert b + g == (b + g)[..n] + (b + g)[n..];
  }

  /** The scan follows the most recent of the unfilled gaps, never more than the lookback. */
  lemma {:induction false} OpenGapsAreNewest(c: seq<Candle>, n: nat)
    requires n <= |c|
    ensures IsSuffix(OpenGaps(c, n), AllOpen(c, n)) && |OpenGaps(c, n)| <= FVG_LOOKBACK
  {
    StartsEmpty(c);
    hide Unfilled, NewGap, OpenGaps, AllOpen, IsSuffix, Newest;
    if n > 0 {
      OpenGapsAreNewest(c, n - 1);
      OpenGapsStep(c, n - 1);
      AllOpenStep(c, n - 1);
      var pending := OpenGaps(c, n - 1) + NewGap(c, n - 1);
      NewestIsSuffix(OpenGaps(c, n - 1), AllOpen(c, n - 1), NewGap(c, n - 1));
      UnfilledSuffix(c[n - 1], Newest(pending), AllOpen(c, n - 1) + NewGap(c, n - 1));
      UnfilledShrinks(c[n - 1], Newest(pending));
      NewestIsTail(pending);
    }
  }

  lemma StartsEmpty(c: seq<Candle>)
    ensures OpenGaps(c, 0) == [] && AllOpen(c, 0) == [] && IsSuffix([], [])
  {
  }

  lemma {:induction false} UnfilledShrinks(bar: Candle, gaps: seq<Gap>)
    ensures |Unfilled(bar, gaps)| <= |gaps|
  {
    hide Fills;
    if gaps != [] {
      UnfilledShrinks(bar, gaps[..|gaps| - 1]);
    }
  }

  /** Of the gaps unfilled when bar i arrives, its own included, those that are not among the newest hundred. */
  function PushedOut(c: seq<Candle>, i: nat): seq<Gap>
    requires i < |c|
  {
    var pending := AllOpen(c, i) + NewGap(c, i);
    pending[..|pending| - |Newest(pending)|]
  }

  predicate Complete(c: seq<Candle>, m: nat)
    requires m <= |c|
  {
    OpenGaps(c, m) == AllOpen(c, m)
  }

  predicate NothingLost(c: seq<Candle>, m: nat)
    requires m < |c|
  {
    Unfilled(c[m], PushedOut(c, m)) == []
  }

  /**
    The scan has every unfilled gap at every bar exactly if no bar has unfilled gaps beyond the newest hundred
    that it does not fill itself.
   */
  lemma {:induction false} GapsCompleteIff(c: seq<Candle>, n: nat)
    requires n <= |c|
    ensures (forall m :: 0 <= m <= n ==> Complete(c, m)) <==> (forall m :: 0 <= m < n ==> NothingLost(c, m))
  {
    CompleteAtStart(c);
    hide Complete, NothingLost;
    if n > 0 {
      GapsCompleteIff(c, n - 1);
      if Complete(c, n - 1) {
        CompleteStep(c, n - 1);
      }
    }
  }

  lemma CompleteAtStart(c: seq<Candle>)
    ensures Complete(c, 0)
  {
    assert OpenGaps(c, 0) == [];
  }

  lemma NewestIsTail(gaps: seq<Gap>)
    ensures |Newest(gaps)| <= |gaps| && |Newest(gaps)| <= FVG_LOOKBACK
    ensures gaps == gaps[..|gaps| - |Newest(gaps)|] + Newest(gaps)
  {
  }

  lemma CompleteStep(c: seq<Candle>, i: nat)
    requires i < |c| && Complete(c, i)
    ensures Complete(c, i + 1) <==> NothingLost(c, i)
  {
    OpenGapsStep(c, i);
    AllOpenStep(c, i);
    hide Unfilled, OpenGaps, AllOpen, NewGap, Newest;
    var pending := AllOpen(c, i) + NewGap(c, i);
    NewestIsTail(pending);
    assert pending == PushedOut(c, i) + Newest(pending);
    UnfilledConcat(c[i], PushedOut(c, i), Newest(pending));
  }

  /** Bar j left a gap above the bar two before it, and no bar from j up to n has traded through its middle. */
  predicate OpenAbove(c: seq<Candle>, n: nat, j: nat)
    requires n <= |c|
  {
    && 2 <= j < n && c[j].low > c[j - 2].high
    && forall m :: j <= m < n ==> !(c[m].low <= (c[j].low + c[j - 2].high) / 2.0 <= c[m].high)
  }

  predicate OpenBelow(c: seq<Candle>, n: nat, j: nat)
    requires n <= |c|
  {
    && 2 <= j < n && c[j].low <= c[j - 2].high && c[j].high < c[j - 2].low
    && forall m :: j <= m < n ==> !(c[m].low <= (c[j - 2].low + c[j].high) / 2.0 <= c[m].high)
  }

  function OpenAboves(c: seq<Candle>, n: nat, b: nat): set<nat>
    requires n <= |c|
  {
    set j: nat | j < b && OpenAbove(c, n, j)
  }

  function OpenBelows(c: seq<Candle>, n: nat, b: nat): set<nat>
    requires n <= |c|
  {
    set j: nat | j < b && OpenBelow(c, n, j)
  }

  lemma NetConcat(a: seq<Gap>, b: seq<Gap>)
    requires |b| <= 1
    ensures NetDirection(a + b) == NetDirection(a) + if b == [] then 0 else b[0].direction
  {
    if b == [] {
      assert a + b == a;
    } else {
      assert (a + b)[..|a|] == a;
    }
  }

  lemma SurvivingInPrices(c: seq<Candle>, n: nat, j: nat)
    requires j < n <= |c|
    ensures Surviving(c, n, j) != [] <==> OpenAbove(c, n, j) || OpenBelow(c, n, j)
    ensures |Surviving(c, n, j)| <= 1
    ensures OpenAbove(c, n, j) ==> Surviving(c, n, j) != [] && Surviving(c, n, j)[0].direction == 1
    ensures OpenBelow(c, n, j) ==> Surviving(c, n, j) != [] && Surviving(c, n, j)[0].direction == -1
  {
  }

  lemma {:induction false} NetCounts(c: seq<Candle>, n: nat, b: nat)
    requires b <= n <= |c|
    ensures NetDirection(SurvivingGaps(c, n, b)) == |OpenAboves(c, n, b)| - |OpenBelows(c, n, b)|
  {
    hide *;
    NothingCounts(c, n);
    if b > 0 {
      NetCounts(c, n, b - 1);
      SurvivingInPrices(c, n, b - 1);
      SurvivorsGrow(c, n, b - 1);
      NetConcat(SurvivingGaps(c, n, b - 1), Surviving(c, n, b - 1));
      AbovesGrow(c, n, b - 1);
      BelowsGrow(c, n, b - 1);
      OneSideOnly(c, n, b - 1);
    }
  }

  lemma NothingCounts(c: seq<Candle>, n: nat)
    requires n <= |c|
    ensures NetDirection(SurvivingGaps(c, n, 0)) == 0 && OpenAboves(c, n, 0) == {} && OpenBelows(c, n, 0) == {}
  {
  }

  lemma SurvivorsGrow(c: seq<Candle>, n: nat, b: nat)
    requires b < n <= |c|
    ensures SurvivingGaps(c, n, b + 1) == SurvivingGaps(c, n, b) + Surviving(c, n, b)
  {
    hide Surviving;
  }

  lemma OneSideOnly(c: seq<Candle>, n: nat, j: nat)
    requires n <= |c|
    ensures !(OpenAbove(c, n, j) && OpenBelow(c, n, j))
  {
  }

  lemma AbovesGrow(c: seq<Candle>, n: nat, b: nat)
    requires b < n <= |c|
    ensures |OpenAboves(c, n, b + 1)| == |OpenAboves(c, n, b)| + if OpenAbove(c, n, b) then 1 else 0
  {
    hide OpenAbove;
    assert OpenAboves(c, n, b + 1) == OpenAboves(c, n, b) + if OpenAbove(c, n, b) then {b} else {};
  }

  lemma BelowsGrow(c: seq<Candle>, n: nat, b: nat)
    requires b < n <= |c|
    ensures |OpenBelows(c, n, b + 1)| == |OpenBelows(c, n, b)| + if OpenBelow(c, n, b) then 1 else 0
  {
    hide OpenBelow;
    assert OpenBelows(c, n, b + 1) == OpenBelows(c, n, b) + if OpenBelow(c, n, b) then {b} else {};
  }

  /** If no gap was lost, a row's count is that of all gaps above still open less that of all gaps below. */
  lemma GapNetInPrices(c: seq<Candle>, p: Settings, i: nat)
    requires i < |c| && forall m :: 0 <= m <= i ==> NothingLost(c, m)
    ensures RowAt(c, p, i).fvgNet == |OpenAboves(c, i + 1, i + 1)| - |OpenBelows(c, i + 1, i + 1)|
  {
    GapsCompleteIff(c, i + 1);
    NetCounts(c, i + 1, i + 1);
    assert RowAt(c, p, i).fvgNet == NetDirection(OpenGaps(c, i + 1));
    hide RowAt, OpenGaps, SurvivingGaps, NothingLost, NetDirection;
    assert Complete(c, i + 1);
  }

  /** A rally that never trades back: every bar gaps above the bar two before it. */
  function Rally(n: nat): (c: seq<Candle>)
    ensures |c| == n
  {
    seq(n, i requires 0 <= i < n => Candle(i as real, i as real, i as real, i as real))
  }

  /** In a rally of 103 bars, 101 gaps are unfilled and the scan follows at most 100 of them. */
  lemma {:induction false} RallyForgetsGaps(n: nat, b: nat)
    requires b <= n
    ensures |SurvivingGaps(Rally(n), n, b)| == if b <= 2 then 0 else b - 2
    ensures n >= 103 ==> b == n ==> OpenGaps(Rally(n), n) != AllOpen(Rally(n), n)
  {
    var c := Rally(n);
    if b > 0 {
      RallyForgetsGaps(n, b - 1);
      if b > 2 {
        assert NewGap(c, b - 1) == [Gap(c[b - 1].low, c[b - 3].high, 1)];
      }
    }
    if n >= 103 && b == n {
      OpenGapsAreNewest(c, n);
    }
  }

  // ----- the scan -----

  datatype Swing = Swing(confirm: nat, level: real)

  /** The swings confirmed before bar n, in order. */
  function Swings(side: Side, c: seq<Candle>, k: nat, n: nat): seq<Swing>
    requires n <= |c|
  {
    if n == 0 then []
    else Swings(side, c, k, n - 1)
         + if Confirms(side, c, k, n - 1) then [Swing(n - 1, Level(side, c[n - 1 - k]))] else []
  }

  lemma {:induction false} NoEarlySwings(side: Side, c: seq<Candle>, k: nat, n: nat)
    requires n <= |c| && n <= 2 * k
    ensures Swings(side, c, k, n) == []
  {
    if n > 0 {
      NoEarlySwings(side, c, k, n - 1);
    }
  }

  lemma {:induction false} SwingsPrefix(side: Side, c: seq<Candle>, k: nat, a: nat, b: nat)
    requires a <= b <= |c|
    ensures Swings(side, c, k, a) <= Swings(side, c, k, b)
    ensures forall j :: |Swings(side, c, k, a)| <= j < |Swings(side, c, k, b)| ==> a <= Swings(side, c, k, b)[j].confirm < b
    decreases b - a
  {
    if a < b {
      SwingsPrefix(side, c, k, a, b - 1);
      hide Confirms, Level;
    }
  }

  /** The next event is due at bar i exactly if bar i confirms a swing. */
  lemma NextSwing(side: Side, c: seq<Candle>, k: nat, i: nat)
    requires i < |c|
    ensures var all := Swings(side, c, k, |c|); var idx := |Swings(side, c, k, i)|; var next := |Swings(side, c, k, i + 1)|;
      && next <= |all|
      && (Confirms(side, c, k, i) ==> next == idx + 1 && all[idx] == Swing(i, Level(side, c[i - k])))
      && (!Confirms(side, c, k, i) ==> next == idx)
      && (next < |all| ==> all[next].confirm > i)
  {
    SwingsPrefix(side, c, k, i + 1, |c|);
    hide Confirms, Level;
  }

  method ConfirmedSwings(c: seq<Candle>, k: nat) returns (highs: seq<Swing>, lows: seq<Swing>)
    ensures highs == Swings(Upper, c, k, |c|) && lows == Swings(Lower, c, k, |c|)
  {
    highs, lows := [], [];
    if 2 * k > |c| {
      NoEarlySwings(Upper, c, k, |c|);
      NoEarlySwings(Lower, c, k, |c|);
      return;
    }
    NoEarlySwings(Upper, c, k, 2 * k);
    NoEarlySwings(Lower, c, k, 2 * k);
    var j := k;
    while j + k < |c|
      invariant k <= j && j + k <= |c|
      invariant highs == Swings(Upper, c, k, j + k) && lows == Swings(Lower, c, k, j + k)
    {
      if Pivot(Upper, c, k, j) {
        highs := highs + [Swing(j + k, c[j].high)];
      }
      if Pivot(Lower, c, k, j) {
        lows := lows + [Swing(j + k, c[j].low)];
      }
      j := j + 1;
    }
  }

  /** An earlier bar already broke the level in force after n bars. */
  ghost predicate Broken(side: Side, c: seq<Candle>, p: Settings, n: nat, i: nat)
    requires n <= |c| && i <= |c|
  {
    Levels(side, c, p, n) != [] && exists m :: Armed(side, c, p, n) <= m < i && Hits(side, c, p, m)
  }

  /** One side's running state once the swings of the first n bars and the closes of the first i are in. */
  ghost predicate Follows(side: Side, c: seq<Candle>, p: Settings, n: nat, i: nat,
                          idx: nat, seen: seq<real>, run: nat, broken: Option<real>)
    requires n <= |c| && i <= |c|
  {
    && idx == |Swings(side, c, p.fractal, n)|
    && seen == Levels(side, c, p, n) && run == Run(side, seen)
    && broken == if Broken(side, c, p, n, i) then Some(Last(Levels(side, c, p, n))) else None
  }

  lemma RunSnoc(side: Side, levels: seq<real>, level: real)
    ensures Run(side, levels + [level])
      == if levels != [] && Beyond(side, level, Last(levels)) then Run(side, levels) + 1 else 0
  {
    assert (levels + [level])[..|levels|] == levels;
  }

  lemma BrokenIntake(side: Side, c: seq<Candle>, p: Settings, i: nat)
    requires i < |c|
    ensures Fresh(side, c, p, i) ==> !Broken(side, c, p, i + 1, i)
    ensures !Fresh(side, c, p, i) ==> Broken(side, c, p, i + 1, i) == Broken(side, c, p, i, i)
  {
    hide Confirms, IsNew, Level, Hits;
  }

  /** Bar i's close is a break exactly when it is beyond the level and the level is not broken yet. */
  lemma BreakTest(side: Side, c: seq<Candle>, p: Settings, i: nat)
    requires i < |c|
    ensures Breaks(side, c, p, i) <==> Hits(side, c, p, i) && !Broken(side, c, p, i + 1, i)
    ensures Broken(side, c, p, i + 1, i + 1) <==> Broken(side, c, p, i + 1, i) || Breaks(side, c, p, i)
  {
    if Hits(side, c, p, i) {
      assert Levels(side, c, p, i + 1) != [];
    }
    hide Hits, Levels, Armed;
  }

  /** Moves past the events due at bar i. */
  method TakeSwings(side: Side, events: seq<Swing>, i: nat, idx: nat, seen: seq<real>, run: nat, broken: Option<real>,
                    p: Settings, ghost c: seq<Candle>)
    returns (idx': nat, seen': seq<real>, run': nat, broken': Option<real>)
    requires i < |c| && events == Swings(side, c, p.fractal, |c|)
    requires Follows(side, c, p, i, i, idx, seen, run, broken)
    ensures Follows(side, c, p, i + 1, i, idx', seen', run', broken')
  {
    hide Confirms, IsNew, Level, Hits, Run, Swings, Beyond, Armed, Broken;
    NextSwing(side, c, p.fractal, i);
    BrokenIntake(side, c, p, i);
    idx', seen', run', broken' := idx, seen, run, broken;
    while idx' < |events| && events[idx'].confirm <= i
      invariant idx' == idx || idx' == |Swings(side, c, p.fractal, i + 1)|
      invariant idx' == idx ==> seen' == seen && run' == run && broken' == broken
      invariant idx' > idx ==> Follows(side, c, p, i + 1, i, idx', seen', run', broken')
      decreases |events| - idx'
    {
      var level := events[idx'].level;
      idx' := idx' + 1;
      RunSnoc(side, seen', level);
      if IsNew(p, seen', level) {
        run' := if seen' != [] && Beyond(side, level, seen'[|seen'| - 1]) then run' + 1 else 0;
        seen' := seen' + [level];
        broken' := None;
      }
    }
  }

  lemma UnfilledSnoc(bar: Candle, gaps: seq<Gap>, j: nat)
    requires j < |gaps|
    ensures Unfilled(bar, gaps[..j + 1]) == Unfilled(bar, gaps[..j]) + if Fills(bar, gaps[j]) then [] else [gaps[j]]
    ensures NetDirection(gaps[..j + 1]) == NetDirection(gaps[..j]) + gaps[j].direction
  {
    assert gaps[..j + 1][..j] == gaps[..j];
  }

  /** Adds bar i's gap, forgets the oldest beyond the lookback, and drops what the bar fills. */
  method FollowGaps(c: seq<Candle>, i: nat, gaps: seq<Gap>) returns (stillOpen: seq<Gap>, net: int)
    requires i < |c| && gaps == OpenGaps(c, i)
    ensures stillOpen == OpenGaps(c, i + 1) && net == NetDirection(stillOpen)
  {
    hide Fills, Unfilled, NetDirection;
    var pending := gaps;
    if i >= 2 {
      if c[i].low > c[i - 2].high {
        pending := pending + [Gap(c[i].low, c[i - 2].high, 1)];
      } else if c[i].high < c[i - 2].low {
        pending := pending + [Gap(c[i - 2].low, c[i].high, -1)];
      }
    }
    assert pending == gaps + NewGap(c, i);
    var recent := Newest(pending);
    stillOpen := [];
    Emptied(c[i]);
    for j := 0 to |recent|
      invariant stillOpen == Unfilled(c[i], recent[..j])
    {
      UnfilledSnoc(c[i], recent, j);
      if !Fills(c[i], recent[j]) {
        stillOpen := stillOpen + [recent[j]];
      }
    }
    assert recent[..|recent|] == recent;
    net := 0;
    for j := 0 to |stillOpen|
      invariant net == NetDirection(stillOpen[..j])
    {
      UnfilledSnoc(c[i], stillOpen, j);
      net := net + stillOpen[j].direction;
    }
    assert stillOpen[..|stillOpen|] == stillOpen;
  }

  lemma Emptied(bar: Candle)
    ensures Unfilled(bar, []) == [] && NetDirection([]) == 0
  {
  }

  /** Both sides once bar i's close is in, and the row that close produced. */
  lemma CloseStep(c: seq<Candle>, p: Settings, i: nat, hi: nat, lo: nat, highs: seq<real>, lows: seq<real>,
                  hh: nat, ll: nat, brokenHigh: Option<real>, brokenLow: Option<real>, bos: int)
    requires i < |c|
    requires Follows(Upper, c, p, i + 1, i, hi, highs, hh, brokenHigh)
    requires Follows(Lower, c, p, i + 1, i, lo, lows, ll, brokenLow)
    requires bos == if highs != [] && c[i].close > Last(highs) && brokenHigh != Some(Last(highs)) then 1
      else if lows != [] && c[i].close < Last(lows) && brokenLow != Some(Last(lows)) then -1 else 0
    ensures bos == Bos(c, p, i)
    ensures Follows(Upper, c, p, i + 1, i + 1, hi, highs, hh, if bos == 1 then Some(Last(highs)) else brokenHigh)
    ensures Follows(Lower, c, p, i + 1, i + 1, lo, lows, ll, if bos == -1 then Some(Last(lows)) else brokenLow)
  {
    BreakTest(Upper, c, p, i);
    BreakTest(Lower, c, p, i);
    HitTest(Upper, c, p, i);
    HitTest(Lower, c, p, i);
    hide Hits, Breaks, Broken, Levels, Swings, Run;
  }

  lemma HitTest(side: Side, c: seq<Candle>, p: Settings, i: nat)
    requires i < |c|
    ensures Hits(side, c, p, i) <==>
      && Levels(side, c, p, i + 1) != [] && Beyond(side, c[i].close, Last(Levels(side, c, p, i + 1)))
      && (side.Lower? ==> !Breaks(Upper, c, p, i))
    ensures Broken(side, c, p, i + 1, i) ==> Levels(side, c, p, i + 1) != []
    ensures Breaks(side, c, p, i) ==> Levels(side, c, p, i + 1) != []
  {
    hide Levels, Beyond;
  }

  lemma TrendRange(highs: seq<real>, lows: seq<real>)
    ensures TrendOf(highs, lows).Some? ==> -1 <= TrendOf(highs, lows).value <= 1
  {
  }

  /**
    The daily scan: every row says what its bar's features mean, from running state alone. It yields nothing
    exactly if some bar would divide by an order block at zero.
   */
  method ComputeStructureDaily(c: seq<Candle>, p: Settings) returns (result: Option<seq<Row>>)
    ensures result.None? <==> exists i :: 0 <= i < |c| && Raises(c, i)
    ensures result.Some? ==> |result.value| == |c|
    ensures result.Some? ==> forall i :: 0 <= i < |c| ==> result.value[i] == RowAt(c, p, i)
  {
    hide OrderBlock, Atr, SignalsOf, FollowsBreaks, Follows, OpenGaps, Swings, Levels, Breaks, Run, NetDirection, RowAt,
      Bos, TrendOf, Beyond, Level, Fills, Newest, Confirms, Pivot, Fresh, Hits, Broken, NewGap, Unfilled, SignalsAt;
    var highEvents, lowEvents := ConfirmedSwings(c, p.fractal);
    var highIdx: nat, lowIdx: nat := 0, 0;
    var highsSeen: seq<real>, lowsSeen: seq<real> := [], [];
    var hhRun: nat, llRun: nat := 0, 0;
    var brokenHigh: Option<real>, brokenLow: Option<real> := None, None;
    var openGaps: seq<Gap> := [];
    var atr := AverageTrueRanges(c);
    var lastBosBar: Option<nat>, lastBosDirection := None, 0;
    var orderBlock: Option<real> := None;
    var rows: seq<Row> := [];
    BreaksFromStart(c, p);
    FollowsFromStart(Upper, c, p);
    FollowsFromStart(Lower, c, p);
    for i := 0 to |c|
      invariant |rows| == i
      invariant forall j :: 0 <= j < i ==> rows[j] == RowAt(c, p, j)
      invariant Follows(Upper, c, p, i, i, highIdx, highsSeen, hhRun, brokenHigh)
      invariant Follows(Lower, c, p, i, i, lowIdx, lowsSeen, llRun, brokenLow)
      invariant openGaps == OpenGaps(c, i) && orderBlock == OrderBlock(c, i)
      invariant FollowsBreaks(c, p, i, lastBosBar, lastBosDirection)
      invariant forall j :: 0 <= j < i ==> !Raises(c, j)
    {
      highIdx, highsSeen, hhRun, brokenHigh := TakeSwings(Upper, highEvents, i, highIdx, highsSeen, hhRun, brokenHigh, p, c);
      lowIdx, lowsSeen, llRun, brokenLow := TakeSwings(Lower, lowEvents, i, lowIdx, lowsSeen, llRun, brokenLow, p, c);
      var swingHigh: Option<real>, higherHighs: Option<nat> := None, None;
      if highsSeen != [] {
        swingHigh, higherHighs := Some(Last(highsSeen)), Some(hhRun);
      }
      var swingLow: Option<real>, lowerLows: Option<nat> := None, None;
      if lowsSeen != [] {
        swingLow, lowerLows := Some(Last(lowsSeen)), Some(llRun);
      }
      var trend := TrendOf(highsSeen, lowsSeen);
      TrendRange(highsSeen, lowsSeen);
      var close := c[i].close;
      var prevailing := if trend.Some? then trend.value else 0;
      ghost var wasHigh, wasLow, wasBar, wasDirection := brokenHigh, brokenLow, lastBosBar, lastBosDirection;
      var bos, choch;
      bos, choch, brokenHigh, brokenLow, lastBosBar, lastBosDirection :=
        TakeClose(close, i, swingHigh, swingLow, prevailing, brokenHigh, brokenLow, lastBosBar, lastBosDirection);
      CloseStep(c, p, i, highIdx, lowIdx, highsSeen, lowsSeen, hhRun, llRun, wasHigh, wasLow, bos);
      NextBreak(c, p, i, wasBar, wasDirection);
      var net;
      openGaps, net := FollowGaps(c, i, openGaps);
      orderBlock := NextBlock(c, i, atr[i], orderBlock);
      if orderBlock == Some(0.0) && close > 0.0 {
        assert Raises(c, i);
        return None;
      }
      SignalsStep(c, p, i, highIdx, lowIdx, highsSeen, lowsSeen, hhRun, llRun, brokenHigh, brokenLow, lastBosBar,
                  lastBosDirection);
      var signals := Score(highsSeen, lowsSeen, hhRun, llRun, trend, lastBosBar, lastBosDirection, orderBlock, close, i,
                           p.tanh);
      var row := Row(swingHigh, swingLow, higherHighs, lowerLows, trend, bos, choch, net, signals);
      RowStep(c, p, i, highIdx, lowIdx, highsSeen, lowsSeen, hhRun, llRun, brokenHigh, brokenLow, row);
      rows := rows + [row];
    }
    return Some(rows);
  }

  /** A close beyond a level in force that is not broken yet breaks it; the upper level is asked first. */
  method TakeClose(close: real, i: nat, swingHigh: Option<real>, swingLow: Option<real>, prevailing: int,
                   brokenHigh: Option<real>, brokenLow: Option<real>, lastBosBar: Option<nat>, lastBosDirection: int)
    returns (bos: int, choch: int, brokenHigh': Option<real>, brokenLow': Option<real>, lastBosBar': Option<nat>,
             lastBosDirection': int)
    requires -1 <= prevailing <= 1
    ensures bos == if swingHigh.Some? && close > swingHigh.value && brokenHigh != swingHigh then 1
      else if swingLow.Some? && close < swingLow.value && brokenLow != swingLow then -1 else 0
    ensures choch == if bos != 0 && prevailing == -bos then bos else 0
    ensures brokenHigh' == if bos == 1 then swingHigh else brokenHigh
    ensures brokenLow' == if bos == -1 then swingLow else brokenLow
    ensures lastBosBar' == if bos != 0 then Some(i) else lastBosBar
    ensures lastBosDirection' == if bos != 0 then bos else lastBosDirection
  {
    bos, choch, brokenHigh', brokenLow' := 0, 0, brokenHigh, brokenLow;
    lastBosBar', lastBosDirection' := lastBosBar, lastBosDirection;
    if swingHigh.Some? && close > swingHigh.value && brokenHigh != swingHigh {
      bos, brokenHigh' := 1, swingHigh;
      lastBosBar', lastBosDirection' := Some(i), 1;
      if prevailing < 0 {
        choch := 1;
      }
    } else if swingLow.Some? && close < swingLow.value && brokenLow != swingLow {
      bos, brokenLow' := -1, swingLow;
      lastBosBar', lastBosDirection' := Some(i), -1;
      if prevailing > 0 {
        choch := -1;
      }
    }
  }

  /** The signals of a bar from the running state. */
  method Score(highs: seq<real>, lows: seq<real>, hh: nat, ll: nat, trend: Option<int>, lastBreak: Option<nat>, direction: int,
               block: Option<real>, close: real, i: nat, tanh: real -> real) returns (signals: Signals)
    requires hh == Run(Upper, highs) && ll == Run(Lower, lows) && trend == TrendOf(highs, lows)
    requires block != Some(0.0) || close <= 0.0
    ensures signals == SignalsOf(tanh, highs, lows, trend, lastBreak, direction, block, close, i)
  {
    hide Run, DecayedBos, Bias, Breakout, Sweep, LiquidityDistance;
    var distance: Option<real>, bias: Option<real>, breakout: Option<real>, sweep: Option<real> := None, None, None, None;
    if block.Some? && close > 0.0 {
      distance := Some((close - block.value) / block.value * 100.0);
    }
    if trend.Some? {
      var blend := Bias(tanh, trend.value, DecayedBos(lastBreak, direction, i), hh, ll);
      bias := Some(blend);
      if highs != [] && close > 0.0 {
        breakout := Some(Breakout(blend, Last(highs), close));
      }
    }
    var liquidity := LiquidityDistance(highs, lows, close);
    if liquidity.Some? {
      sweep := Some(Sweep(liquidity.value));
    }
    return Signals(liquidity, distance, bias, breakout, sweep);
  }

  /** The latest break of the first i bars, and its direction. */
  ghost predicate FollowsBreaks(c: seq<Candle>, p: Settings, i: nat, lastBreak: Option<nat>, direction: int)
    requires i <= |c|
  {
    lastBreak == LastBreak(c, p, i) && direction == LastDirection(c, p, i)
  }

  lemma BreaksFromStart(c: seq<Candle>, p: Settings)
    ensures FollowsBreaks(c, p, 0, None, 0) && OrderBlock(c, 0) == None
  {
  }

  lemma NextBreak(c: seq<Candle>, p: Settings, i: nat, lastBreak: Option<nat>, direction: int)
    requires i < |c| && FollowsBreaks(c, p, i, lastBreak, direction)
    ensures FollowsBreaks(c, p, i + 1, if Bos(c, p, i) != 0 then Some(i) else lastBreak,
                          if Bos(c, p, i) != 0 then Bos(c, p, i) else direction)
  {
    hide Bos;
  }

  lemma SignalsStep(c: seq<Candle>, p: Settings, i: nat, hi: nat, lo: nat, highs: seq<real>, lows: seq<real>, hh: nat, ll: nat,
                    brokenHigh: Option<real>, brokenLow: Option<real>, lastBreak: Option<nat>, direction: int)
    requires i < |c| && FollowsBreaks(c, p, i + 1, lastBreak, direction)
    requires Follows(Upper, c, p, i + 1, i + 1, hi, highs, hh, brokenHigh)
    requires Follows(Lower, c, p, i + 1, i + 1, lo, lows, ll, brokenLow)
    ensures SignalsAt(c, p, i) == SignalsOf(p.tanh, highs, lows, TrendOf(highs, lows), lastBreak, direction,
                                            OrderBlock(c, i + 1), c[i].close, i)
    ensures hh == Run(Upper, highs) && ll == Run(Lower, lows)
  {
    hide Levels, Swings, Broken, Run, TrendOf, OrderBlock, SignalsOf, LastBreak, LastDirection;
  }

  lemma FollowsFromStart(side: Side, c: seq<Candle>, p: Settings)
    ensures Follows(side, c, p, 0, 0, 0, [], 0, None) && OpenGaps(c, 0) == []
  {
  }

  lemma RowStep(c: seq<Candle>, p: Settings, i: nat, hi: nat, lo: nat, highs: seq<real>, lows: seq<real>,
                hh: nat, ll: nat, brokenHigh: Option<real>, brokenLow: Option<real>, row: Row)
    requires i < |c|
    requires Follows(Upper, c, p, i + 1, i + 1, hi, highs, hh, brokenHigh)
    requires Follows(Lower, c, p, i + 1, i + 1, lo, lows, ll, brokenLow)
    requires row == Row(LastOf(highs), LastOf(lows), if highs == [] then None else Some(hh), if lows == [] then None else Some(ll),
                        TrendOf(highs, lows), Bos(c, p, i), ChochOf(Bos(c, p, i), TrendOf(highs, lows)), NetDirection(OpenGaps(c, i + 1)), SignalsAt(c, p, i))
    ensures row == RowAt(c, p, i)
  {
    hide Levels, Swings, Broken, Run, Bos, TrendOf, ChochOf, OpenGaps, NetDirection, LastOf, SignalsAt;
  }
}