/**
  What the live candle layer means for one symbol: minute bars built tick by tick, and every wider bar a
  fold of the minute bars that equals the fold of the ticks themselves.
 */
module LiveCandles {
  import opened Vectors
  import opened Wrappers
  import opened SessionBuckets

  /** A price at an instant, with the day's cumulative volume when the feed reports it. */
  datatype Tick = Tick(ts: int, price: real, volume: Option<int>)

  datatype Ohlc = Ohlc(open: real, high: real, low: real, close: real)

  function Max(x: real, y: real): (r: real)
    ensures r >= x && r >= y && (r == x || r == y)
  {
    if x < y then y else x
  }

  function Min(x: real, y: real): (r: real)
    ensures r <= x && r <= y && (r == x || r == y)
  {
    if y < x then y else x
  }

  function Single(price: real): Ohlc {
    Ohlc(price, price, price, price)
  }

  function Extend(o: Ohlc, price: real): Ohlc {
    Ohlc(o.open, Max(o.high, price), Min(o.low, price), price)
  }

  function Merge(a: Ohlc, b: Ohlc): Ohlc {
    Ohlc(a.open, Max(a.high, b.high), Min(a.low, b.low), b.close)
  }

  // ----- the meaning: folds over ticks -----

  /** Open, high, low and close of a run of ticks. */
  function OhlcOf(ticks: seq<Tick>): Ohlc
    requires ticks != []
  {
    var n := |ticks| - 1;
    if n == 0 then Single(ticks[0].price) else Extend(OhlcOf(ticks[..n]), ticks[n].price)
  }

  /** The ticks of a bucket. */
  function InBucket(ticks: seq<Tick>, minutes: nat, bucket: int): seq<Tick>
    requires minutes >= 1
  {
    if ticks == [] then []
    else
      var n := |ticks| - 1;
      InBucket(ticks[..n], minutes, bucket) + if FloorToBucket(ticks[n].ts, minutes) == bucket then [ticks[n]] else []
  }

  predicate Orderly(ticks: seq<Tick>) {
    forall i, j :: 0 <= i < j < |ticks| ==> ticks[i].ts <= ticks[j].ts
  }

  /** What a candle says of its ticks: the first price, the greatest, the least and the last. */
  ghost predicate Summarises(o: Ohlc, ticks: seq<Tick>) {
    && ticks != [] && o.open == ticks[0].price && o.close == ticks[|ticks| - 1].price
    && (forall i :: 0 <= i < |ticks| ==> o.low <= ticks[i].price <= o.high)
    && (exists i :: 0 <= i < |ticks| && ticks[i].price == o.high)
    && (exists i :: 0 <= i < |ticks| && ticks[i].price == o.low)
  }

  lemma {:induction false} OhlcSummarises(ticks: seq<Tick>)
    requires ticks != []
    ensures Summarises(OhlcOf(ticks), ticks)
  {
    var n := |ticks| - 1;
    if n > 0 {
      var front := ticks[..n];
      OhlcSummarises(front);
      var h :| 0 <= h < n && front[h].price == OhlcOf(front).high;
      var l :| 0 <= l < n && front[l].price == OhlcOf(front).low;
      var high, low := if ticks[n].price > front[h].price then n else h, if ticks[n].price < front[l].price then n else l;
      assert ticks[high].price == OhlcOf(ticks).high && ticks[low].price == OhlcOf(ticks).low;
      assert forall i :: 0 <= i < n ==> ticks[i] == front[i];
    }
  }

  ghost predicate IsStretch(ticks: seq<Tick>, minutes: nat, bucket: int, i: nat, j: nat)
    requires minutes >= 1
  {
    && i <= j <= |ticks|
    && forall k :: 0 <= k < |ticks| ==> (i <= k < j <==> FloorToBucket(ticks[k].ts, minutes) == bucket)
  }

  /** One more tick of the bucket can only follow the stretch directly. */
  lemma StretchGrows(ticks: seq<Tick>, minutes: nat, bucket: int, i: nat, j: nat)
    requires IsWidth(minutes) && Orderly(ticks) && ticks != [] && i < j
    requires IsStretch(ticks[..|ticks| - 1], minutes, bucket, i, j)
    requires FloorToBucket(ticks[|ticks| - 1].ts, minutes) == bucket
    ensures j == |ticks| - 1
  {
    assert minutes >= 1;
    hide FloorToBucket, IsWidth;
    var n := |ticks| - 1;
    if j < n {
      assert FloorToBucket(ticks[..n][j - 1].ts, minutes) == bucket && FloorToBucket(ticks[..n][j].ts, minutes) != bucket;
      BucketsAscend(ticks[j - 1].ts, ticks[j].ts, minutes);
      BucketsAscend(ticks[j].ts, ticks[n].ts, minutes);
    }
  }

  lemma StretchSnoc(ticks: seq<Tick>, minutes: nat, bucket: int, i: nat, j: nat)
    requires minutes >= 1 && ticks != [] && IsStretch(ticks[..|ticks| - 1], minutes, bucket, i, j)
    ensures FloorToBucket(ticks[|ticks| - 1].ts, minutes) != bucket ==> IsStretch(ticks, minutes, bucket, i, j)
    ensures FloorToBucket(ticks[|ticks| - 1].ts, minutes) == bucket && i < j == |ticks| - 1 ==>
      IsStretch(ticks, minutes, bucket, i, |ticks|)
    ensures FloorToBucket(ticks[|ticks| - 1].ts, minutes) == bucket && i == j ==>
      IsStretch(ticks, minutes, bucket, |ticks| - 1, |ticks|)
  {
    hide FloorToBucket;
    assert forall k :: 0 <= k < |ticks| - 1 ==> ticks[..|ticks| - 1][k] == ticks[k];
  }

  /** The ticks of a bucket are a stretch of them, if they came in order. */
  lemma {:induction false} InBucketIsStretch(ticks: seq<Tick>, minutes: nat, bucket: int) returns (i: nat, j: nat)
    requires IsWidth(minutes) && Orderly(ticks)
    ensures IsStretch(ticks, minutes, bucket, i, j) && InBucket(ticks, minutes, bucket) == ticks[i..j]
  {
    if ticks == [] {
      return 0, 0;
    }
    assert minutes >= 1;
    OrderlyPrefix(ticks);
    InBucketSnoc(ticks, minutes, bucket);
    var n := |ticks| - 1;
    hide FloorToBucket, IsWidth, InBucket, Orderly;
    i, j := InBucketIsStretch(ticks[..n], minutes, bucket);
    assert i <= j <= n && ticks[..n][i..j] == ticks[i..j];
    StretchSnoc(ticks, minutes, bucket, i, j);
    if FloorToBucket(ticks[n].ts, minutes) == bucket {
      if i < j {
        StretchGrows(ticks, minutes, bucket, i, j);
      } else {
        i := n;
      }
      j := n + 1;
      assert ticks[i..j] == ticks[i..n] + [ticks[n]];
    }
  }

  // ----- the minute bars -----

  /** A minute bar with the cumulative volume it starts from. */
  datatype Bar = Bar(bucket: int, ohlc: Ohlc, baseline: int)

  /** The volume reported for a bar after a tick. */
  function BarVolume(volume: Option<int>, baseline: int): int {
    var v := (if volume.Some? then volume.value else 0) - baseline;
    if v > 0 then v else 0
  }

  /** One tick against the bar in progress; a fresh bar starts from the volume seen before it. */
  function NextBar(bar: Option<Bar>, lastCum: Option<int>, t: Tick): Bar {
    var bucket := FloorToBucket(t.ts, 1);
    if bar.Some? && bar.value.bucket == bucket then bar.value.(ohlc := Extend(bar.value.ohlc, t.price))
    else
      var own := if t.volume.Some? then t.volume.value else 0;
      Bar(bucket, Single(t.price), if lastCum.Some? then lastCum.value else own)
  }

  function NextCum(lastCum: Option<int>, t: Tick): Option<int> {
    if t.volume.Some? then t.volume else lastCum
  }

  /** The in-memory state after a run of ticks. */
  function LiveBar(ticks: seq<Tick>): Option<Bar> {
    if ticks == [] then None
    else
      var n := |ticks| - 1;
      Some(NextBar(LiveBar(ticks[..n]), LastCum(ticks[..n]), ticks[n]))
  }

  function LastCum(ticks: seq<Tick>): Option<int> {
    if ticks == [] then None else NextCum(LastCum(ticks[..|ticks| - 1]), ticks[|ticks| - 1])
  }

  /** A stored candle. */
  datatype Candle = Candle(ohlc: Ohlc, volume: int)

  datatype Minute = Minute(bucket: int, candle: Candle)

  /** The minute candles stored after a run of ticks, oldest first. */
  function Minutes(ticks: seq<Tick>): seq<Minute> {
    if ticks == [] then []
    else
      var n := |ticks| - 1;
      var before := Minutes(ticks[..n]);
      var bar := LiveBar(ticks).value;
      var m := Minute(bar.bucket, Candle(bar.ohlc, BarVolume(ticks[n].volume, bar.baseline)));
      if before != [] && before[|before| - 1].bucket == bar.bucket then before[|before| - 1 := m] else before + [m]
  }

  // ----- the wider bars -----

  /** The minute candles of a wider bucket. */
  function Within(minutes: seq<Minute>, width: nat, bucket: int): (r: seq<Minute>)
    requires width >= 1
    ensures |r| <= |minutes|
  {
    if minutes == [] then []
    else
      var n := |minutes| - 1;
      Within(minutes[..n], width, bucket) + if FloorToBucket(minutes[n].bucket, width) == bucket then [minutes[n]] else []
  }

  /** First open, highest high, lowest low, last close, total volume. */
  function Rollup(minutes: seq<Minute>): Candle
    requires minutes != []
  {
    var n := |minutes| - 1;
    if n == 0 then minutes[0].candle
    else
      var front := Rollup(minutes[..n]);
      Candle(Merge(front.ohlc, minutes[n].candle.ohlc), front.volume + minutes[n].candle.volume)
  }

  function TotalVolume(minutes: seq<Minute>): int {
    if minutes == [] then 0
    else TotalVolume(minutes[..|minutes| - 1]) + minutes[|minutes| - 1].candle.volume
  }

  lemma {:induction false} RollupVolume(minutes: seq<Minute>)
    requires minutes != []
    ensures Rollup(minutes).volume == TotalVolume(minutes)
  {
    if |minutes| > 1 {
      RollupVolume(minutes[..|minutes| - 1]);
    } else {
      assert TotalVolume(minutes[..0]) == 0;
    }
  }

  // ----- the live state follows the last tick -----

  lemma OrderlyPrefix(ticks: seq<Tick>)
    requires ticks != [] && Orderly(ticks)
    ensures Orderly(ticks[..|ticks| - 1])
  {
  }

  /** The bar in progress is the last minute candle, and its bucket is the last tick's. */
  lemma LiveBarIsLastMinute(ticks: seq<Tick>)
    requires ticks != []
    ensures var last := ticks[|ticks| - 1]; var bar := LiveBar(ticks).value; var m := Minutes(ticks);
      && m != [] && bar.bucket == FloorToBucket(last.ts, 1)
      && m[|m| - 1] == Minute(bar.bucket, Candle(bar.ohlc, BarVolume(last.volume, bar.baseline)))
  {
    hide FloorToBucket, Extend, BarVolume;
  }

  /** A tick replaces the last minute candle if it falls in that minute, and otherwise adds one. */
  predicate IsMinutesStep(before: seq<Minute>, after: seq<Minute>, bucket: int, price: real) {
    && after != [] && after[|after| - 1].bucket == bucket
    && if before != [] && before[|before| - 1].bucket == bucket then
         && |after| == |before| && after[..|after| - 1] == before[..|after| - 1]
         && after[|after| - 1].candle.ohlc == Extend(before[|after| - 1].candle.ohlc, price)
       else
         && after[..|after| - 1] == before
         && after[|after| - 1].candle.ohlc == Single(price)
  }

  lemma MinutesStep(ticks: seq<Tick>)
    requires ticks != []
    ensures IsMinutesStep(Minutes(ticks[..|ticks| - 1]), Minutes(ticks),
                          FloorToBucket(ticks[|ticks| - 1].ts, 1), ticks[|ticks| - 1].price)
  {
    var t, front := ticks[|ticks| - 1], ticks[..|ticks| - 1];
    var before, after := Minutes(front), Minutes(ticks);
    if front == [] {
      FirstMinute(t);
      assert ticks == [t];
    } else {
      LiveBarIsLastMinute(front);
      hide FloorToBucket, Extend, BarVolume;
      if before[|before| - 1].bucket == FloorToBucket(t.ts, 1) {
        assert after[..|after| - 1] == before[..|after| - 1];
      } else {
        assert after[..|after| - 1] == before;
      }
    }
  }

  lemma FirstMinute(t: Tick)
    ensures IsMinutesStep([], Minutes([t]), FloorToBucket(t.ts, 1), t.price)
  {
    hide FloorToBucket;
    assert [t][..0] == [];
    assert Minutes([]) == [] && LiveBar([]) == None;
    assert LiveBar([t]) == Some(NextBar(LiveBar([t][..0]), LastCum([t][..0]), t));
  }

  /** Minute candles are strictly ordered, and none is later than the last tick's minute. */
  lemma {:induction false} MinutesAscend(ticks: seq<Tick>)
    requires Orderly(ticks)
    ensures forall i, j :: 0 <= i < j < |Minutes(ticks)| ==> Minutes(ticks)[i].bucket < Minutes(ticks)[j].bucket
    ensures ticks != [] ==> forall i :: 0 <= i < |Minutes(ticks)| ==>
      Minutes(ticks)[i].bucket <= FloorToBucket(ticks[|ticks| - 1].ts, 1)
  {
    if ticks != [] {
      var n := |ticks| - 1;
      assert n > 0 ==> ticks[n - 1].ts <= ticks[n].ts;
      OrderlyPrefix(ticks);
      hide FloorToBucket, Minutes, Orderly, IsMinutesStep, LiveBar;
      MinutesAscend(ticks[..n]);
      MinutesStep(ticks);
      if n > 0 {
        LiveBarIsLastMinute(ticks[..n]);
        BucketsAscend(ticks[n - 1].ts, ticks[n].ts, 1);
      } else {
        NoMinutesYet(ticks[..n]);
      }
      AscendStep(Minutes(ticks[..n]), Minutes(ticks), FloorToBucket(ticks[n].ts, 1), ticks[n].price);
    }
  }

  lemma NoMinutesYet(ticks: seq<Tick>)
    requires ticks == []
    ensures Minutes(ticks) == []
  {
  }

  lemma AscendStep(before: seq<Minute>, after: seq<Minute>, bucket: int, price: real)
    requires IsMinutesStep(before, after, bucket, price)
    requires forall i, j :: 0 <= i < j < |before| ==> before[i].bucket < before[j].bucket
    requires forall i :: 0 <= i < |before| ==> before[i].bucket <= bucket
    ensures forall i, j :: 0 <= i < j < |after| ==> after[i].bucket < after[j].bucket
    ensures forall i :: 0 <= i < |after| ==> after[i].bucket <= bucket
  {
    hide Extend, Single;
    var m := |after| - 1;
    assert forall i :: 0 <= i < m ==> after[i] == after[..m][i];
    if before != [] && before[|before| - 1].bucket == bucket {
      assert forall i :: 0 <= i < m ==> after[i] == before[i];
    }
  }

  // ----- wider bars are folds of the ticks -----

  lemma WithinSnoc(minutes: seq<Minute>, width: nat, bucket: int)
    requires width >= 1 && minutes != []
    ensures var n := |minutes| - 1;
      Within(minutes, width, bucket)
      == Within(minutes[..n], width, bucket) + if FloorToBucket(minutes[n].bucket, width) == bucket then [minutes[n]] else []
  {
  }

  /** Folding the minute candles of a bucket gives the fold of all its ticks. */
  lemma {:induction false} RollupIsFold(ticks: seq<Tick>, width: nat, bucket: int)
    requires IsWidth(width)
    ensures IsFoldOf(Within(Minutes(ticks), width, bucket), InBucket(ticks, width, bucket))
  {
    hide Minutes, Within, InBucket, IsFoldOf, FloorToBucket, IsMinutesStep, IsCandlesStep;
    if ticks == [] {
      NothingToFold(width, bucket);
    } else {
      var n := |ticks| - 1;
      var t := ticks[n];
      var before, after := Minutes(ticks[..n]), Minutes(ticks);
      RollupIsFold(ticks[..n], width, bucket);
      MinutesStep(ticks);
      BucketsNest(t.ts, width);
      InBucketSnoc(ticks, width, bucket);
      WithinStep(before, after, width, bucket, t);
      if FloorToBucket(t.ts, width) == bucket {
        FoldStep(Within(before, width, bucket), Within(after, width, bucket), InBucket(ticks[..n], width, bucket), t,
                 before != [] && before[|before| - 1].bucket == FloorToBucket(t.ts, 1));
      }
    }
  }

  lemma NothingToFold(width: nat, bucket: int)
    requires width >= 1
    ensures IsFoldOf(Within(Minutes([]), width, bucket), InBucket([], width, bucket))
  {
  }

  /** The minute candles fold to what the ticks fold to. */
  predicate IsFoldOf(minutes: seq<Minute>, ticks: seq<Tick>) {
    && (minutes == [] <==> ticks == [])
    && (ticks != [] ==> Rollup(minutes).ohlc == OhlcOf(ticks))
  }

  /** A tick of the bucket extends the last of its minute candles, or adds one. */
  predicate IsCandlesStep(before: seq<Minute>, after: seq<Minute>, price: real, sameMinute: bool) {
    if sameMinute then
      && before != [] && |after| == |before| && after[..|after| - 1] == before[..|after| - 1]
      && after[|after| - 1].candle.ohlc == Extend(before[|after| - 1].candle.ohlc, price)
    else
      && after != [] && after[..|after| - 1] == before
      && after[|after| - 1].candle.ohlc == Single(price)
  }

  lemma WithinStep(before: seq<Minute>, after: seq<Minute>, width: nat, bucket: int, t: Tick)
    requires IsWidth(width) && IsMinutesStep(before, after, FloorToBucket(t.ts, 1), t.price)
    requires FloorToBucket(FloorToBucket(t.ts, 1), width) == FloorToBucket(t.ts, width)
    ensures FloorToBucket(t.ts, width) != bucket ==> Within(after, width, bucket) == Within(before, width, bucket)
    ensures FloorToBucket(t.ts, width) == bucket ==>
      IsCandlesStep(Within(before, width, bucket), Within(after, width, bucket), t.price,
                    before != [] && before[|before| - 1].bucket == FloorToBucket(t.ts, 1))
  {
    WithinSnoc(after, width, bucket);
    if before != [] {
      WithinSnoc(before, width, bucket);
    }
    hide FloorToBucket, Within, Extend;
  }

  lemma FoldStep(before: seq<Minute>, after: seq<Minute>, ticks: seq<Tick>, t: Tick, sameMinute: bool)
    requires IsFoldOf(before, ticks) && IsCandlesStep(before, after, t.price, sameMinute)
    ensures IsFoldOf(after, ticks + [t])
  {
    var k := |after| - 1;
    var front := after[..k];
    assert after == front + [after[k]];
    if sameMinute {
      assert before == front + [before[k]];
    }
    hide Rollup, OhlcOf, Extend, Merge;
  }

  lemma InBucketSnoc(ticks: seq<Tick>, width: nat, bucket: int)
    requires width >= 1 && ticks != []
    ensures var n := |ticks| - 1;
      InBucket(ticks, width, bucket)
      == if FloorToBucket(ticks[n].ts, width) == bucket then InBucket(ticks[..n], width, bucket) + [ticks[n]]
         else InBucket(ticks[..n], width, bucket)
  {
  }

  // ----- volumes -----

  /** The cumulative volumes reported are nonnegative and never fall; some ticks may report none. */
  predicate VolumesRise(ticks: seq<Tick>) {
    && (forall i :: 0 <= i < |ticks| && ticks[i].volume.Some? ==> ticks[i].volume.value >= 0)
    && forall i, j :: 0 <= i < j < |ticks| && ticks[i].volume.Some? && ticks[j].volume.Some? ==>
      ticks[i].volume.value <= ticks[j].volume.value
  }

  lemma VolumesRisePrefix(ticks: seq<Tick>, n: nat)
    requires n <= |ticks| && VolumesRise(ticks)
    ensures VolumesRise(ticks[..n])
  {
  }

  /** The volume seen last was reported by some tick, and none reported more. */
  lemma {:induction false} LastCumIsGreatest(ticks: seq<Tick>)
    requires VolumesRise(ticks)
    ensures LastCum(ticks).None? <==> forall i :: 0 <= i < |ticks| ==> ticks[i].volume.None?
    ensures forall i :: 0 <= i < |ticks| && ticks[i].volume.Some? ==> 0 <= ticks[i].volume.value <= LastCum(ticks).value
    ensures LastCum(ticks).Some? ==> exists i :: 0 <= i < |ticks| && ticks[i].volume == LastCum(ticks)
  {
    if ticks != [] {
      var n := |ticks| - 1;
      VolumesRisePrefix(ticks, n);
      LastCumIsGreatest(ticks[..n]);
      if ticks[n].volume.None? && LastCum(ticks[..n]).Some? {
        var i :| 0 <= i < n && ticks[..n][i].volume == LastCum(ticks[..n]);
        assert ticks[i].volume == LastCum(ticks);
      }
    }
  }

  /** The volume a day's first reports find already traded: their own, unless a bar was begun without a volume. */
  function StartCum(ticks: seq<Tick>): int {
    if ticks == [] then 0
    else
      var n := |ticks| - 1;
      if LastCum(ticks[..n]).Some? then StartCum(ticks[..n])
      else if ticks[n].volume.Some? then LiveBar(ticks).value.baseline
      else 0
  }

  /** What the bar in progress should hold: everything seen since its baseline. */
  function Traded(ticks: seq<Tick>): int
    requires ticks != []
  {
    if LastCum(ticks).Some? then LastCum(ticks).value - LiveBar(ticks).value.baseline else 0
  }

  lemma {:induction false} BaselineIsSeen(ticks: seq<Tick>)
    requires ticks != [] && VolumesRise(ticks)
    ensures var baseline := LiveBar(ticks).value.baseline;
      if LastCum(ticks).Some? then 0 <= baseline <= LastCum(ticks).value else baseline == 0
  {
    var n := |ticks| - 1;
    VolumesRisePrefix(ticks, n);
    LastCumIsGreatest(ticks);
    LastCumIsGreatest(ticks[..n]);
    hide FloorToBucket, Extend;
    if n > 0 {
      BaselineIsSeen(ticks[..n]);
    }
  }

  /** The volume stored for the last minute. */
  function StoredVolume(ticks: seq<Tick>): int
    requires ticks != []
  {
    BarVolume(ticks[|ticks| - 1].volume, LiveBar(ticks).value.baseline)
  }

  /**
    A tick without a volume stores zero for its bar; so the last minute keeps the volume traded in it exactly if the
    last tick reports one, or nothing was traded.
   */
  lemma BarKeepsVolumeIff(ticks: seq<Tick>)
    requires ticks != [] && VolumesRise(ticks)
    ensures Minutes(ticks) != [] && Minutes(ticks)[|Minutes(ticks)| - 1].candle.volume == StoredVolume(ticks)
    ensures StoredVolume(ticks) == if ticks[|ticks| - 1].volume.Some? then Traded(ticks) else 0
    ensures StoredVolume(ticks) == Traded(ticks) <==> ticks[|ticks| - 1].volume.Some? || Traded(ticks) == 0
  {
    LiveBarIsLastMinute(ticks);
    BaselineIsSeen(ticks);
    hide LiveBar, Minutes, FloorToBucket;
  }

  /** Tick i is the last of its minute. */
  predicate EndsMinute(ticks: seq<Tick>, i: nat)
    requires i < |ticks|
  {
    i == |ticks| - 1 || FloorToBucket(ticks[i + 1].ts, 1) != FloorToBucket(ticks[i].ts, 1)
  }

  /** The volume lost because the last tick of a minute reported none. */
  function Lost(ticks: seq<Tick>, i: nat): int
    requires i < |ticks|
  {
    if EndsMinute(ticks, i) && ticks[i].volume.None? then Traded(ticks[..i + 1]) else 0
  }

  function TotalLost(ticks: seq<Tick>, n: nat): int
    requires n <= |ticks|
  {
    if n == 0 then 0 else TotalLost(ticks, n - 1) + Lost(ticks, n - 1)
  }

  /** A later tick only matters to whether the tick before it ended its minute. */
  lemma {:induction false} TotalLostPrefix(ticks: seq<Tick>, n: nat)
    requires n < |ticks|
    ensures TotalLost(ticks, n) == TotalLost(ticks[..|ticks| - 1], n)
      - if n == |ticks| - 1 && n > 0 && !EndsMinute(ticks, n - 1) then Lost(ticks[..|ticks| - 1], n - 1) else 0
  {
    if n > 0 {
      TotalLostPrefix(ticks, n - 1);
      var front := ticks[..|ticks| - 1];
      assert front[..n] == ticks[..n];
      hide FloorToBucket, Traded;
    }
  }

  /** The stored minute volumes and what was lost add up to everything traded since the start. */
  lemma {:induction false} VolumesAddUp(ticks: seq<Tick>)
    requires ticks != [] && VolumesRise(ticks)
    ensures TotalVolume(Minutes(ticks)) + TotalLost(ticks, |ticks|)
      == if LastCum(ticks).Some? then LastCum(ticks).value - StartCum(ticks) else 0
  {
    var n := |ticks| - 1;
    var front := ticks[..n];
    VolumesRisePrefix(ticks, n);
    BarKeepsVolumeIff(ticks);
    LastBarLoss(ticks);
    TotalVolumeStep(ticks);
    TotalLostPrefix(ticks, n);
    BaselineStep(ticks);
    if n > 0 {
      VolumesAddUp(front);
      BarKeepsVolumeIff(front);
      LastBarLoss(front);
    }
    hide Minutes, LiveBar, FloorToBucket, StoredVolume, TotalVolume, Lost;
  }

  lemma LastBarLoss(ticks: seq<Tick>)
    requires ticks != []
    ensures Lost(ticks, |ticks| - 1) == if ticks[|ticks| - 1].volume.None? then Traded(ticks) else 0
  {
    assert ticks[..|ticks|] == ticks;
  }

  lemma TotalVolumeStep(ticks: seq<Tick>)
    requires ticks != []
    ensures var n := |ticks| - 1;
      TotalVolume(Minutes(ticks)) == TotalVolume(Minutes(ticks[..n])) + StoredVolume(ticks)
        - if n > 0 && !EndsMinute(ticks, n - 1) then StoredVolume(ticks[..n]) else 0
  {
    var n := |ticks| - 1;
    var before, after := Minutes(ticks[..n]), Minutes(ticks);
    LastStored(ticks);
    MinutesStep(ticks);
    SameMinuteIff(ticks);
    if n > 0 {
      LastStored(ticks[..n]);
    }
    hide Minutes, FloorToBucket, Extend, StoredVolume, EndsMinute;
    assert after[..|after| - 1] == if n > 0 && !EndsMinute(ticks, n - 1) then before[..|before| - 1] else before;
  }

  /** The last minute candle holds the volume stored last. */
  lemma LastStored(ticks: seq<Tick>)
    requires ticks != []
    ensures Minutes(ticks) != [] && Minutes(ticks)[|Minutes(ticks)| - 1].candle.volume == StoredVolume(ticks)
    ensures Minutes(ticks)[|Minutes(ticks)| - 1].bucket == FloorToBucket(ticks[|ticks| - 1].ts, 1)
  {
    LiveBarIsLastMinute(ticks);
    hide Minutes, LiveBar, FloorToBucket, BarVolume;
  }

  lemma SameMinuteIff(ticks: seq<Tick>)
    requires ticks != []
    ensures var n := |ticks| - 1;
      n > 0 ==> (EndsMinute(ticks, n - 1) <==> FloorToBucket(ticks[..n][n - 1].ts, 1) != FloorToBucket(ticks[n].ts, 1))
  {
    hide FloorToBucket;
  }

  /** A new bar starts from the volume seen before it; otherwise the baseline stays. */
  lemma BaselineStep(ticks: seq<Tick>)
    requires ticks != [] && VolumesRise(ticks)
    ensures var n := |ticks| - 1; var front := ticks[..n];
      LiveBar(ticks).value.baseline
      == if n > 0 && !EndsMinute(ticks, n - 1) then LiveBar(front).value.baseline
         else if LastCum(front).Some? then LastCum(front).value
         else if ticks[n].volume.Some? then ticks[n].volume.value
         else 0
  {
    var n := |ticks| - 1;
    if n > 0 {
      LiveBarIsLastMinute(ticks[..n]);
    }
    hide FloorToBucket, Extend, Minutes;
  }

  /** Tick k is the first to report a volume. */
  predicate FirstReport(ticks: seq<Tick>, k: nat) {
    k < |ticks| && ticks[k].volume.Some? && forall i :: 0 <= i < k ==> ticks[i].volume.None?
  }

  /**
    The first report counts as already traded when it opens its bar. When it joins a bar begun without a volume, the
    whole day's volume before it is stored in that bar.
   */
  lemma {:induction false} StartIsFirstReportIff(ticks: seq<Tick>, k: nat)
    requires VolumesRise(ticks) && FirstReport(ticks, k)
    ensures StartCum(ticks) == if k > 0 && !EndsMinute(ticks, k - 1) then 0 else ticks[k].volume.value
  {
    var n := |ticks| - 1;
    LastCumIsGreatest(ticks[..n]);
    VolumesRisePrefix(ticks, n);
    if k < n {
      assert ticks[..n][k] == ticks[k];
      StartIsFirstReportIff(ticks[..n], k);
    } else {
      BaselineStep(ticks);
      if n > 0 {
        LastCumIsGreatest(ticks[..n - 1]);
        BaselineIsSeen(ticks[..n]);
      }
    }
    hide FloorToBucket, LiveBar;
  }

  lemma {:induction false} TotalLostVanishesIff(ticks: seq<Tick>, n: nat)
    requires n <= |ticks| && VolumesRise(ticks)
    ensures TotalLost(ticks, n) >= 0
    ensures TotalLost(ticks, n) == 0 <==> forall i :: 0 <= i < n ==> Lost(ticks, i) == 0
  {
    if n > 0 {
      TotalLostVanishesIff(ticks, n - 1);
      VolumesRisePrefix(ticks, n);
      BaselineIsSeen(ticks[..n]);
      hide LiveBar, FloorToBucket;
    }
  }

  /**
    When the first tick reports a volume, the stored minute volumes add up to the last cumulative volume less the first
    exactly if no minute ends with a tick that reports none after something was traded in it.
   */
  lemma {:induction false} VolumesTelescopeIff(ticks: seq<Tick>)
    requires VolumesRise(ticks) && FirstReport(ticks, 0)
    ensures LastCum(ticks).Some?
    ensures TotalVolume(Minutes(ticks)) == LastCum(ticks).value - ticks[0].volume.value
      <==> forall i :: 0 <= i < |ticks| ==> KeepsVolume(ticks, i)
  {
    hide Minutes, TotalVolume, FloorToBucket, Traded, StartCum, TotalLost, Lost, LastCum, VolumesRise, EndsMinute;
    LastCumIsGreatest(ticks);
    VolumesAddUp(ticks);
    StartIsFirstReportIff(ticks, 0);
    TotalLostVanishesIff(ticks, |ticks|);
    forall i | 0 <= i < |ticks| ensures Lost(ticks, i) == 0 <==> KeepsVolume(ticks, i) {
      LostUnlessKept(ticks, i);
    }
  }

  /** Tick i does not end its minute, or reports a volume, or nothing was traded in the minute. */
  predicate KeepsVolume(ticks: seq<Tick>, i: nat)
    requires i < |ticks|
  {
    EndsMinute(ticks, i) && ticks[i].volume.None? ==> Traded(ticks[..i + 1]) == 0
  }

  lemma LostUnlessKept(ticks: seq<Tick>, i: nat)
    requires i < |ticks|
    ensures Lost(ticks, i) == 0 <==> KeepsVolume(ticks, i)
  {
    hide Traded, EndsMinute;
  }

  /** With every volume reported nothing is lost. */
  lemma VolumesTelescope(ticks: seq<Tick>)
    requires ticks != [] && VolumesRise(ticks) && forall i :: 0 <= i < |ticks| ==> ticks[i].volume.Some?
    ensures TotalVolume(Minutes(ticks)) == ticks[|ticks| - 1].volume.value - ticks[0].volume.value
  {
    VolumesTelescopeIff(ticks);
    hide Minutes, TotalVolume, FloorToBucket, Traded;
  }

  /** Within one minute: 100 reported, then 250, then nothing reported. The bar traded 150 and is stored with none. */
  lemma MissingVolumeStoresZero(ts: int, price: real)
    ensures var a, b, c := Tick(ts, price, Some(100)), Tick(ts, price, Some(250)), Tick(ts, price, None);
      StoredVolume([a, b]) == 150 && Traded([a, b, c]) == 150 && StoredVolume([a, b, c]) == 0
  {
    hide FloorToBucket;
    var a, b, c := Tick(ts, price, Some(100)), Tick(ts, price, Some(250)), Tick(ts, price, None);
    assert [a, b, c][..2] == [a, b] && [a, b][..1] == [a] && [a][..0] == [];
    assert LiveBar([a]) == Some(NextBar(LiveBar([]), LastCum([]), a)) && LastCum([a]) == Some(100);
    assert LiveBar([a, b]) == Some(NextBar(LiveBar([a]), LastCum([a]), b)) && LastCum([a, b]) == Some(250);
    assert LiveBar([a, b, c]) == Some(NextBar(LiveBar([a, b]), LastCum([a, b]), c));
  }
}
