/**
  The live candle layer over the shared candle table: each batch updates the minute bars in memory,
  upserts them, and re-derives the wider bars from stored minutes. Backfill shares the table but only
  ever inserts what is absent.
 */
module TickAggregators {
  import opened Vectors
  import opened Wrappers
  import opened Sorting
  import opened SessionBuckets
  import opened LiveCandles

  datatype Symbol = Symbol(code: string)

  /** A candle's identity; the timeframe is its width in minutes. */
  datatype CandleKey = CandleKey(symbol: Symbol, timeframe: nat, ts: int)

  type Rows = map<CandleKey, Candle>

  /** A tick as the feed delivers it, any field possibly missing. */
  datatype RawTick = RawTick(symbol: Option<Symbol>, price: Option<real>, ts: Option<int>, volume: Option<int>)

  const ROLLUPS: seq<nat> := [3, 5, 15, 30, 60]

  lemma RollupWidths()
    ensures forall k :: 0 <= k < |ROLLUPS| ==> IsWidth(ROLLUPS[k]) && ROLLUPS[k] > 1
    ensures forall j, k :: 0 <= j < k < |ROLLUPS| ==> ROLLUPS[j] != ROLLUPS[k]
  {
  }

  // ----- what the table should hold for a symbol -----

  /** The minute rows of a symbol are exactly these. */
  ghost predicate MinutesStored(rows: Rows, s: Symbol, minutes: seq<Minute>) {
    && (forall i :: 0 <= i < |minutes| ==>
      CandleKey(s, 1, minutes[i].bucket) in rows && rows[CandleKey(s, 1, minutes[i].bucket)] == minutes[i].candle)
    && forall k :: k in rows && k.symbol == s && k.timeframe == 1 ==> HasBucket(minutes, k.ts)
  }

  ghost predicate HasBucket(minutes: seq<Minute>, bucket: int) {
    exists i :: 0 <= i < |minutes| && minutes[i].bucket == bucket
  }

  predicate Stores(rows: Rows, key: CandleKey, candle: Candle) {
    key in rows && rows[key] == candle
  }

  /** A minute whose roll-ups are still to be written falls in the wide bucket. */
  predicate IsPending(pending: set<int>, width: nat, bucket: int)
    requires width >= 1
  {
    exists m :: m in pending && FloorToBucket(m, width) == bucket
  }

  /** Every wider bucket with minutes in it has a row that rolls them up, unless a roll-up of it is pending. */
  ghost predicate RollupsStored(rows: Rows, s: Symbol, minutes: seq<Minute>, width: nat, pending: set<int>)
    requires width >= 1
  {
    forall bucket: int :: Within(minutes, width, bucket) != [] && !IsPending(pending, width, bucket) ==>
      Stores(rows, CandleKey(s, width, bucket), Rollup(Within(minutes, width, bucket)))
  }

  /** All minute rows of the symbol reflect the ticks seen, and all wider rows but the pending ones, if the ticks came in order. */
  ghost predicate Awaiting(rows: Rows, s: Symbol, ticks: seq<Tick>, pending: set<int>) {
    Orderly(ticks) ==>
      && MinutesStored(rows, s, Minutes(ticks))
      && forall k :: 0 <= k < |ROLLUPS| ==> RollupsStored(rows, s, Minutes(ticks), ROLLUPS[k], pending)
  }

  /** All rows of the symbol reflect the ticks seen, if they came in order. */
  ghost predicate Settled(rows: Rows, s: Symbol, ticks: seq<Tick>) {
    Awaiting(rows, s, ticks, {})
  }

  /** In the middle of one minute's roll-ups: the first `done` widths no longer wait for it. */
  ghost predicate Rolling(rows: Rows, s: Symbol, ticks: seq<Tick>, pending: set<int>, minute: int, done: nat) {
    Orderly(ticks) ==>
      && MinutesStored(rows, s, Minutes(ticks))
      && forall k :: 0 <= k < |ROLLUPS| ==>
        RollupsStored(rows, s, Minutes(ticks), ROLLUPS[k], if k < done then pending - {minute} else pending)
  }

  ghost predicate SameRowsOf(before: Rows, after: Rows, s: Symbol) {
    forall k: CandleKey :: k.symbol == s ==> (k in before <==> k in after) && (k in before ==> after[k] == before[k])
  }

  lemma OtherSymbolsAwait(before: Rows, after: Rows, s: Symbol, ticks: seq<Tick>, pending: set<int>)
    requires SameRowsOf(before, after, s) && Awaiting(before, s, ticks, pending)
    ensures Awaiting(after, s, ticks, pending)
  {
    hide Minutes, Within, Rollup, Orderly, IsPending;
  }

  /** Waiting for more is easier. */
  lemma AwaitingMore(rows: Rows, s: Symbol, ticks: seq<Tick>, pending: set<int>, more: set<int>)
    requires pending <= more && Awaiting(rows, s, ticks, pending)
    ensures Awaiting(rows, s, ticks, more)
  {
    hide Minutes, Within, Rollup, Orderly, MinutesStored, Stores;
    if Orderly(ticks) {
      forall k | 0 <= k < |ROLLUPS| ensures RollupsStored(rows, s, Minutes(ticks), ROLLUPS[k], more) {
        PendingMore(rows, s, Minutes(ticks), ROLLUPS[k], pending, more);
      }
    }
  }

  lemma PendingMore(rows: Rows, s: Symbol, minutes: seq<Minute>, width: nat, pending: set<int>, more: set<int>)
    requires width >= 1 && pending <= more && RollupsStored(rows, s, minutes, width, pending)
    ensures RollupsStored(rows, s, minutes, width, more)
  {
    hide Within, Rollup, Stores, FloorToBucket;
  }

  // ----- reading minutes back -----

  predicate Ascending(minutes: seq<Minute>) {
    forall i, j :: 0 <= i < j < |minutes| ==> minutes[i].bucket < minutes[j].bucket
  }

  /** Strictly ordered lists with the same members are the same list. */
  lemma {:induction false} AscendingIsUnique(a: seq<Minute>, b: seq<Minute>)
    requires Ascending(a) && Ascending(b) && forall m :: m in a <==> m in b
    ensures a == b
  {
    assert (a != [] ==> a[0] in b) && (b != [] ==> b[0] in a);
    if a != [] && b != [] {
      var i, j := |a| - 1, |b| - 1;
      AscendingFront(a);
      AscendingFront(b);
      assert a[i] in b && b[j] in a;
      assert a[i] == b[j];
      hide Ascending;
      AscendingIsUnique(a[..i], b[..j]);
      assert a == a[..i] + [a[i]] && b == b[..j] + [b[j]];
    }
  }

  /** The last minute is the latest, and the others are the minutes of the front. */
  lemma AscendingFront(a: seq<Minute>)
    requires Ascending(a) && a != []
    ensures var n := |a| - 1;
      Ascending(a[..n]) && forall m :: m in a[..n] <==> m in a && m != a[n]
    ensures forall m :: m in a ==> m.bucket <= a[|a| - 1].bucket && (m.bucket == a[|a| - 1].bucket ==> m == a[|a| - 1])
  {
    var n := |a| - 1;
    assert a == a[..n] + [a[n]];
  }

  lemma {:induction false} WithinMembers(minutes: seq<Minute>, width: nat, bucket: int)
    requires width >= 1 && Ascending(minutes)
    ensures Ascending(Within(minutes, width, bucket))
    ensures forall m :: m in Within(minutes, width, bucket) <==> m in minutes && FloorToBucket(m.bucket, width) == bucket
  {
    if minutes != [] {
      hide FloorToBucket;
      var n := |minutes| - 1;
      WithinMembers(minutes[..n], width, bucket);
      assert minutes == minutes[..n] + [minutes[n]];
      var w := Within(minutes[..n], width, bucket);
      forall i | 0 <= i < |w| ensures w[i].bucket < minutes[n].bucket {
        assert w[i] in minutes[..n];
      }
    }
  }

  /** What a time-ordered query over one wide bucket returns. */
  ghost predicate IsQueryResult(rows: Rows, s: Symbol, lo: int, hi: int, found: seq<Minute>) {
    && Ascending(found)
    && forall m :: m in found <==> lo <= m.bucket < hi && Stores(rows, CandleKey(s, 1, m.bucket), m.candle)
  }

  lemma QueryReadsWithin(rows: Rows, s: Symbol, ticks: seq<Tick>, width: nat, at: int, found: seq<Minute>)
    requires IsWidth(width) && Orderly(ticks) && MinutesStored(rows, s, Minutes(ticks))
    requires var lo := FloorToBucket(at, width); IsQueryResult(rows, s, lo, lo + Width(width), found)
    ensures found == Within(Minutes(ticks), width, FloorToBucket(at, width))
  {
    var minutes := Minutes(ticks);
    var bucket := FloorToBucket(at, width);
    MinutesAscend(ticks);
    WithinMembers(minutes, width, bucket);
    forall m ensures m in found <==> m in Within(minutes, width, bucket) {
      BucketIsInterval(at, m.bucket, width);
      StoredIsMember(rows, s, minutes, m);
    }
    AscendingIsUnique(found, Within(minutes, width, bucket));
  }

  lemma StoredIsMember(rows: Rows, s: Symbol, minutes: seq<Minute>, m: Minute)
    requires MinutesStored(rows, s, minutes)
    ensures Stores(rows, CandleKey(s, 1, m.bucket), m.candle) <==> m in minutes
  {
    if Stores(rows, CandleKey(s, 1, m.bucket), m.candle) {
      assert HasBucket(minutes, m.bucket);
    }
  }

  // ----- one tick's writes -----

  /** Upserting the minute of one more tick brings the minute rows up to it and leaves its roll-ups pending. */
  lemma MinuteUpsert(rows: Rows, s: Symbol, before: seq<Tick>, t: Tick, pending: set<int>)
    requires Awaiting(rows, s, before, pending)
    ensures var entry := MinuteEntry(before, Quote(s, t));
      Awaiting(rows[entry.key := entry.candle], s, before + [t], pending + {FloorToBucket(t.ts, 1)})
  {
    var ticks := before + [t];
    assert ticks[..|before|] == before;
    if Orderly(ticks) {
      var entry := MinuteEntry(before, Quote(s, t));
      OrderlyPrefix(ticks);
      MinutesStep(ticks);
      MinutesAscend(ticks);
      LiveBarIsLastMinute(ticks);
      var was, now := Minutes(before), Minutes(ticks);
      var updated := rows[entry.key := entry.candle];
      assert now[|now| - 1] == Minute(entry.key.ts, entry.candle);
      hide Minutes, Within, Rollup, LiveBar, FloorToBucket, Extend, MinutesStored, RollupsStored, IsMinutesStep, Orderly, MinuteEntry;
      MinuteRowsStep(rows, s, was, now, FloorToBucket(t.ts, 1), t.price);
      RollupWidths();
      forall k | 0 <= k < |ROLLUPS|
        ensures RollupsStored(updated, s, now, ROLLUPS[k], pending + {FloorToBucket(t.ts, 1)})
      {
        BucketsNest(t.ts, ROLLUPS[k]);
        RollupsWait(rows, s, was, now, t, ROLLUPS[k], pending, now[|now| - 1]);
      }
    }
  }

  /** A new minute candle only matters to the wide bucket it falls in, and that one is pending. */
  lemma RollupsWait(rows: Rows, s: Symbol, before: seq<Minute>, after: seq<Minute>, t: Tick, width: nat,
                    pending: set<int>, m: Minute)
    requires IsWidth(width) && width > 1 && IsMinutesStep(before, after, FloorToBucket(t.ts, 1), t.price)
    requires FloorToBucket(FloorToBucket(t.ts, 1), width) == FloorToBucket(t.ts, width)
    requires RollupsStored(rows, s, before, width, pending)
    ensures RollupsStored(rows[CandleKey(s, 1, m.bucket) := m.candle], s, after, width, pending + {FloorToBucket(t.ts, 1)})
  {
    var more := pending + {FloorToBucket(t.ts, 1)};
    var updated := rows[CandleKey(s, 1, m.bucket) := m.candle];
    forall x: int | Within(after, width, x) != [] && !IsPending(more, width, x)
      ensures Stores(updated, CandleKey(s, width, x), Rollup(Within(after, width, x)))
    {
      assert FloorToBucket(t.ts, 1) in more && !IsPending(pending, width, x);
      WithinStep(before, after, width, x, t);
      hide Within, Rollup, FloorToBucket, IsMinutesStep, IsCandlesStep;
    }
  }

  lemma MinuteRowsStep(rows: Rows, s: Symbol, before: seq<Minute>, after: seq<Minute>, bucket: int, price: real)
    requires IsMinutesStep(before, after, bucket, price) && Ascending(after) && MinutesStored(rows, s, before)
    ensures var m := after[|after| - 1];
      MinutesStored(rows[CandleKey(s, 1, m.bucket) := m.candle], s, after)
  {
    var n := |after| - 1;
    var updated := rows[CandleKey(s, 1, after[n].bucket) := after[n].candle];
    forall i | 0 <= i < |after|
      ensures Stores(updated, CandleKey(s, 1, after[i].bucket), after[i].candle)
    {
      if i < n {
        assert after[..n][i] == before[i];
      }
    }
    forall k | k in updated && k.symbol == s && k.timeframe == 1 ensures HasBucket(after, k.ts) {
      if k.ts == after[n].bucket {
      } else {
        assert HasBucket(before, k.ts);
        var i :| 0 <= i < |before| && before[i].bucket == k.ts;
        assert i < n;
        assert after[..n][i] == before[i];
      }
    }
  }

  /** Upserting the roll-up of one width around a minute, or finding nothing to roll up, settles that width there. */
  lemma RollupUpsert(rows: Rows, s: Symbol, ticks: seq<Tick>, pending: set<int>, minute: int, j: nat,
                     found: seq<Minute>)
    requires j < |ROLLUPS| && ROLLUPS[j] >= 1 && Rolling(rows, s, ticks, pending, minute, j)
    requires var lo := FloorToBucket(minute, ROLLUPS[j]); IsQueryResult(rows, s, lo, lo + Width(ROLLUPS[j]), found)
    ensures found == [] ==> Rolling(rows, s, ticks, pending, minute, j + 1)
    ensures found != [] ==>
      Rolling(rows[CandleKey(s, ROLLUPS[j], FloorToBucket(minute, ROLLUPS[j])) := Rollup(found)], s, ticks, pending, minute, j + 1)
  {
    hide MinutesStored, RollupsStored, Within, Minutes, Rollup, Orderly, FloorToBucket, Width, IsQueryResult, IsWidth;
    RollupWidths();
    if Orderly(ticks) {
      var width, minutes := ROLLUPS[j], Minutes(ticks);
      QueryReadsWithin(rows, s, ticks, width, minute, found);
      RollupSettles(rows, s, minutes, width, minute, pending);
      if found != [] {
        OtherWidthsStay(rows, s, minutes, width, FloorToBucket(minute, width), Rollup(found));
      }
    }
  }

  lemma RollupSettles(rows: Rows, s: Symbol, minutes: seq<Minute>, width: nat, minute: int, pending: set<int>)
    requires width >= 1 && RollupsStored(rows, s, minutes, width, pending)
    ensures var bucket := FloorToBucket(minute, width); var here := Within(minutes, width, bucket);
      && (here == [] ==> RollupsStored(rows, s, minutes, width, pending - {minute}))
      && (here != [] ==>
        RollupsStored(rows[CandleKey(s, width, bucket) := Rollup(here)], s, minutes, width, pending - {minute}))
  {
    hide Within, Rollup, FloorToBucket;
    var bucket := FloorToBucket(minute, width);
    forall x: int | x != bucket && IsPending(pending, width, x) ensures IsPending(pending - {minute}, width, x) {
      var m :| m in pending && FloorToBucket(m, width) == x;
      assert m in pending - {minute};
    }
  }

  lemma OtherWidthsStay(rows: Rows, s: Symbol, minutes: seq<Minute>, width: nat, bucket: int, candle: Candle)
    requires width > 1
    ensures var updated := rows[CandleKey(s, width, bucket) := candle];
      && (MinutesStored(rows, s, minutes) ==> MinutesStored(updated, s, minutes))
      && (forall w: nat, pending: set<int> :: w >= 1 && w != width && RollupsStored(rows, s, minutes, w, pending) ==>
        RollupsStored(updated, s, minutes, w, pending))
  {
    hide Within, Rollup, IsPending;
  }

  // ----- what settled rows say about the ticks -----

  lemma {:induction false} MinutesAligned(ticks: seq<Tick>)
    requires Orderly(ticks)
    ensures forall i :: 0 <= i < |Minutes(ticks)| ==> FloorToBucket(Minutes(ticks)[i].bucket, 1) == Minutes(ticks)[i].bucket
  {
    if ticks != [] {
      var n := |ticks| - 1;
      OrderlyPrefix(ticks);
      MinutesAligned(ticks[..n]);
      MinutesStep(ticks);
      BucketsNest(ticks[n].ts, 1);
      hide FloorToBucket, Minutes, Orderly, Extend;
      var before, after := Minutes(ticks[..n]), Minutes(ticks);
      forall i | 0 <= i < |after| - 1 ensures after[i].bucket == before[i].bucket {
        assert after[..|after| - 1][i] == after[i];
      }
    }
  }

  /** A minute's own bucket holds just that minute. */
  lemma WithinOneMinute(minutes: seq<Minute>, bucket: int)
    requires Ascending(minutes) && Within(minutes, 1, bucket) != []
    requires forall i :: 0 <= i < |minutes| ==> FloorToBucket(minutes[i].bucket, 1) == minutes[i].bucket
    ensures var w := Within(minutes, 1, bucket); |w| == 1 && w[0] in minutes && w[0].bucket == bucket
  {
    hide Within, FloorToBucket;
    WithinMembers(minutes, 1, bucket);
    var w := Within(minutes, 1, bucket);
    forall i | 0 <= i < |w| ensures w[i] in minutes && w[i].bucket == bucket {
      assert w[i] in w;
    }
    assert w[0].bucket == w[|w| - 1].bucket;
  }

  /** In settled rows every candle, minute or wider, has the open, high, low and close of the ticks of its bucket. */
  lemma SettledIsFold(rows: Rows, s: Symbol, ticks: seq<Tick>, width: nat, bucket: int)
    requires Orderly(ticks) && Settled(rows, s, ticks) && (width == 1 || width in ROLLUPS)
    requires width >= 1 && InBucket(ticks, width, bucket) != []
    ensures var key := CandleKey(s, width, bucket);
      key in rows && rows[key].ohlc == OhlcOf(InBucket(ticks, width, bucket))
  {
    RollupWidths();
    RollupIsFold(ticks, width, bucket);
    if width == 1 {
      MinutesAscend(ticks);
      MinutesAligned(ticks);
      WithinOneMinute(Minutes(ticks), bucket);
    }
    hide Minutes, Within, InBucket, OhlcOf, FloorToBucket, Orderly;
    if width != 1 {
      var k :| 0 <= k < |ROLLUPS| && ROLLUPS[k] == width;
      assert RollupsStored(rows, s, Minutes(ticks), ROLLUPS[k], {});
      assert !IsPending({}, width, bucket);
    }
  }

  /**
    So in settled rows the candle around any tick gives the first, greatest, least and last price of the ticks
    within its span of time, which are ticks[i..j].
   */
  lemma SettledRowsSummarise(rows: Rows, s: Symbol, ticks: seq<Tick>, width: nat, at: nat) returns (i: nat, j: nat)
    requires Orderly(ticks) && Settled(rows, s, ticks) && (width == 1 || width in ROLLUPS) && at < |ticks|
    ensures i <= at < j <= |ticks|
    ensures var start := FloorToBucket(ticks[at].ts, width); var key := CandleKey(s, width, start);
      && (forall k :: 0 <= k < |ticks| ==> (i <= k < j <==> start <= ticks[k].ts < start + Width(width)))
      && key in rows && Summarises(rows[key].ohlc, ticks[i..j])
  {
    RollupWidths();
    OneIsWidth();
    hide FloorToBucket, Width, Settled, Orderly, Summarises, IsWidth;
    var start := FloorToBucket(ticks[at].ts, width);
    i, j := InBucketIsStretch(ticks, width, start);
    forall k | 0 <= k < |ticks| ensures i <= k < j <==> start <= ticks[k].ts < start + Width(width) {
      BucketIsInterval(ticks[at].ts, ticks[k].ts, width);
    }
    SettledIsFold(rows, s, ticks, width, start);
    OhlcSummarises(ticks[i..j]);
  }

  lemma OneIsWidth()
    ensures IsWidth(1)
  {
  }

  /** And a wide candle's volume is the sum of the minute candles of its span that are stored beside it. */
  lemma SettledVolumeIsSum(rows: Rows, s: Symbol, ticks: seq<Tick>, width: nat, at: int, found: seq<Minute>)
    requires Orderly(ticks) && Settled(rows, s, ticks) && width in ROLLUPS && width >= 1 && found != []
    requires var start := FloorToBucket(at, width); IsQueryResult(rows, s, start, start + Width(width), found)
    ensures var key := CandleKey(s, width, FloorToBucket(at, width));
      key in rows && rows[key].volume == TotalVolume(found)
  {
    RollupWidths();
    hide FloorToBucket, Width, Orderly, IsQueryResult, Within, Minutes, MinutesStored;
    QueryReadsWithin(rows, s, ticks, width, at, found);
    var k :| 0 <= k < |ROLLUPS| && ROLLUPS[k] == width;
    assert RollupsStored(rows, s, Minutes(ticks), ROLLUPS[k], {});
    assert !IsPending({}, width, FloorToBucket(at, width));
    RollupVolume(found);
  }

  // ----- the two writers of the candle table -----

  datatype Entry = Entry(key: CandleKey, candle: Candle)

  predicate KeysDistinct(entries: seq<Entry>) {
    forall i, j :: 0 <= i < j < |entries| ==> entries[i].key != entries[j].key
  }

  /** The live writer's rule: the new candle replaces whatever was stored. */
  function Upserted(rows: Rows, entries: seq<Entry>): Rows {
    if entries == [] then rows
    else
      var n := |entries| - 1;
      Upserted(rows, entries[..n])[entries[n].key := entries[n].candle]
  }

  /** The backfill writer's rule: only absent candles are stored. */
  function InsertedAbsent(rows: Rows, entries: seq<Entry>): Rows {
    if entries == [] then rows
    else
      var n := |entries| - 1;
      var sofar := InsertedAbsent(rows, entries[..n]);
      if entries[n].key in sofar then sofar else sofar[entries[n].key := entries[n].candle]
  }

  /** Backfill never alters a stored candle, and adds no candle but the ones it was given. */
  lemma {:induction false} BackfillNeverAlters(rows: Rows, entries: seq<Entry>)
    ensures forall k :: k in rows ==> Stores(InsertedAbsent(rows, entries), k, rows[k])
    ensures forall k :: k in InsertedAbsent(rows, entries) <==> k in rows || exists i :: 0 <= i < |entries| && entries[i].key == k
  {
    if entries != [] {
      var n := |entries| - 1;
      BackfillNeverAlters(rows, entries[..n]);
      forall k ensures k in InsertedAbsent(rows, entries)
        <==> k in rows || exists i :: 0 <= i < |entries| && entries[i].key == k
      {
        if i :| 0 <= i < |entries| && entries[i].key == k {
          assert i < n ==> entries[..n][i].key == k;
        }
      }
    }
  }

  /** The live layer's rows of a symbol survive a backfill exactly when it brings no new minute candle of it. */
  lemma BackfillKeepsSettled(rows: Rows, entries: seq<Entry>, s: Symbol, ticks: seq<Tick>)
    requires Orderly(ticks) && Settled(rows, s, ticks)
    ensures Settled(InsertedAbsent(rows, entries), s, ticks)
      <==> forall i :: 0 <= i < |entries| && entries[i].key.symbol == s && entries[i].key.timeframe == 1 ==> entries[i].key in rows
  {
    BackfillNeverAlters(rows, entries);
    hide InsertedAbsent, Orderly, Minutes, Within, Rollup;
    var after := InsertedAbsent(rows, entries);
    RollupWidths();
    if i :| 0 <= i < |entries| && entries[i].key.symbol == s && entries[i].key.timeframe == 1 && entries[i].key !in rows {
      var k := entries[i].key;
      assert k in after;
    } else {
      forall k | k in after && k.symbol == s && k.timeframe == 1 ensures k in rows {
      }
    }
  }

  class CandleTable {
    var rows: Rows

    constructor ()
      ensures rows == map[]
    {
      rows := map[];
    }

    /** One upsert statement; the database refuses it whole if two of its rows collide. */
    method UpsertMany(entries: seq<Entry>) returns (stored: bool)
      modifies this
      ensures stored <==> KeysDistinct(entries)
      ensures rows == if stored then Upserted(old(rows), entries) else old(rows)
    {
      stored := KeysDistinct(entries);
      if stored {
        var i := 0;
        while i < |entries|
          invariant 0 <= i <= |entries|
          invariant rows == Upserted(old(rows), entries[..i])
        {
          assert entries[..i + 1][..i] == entries[..i];
          rows := rows[entries[i].key := entries[i].candle];
          i := i + 1;
        }
        assert entries[..i] == entries;
      }
    }

    /** One insert-if-absent statement; reports how many rows it added. */
    method StoreCandles(entries: seq<Entry>) returns (inserted: nat)
      modifies this
      ensures rows == InsertedAbsent(old(rows), entries)
      ensures |rows| == |old(rows)| + inserted
    {
      inserted := 0;
      var i := 0;
      while i < |entries|
        invariant 0 <= i <= |entries|
        invariant rows == InsertedAbsent(old(rows), entries[..i])
        invariant |rows| == |old(rows)| + inserted
      {
        assert entries[..i + 1][..i] == entries[..i];
        if entries[i].key !in rows {
          rows := rows[entries[i].key := entries[i].candle];
          inserted := inserted + 1;
        }
        i := i + 1;
      }
      assert entries[..i] == entries;
    }

    /** The minute candles of a symbol from lo up to hi, in time order. */
    method QueryMinutes(s: Symbol, lo: int, hi: int) returns (found: seq<Minute>)
      ensures IsQueryResult(rows, s, lo, hi, found)
    {
      var pending := set k | k in rows && k.symbol == s && k.timeframe == 1 && lo <= k.ts < hi;
      ghost var all := pending;
      var matches: seq<Minute> := [];
      while pending != {}
        invariant pending <= all
        invariant forall m :: m in matches <==> CandleKey(s, 1, m.bucket) in all - pending && rows[CandleKey(s, 1, m.bucket)] == m.candle
        invariant forall i, j :: 0 <= i < j < |matches| ==> matches[i].bucket != matches[j].bucket
        decreases pending
      {
        var k :| k in pending;
        assert k == CandleKey(s, 1, k.ts);
        assert forall m :: m in matches ==> CandleKey(s, 1, m.bucket) != k;
        matches := matches + [Minute(k.ts, rows[k])];
        pending := pending - {k};
      }
      found := Sorted(NotAfter, matches);
      SortedByTime(matches);
      forall m ensures m in found <==> lo <= m.bucket < hi && Stores(rows, CandleKey(s, 1, m.bucket), m.candle) {
        SortKeepsMembers(NotAfter, matches, m);
      }
    }
  }

  predicate NotAfter(a: Minute, b: Minute) {
    a.bucket <= b.bucket
  }

  lemma {:induction false} SortedByTime(matches: seq<Minute>)
    requires forall i, j :: 0 <= i < j < |matches| ==> matches[i].bucket != matches[j].bucket
    ensures Ascending(Sorted(NotAfter, matches))
  {
    var found := Sorted(NotAfter, matches);
    SortSorts(NotAfter, matches);
    SortKeepsDistinct(NotAfter, matches);
    forall i, j | 0 <= i < j < |found| ensures found[i].bucket < found[j].bucket {
      assert NotAfter(found[i], found[j]);
      assert found[i] != found[j];
      SortKeepsMembers(NotAfter, matches, found[i]);
      SortKeepsMembers(NotAfter, matches, found[j]);
    }
  }

  // ----- one batch -----

  /** A tick with everything it needs. */
  datatype Quote = Quote(symbol: Symbol, tick: Tick)

  /** The ticks of a batch that carry a symbol, a price and a time. */
  function Accepted(ticks: seq<RawTick>): seq<Quote> {
    if ticks == [] then []
    else
      var t := ticks[|ticks| - 1];
      Accepted(ticks[..|ticks| - 1])
      + if t.symbol.None? || t.price.None? || t.ts.None? then []
        else [Quote(t.symbol.value, Tick(t.ts.value, t.price.value, t.volume))]
  }

  /** A tick of the symbol with a price and a time. */
  predicate IsComplete(t: RawTick, s: Symbol) {
    t.symbol == Some(s) && t.price.Some? && t.ts.Some?
  }

  /** Seen after the batch are the ticks seen before and then the symbol's complete ones, in order: route lists their places. */
  ghost predicate TakesTicks(before: seq<Tick>, after: seq<Tick>, batch: seq<RawTick>, s: Symbol, route: seq<nat>) {
    && |after| == |before| + |route| && before <= after
    && (forall i, j :: 0 <= i < j < |route| ==> route[i] < route[j])
    && (forall k: nat :: k < |batch| ==> (k in route <==> IsComplete(batch[k], s)))
    && forall i :: 0 <= i < |route| ==>
      route[i] < |batch| && IsComplete(batch[route[i]], s)
      && after[|before| + i] == Tick(batch[route[i]].ts.value, batch[route[i]].price.value, batch[route[i]].volume)
  }

  lemma {:induction false} BatchIsTaken(history: History, batch: seq<RawTick>, s: Symbol) returns (route: seq<nat>)
    ensures TakesTicks(Seen(history, s), Seen(Grown(history, Accepted(batch)), s), batch, s, route)
  {
    hide Accepted, Grown, Seen, TakesTicks;
    if batch == [] {
      NothingTaken(history, s);
      return [];
    }
    var n := |batch| - 1;
    route := BatchIsTaken(history, batch[..n], s);
    GrownStep(history, batch, s);
    TakesNext(Seen(history, s), Seen(Grown(history, Accepted(batch[..n])), s), batch, s, route);
    var sofar := Seen(Grown(history, Accepted(batch[..n])), s);
    assert sofar + [] == sofar;
    if IsComplete(batch[n], s) {
      route := route + [n];
    }
  }

  ghost predicate TakesSymbol(before: History, after: History, batch: seq<RawTick>, s: Symbol) {
    exists route :: TakesTicks(Seen(before, s), Seen(after, s), batch, s, route)
  }

  /** Every symbol has seen its complete ticks of the batch. */
  ghost predicate TakesBatch(before: History, after: History, batch: seq<RawTick>) {
    forall s :: TakesSymbol(before, after, batch, s)
  }

  lemma WholeBatchIsTaken(history: History, batch: seq<RawTick>)
    ensures TakesBatch(history, Grown(history, Accepted(batch)), batch)
  {
    forall s ensures TakesSymbol(history, Grown(history, Accepted(batch)), batch, s) {
      var route := BatchIsTaken(history, batch, s);
    }
  }

  lemma NothingTaken(history: History, s: Symbol)
    ensures TakesTicks(Seen(history, s), Seen(Grown(history, Accepted([])), s), [], s, [])
  {
  }

  lemma TakesNext(before: seq<Tick>, after: seq<Tick>, batch: seq<RawTick>, s: Symbol, route: seq<nat>)
    requires batch != [] && TakesTicks(before, after, batch[..|batch| - 1], s, route)
    ensures var n := |batch| - 1; var t := batch[n];
      if IsComplete(t, s) then TakesTicks(before, after + [Tick(t.ts.value, t.price.value, t.volume)], batch, s, route + [n])
      else TakesTicks(before, after, batch, s, route)
  {
    var front := batch[..|batch| - 1];
    assert forall k :: 0 <= k < |front| ==> front[k] == batch[k];
    hide IsComplete;
  }

  lemma GrownStep(history: History, batch: seq<RawTick>, s: Symbol)
    requires batch != []
    ensures var t := batch[|batch| - 1];
      Seen(Grown(history, Accepted(batch)), s) == Seen(Grown(history, Accepted(batch[..|batch| - 1])), s)
        + if IsComplete(t, s) then [Tick(t.ts.value, t.price.value, t.volume)] else []
  {
    var t, front := batch[|batch| - 1], Accepted(batch[..|batch| - 1]);
    if t.symbol.Some? && t.price.Some? && t.ts.Some? {
      var q := Quote(t.symbol.value, Tick(t.ts.value, t.price.value, t.volume));
      assert Accepted(batch) == front + [q];
      assert (front + [q])[..|front|] == front;
    } else {
      assert Accepted(batch) == front;
    }
  }

  /** Two complete ticks of one symbol fall in one minute. */
  ghost predicate RepeatsMinute(batch: seq<RawTick>) {
    exists i, j, s :: 0 <= i < j < |batch| && SameMinute(batch[i], batch[j], s)
  }

  predicate SameMinute(t: RawTick, u: RawTick, s: Symbol) {
    IsComplete(t, s) && IsComplete(u, s) && FloorToBucket(t.ts.value, 1) == FloorToBucket(u.ts.value, 1)
  }

  /** The quotes of a batch come from its complete ticks: route lists their places. */
  ghost predicate QuotesCome(batch: seq<RawTick>, quotes: seq<Quote>, route: seq<nat>) {
    && |route| == |quotes|
    && (forall i, j :: 0 <= i < j < |route| ==> route[i] < route[j])
    && (forall i :: 0 <= i < |route| ==> route[i] < |batch| && IsQuoteOf(batch[route[i]], quotes[i]))
    && forall k: nat, s :: k < |batch| && IsComplete(batch[k], s) ==> k in route
  }

  predicate IsQuoteOf(t: RawTick, q: Quote) {
    IsComplete(t, q.symbol) && t.ts.value == q.tick.ts
  }

  lemma {:induction false} AcceptedCome(batch: seq<RawTick>) returns (route: seq<nat>)
    ensures QuotesCome(batch, Accepted(batch), route)
  {
    if batch == [] {
      return [];
    }
    var n := |batch| - 1;
    var t := batch[n];
    hide QuotesCome;
    route := AcceptedCome(batch[..n]);
    QuotesNext(batch, Accepted(batch[..n]), route);
    if t.symbol.Some? && t.price.Some? && t.ts.Some? {
      var q := Quote(t.symbol.value, Tick(t.ts.value, t.price.value, t.volume));
      assert Accepted(batch) == Accepted(batch[..n]) + [q];
      route := route + [n];
    } else {
      assert Accepted(batch) == Accepted(batch[..n]);
    }
  }

  lemma QuotesNext(batch: seq<RawTick>, quotes: seq<Quote>, route: seq<nat>)
    requires batch != [] && QuotesCome(batch[..|batch| - 1], quotes, route)
    ensures var t := batch[|batch| - 1];
      t.symbol.None? || t.price.None? || t.ts.None? ==> QuotesCome(batch, quotes, route)
    ensures forall q :: IsQuoteOf(batch[|batch| - 1], q) ==> QuotesCome(batch, quotes + [q], route + [|batch| - 1])
  {
    var front := batch[..|batch| - 1];
    assert forall k :: 0 <= k < |front| ==> front[k] == batch[k];
    hide IsQuoteOf;
  }

  /** The keys of a batch collide exactly if it repeats a minute of a symbol. */
  lemma CollidesIffMinuteRepeats(batch: seq<RawTick>)
    ensures MinutesDistinct(Accepted(batch)) <==> !RepeatsMinute(batch)
  {
    var quotes := Accepted(batch);
    var route := AcceptedCome(batch);
    hide Accepted, FloorToBucket;
    if i, j :| 0 <= i < j < |quotes| && MinuteKey(quotes[i]) == MinuteKey(quotes[j]) {
      assert IsQuoteOf(batch[route[i]], quotes[i]) && IsQuoteOf(batch[route[j]], quotes[j]);
      assert SameMinute(batch[route[i]], batch[route[j]], quotes[i].symbol);
    }
    if i, j, s :| 0 <= i < j < |batch| && SameMinute(batch[i], batch[j], s) {
      var x :| 0 <= x < |route| && route[x] == i;
      var y :| 0 <= y < |route| && route[y] == j;
      assert IsQuoteOf(batch[i], quotes[x]) && IsQuoteOf(batch[j], quotes[y]);
      assert x < y;
      assert MinuteKey(quotes[x]) == MinuteKey(quotes[y]);
    }
  }

  function MinuteKey(q: Quote): CandleKey {
    CandleKey(q.symbol, 1, FloorToBucket(q.tick.ts, 1))
  }

  predicate MinutesDistinct(quotes: seq<Quote>) {
    forall i, j :: 0 <= i < j < |quotes| ==> MinuteKey(quotes[i]) != MinuteKey(quotes[j])
  }

  type History = map<Symbol, seq<Tick>>

  function Seen(history: History, s: Symbol): seq<Tick> {
    if s in history then history[s] else []
  }

  function Grown(history: History, quotes: seq<Quote>): History {
    if quotes == [] then history
    else
      var q := quotes[|quotes| - 1];
      var front := Grown(history, quotes[..|quotes| - 1]);
      front[q.symbol := Seen(front, q.symbol) + [q.tick]]
  }

  /** What is written for a quote whose symbol had seen these ticks before. */
  function MinuteEntry(before: seq<Tick>, q: Quote): Entry {
    var bar := LiveBar(before + [q.tick]).value;
    Entry(MinuteKey(q), Candle(bar.ohlc, BarVolume(q.tick.volume, bar.baseline)))
  }

  /** The minutes of a symbol's quotes from the j-th quote on. */
  function MinutesFrom(quotes: seq<Quote>, s: Symbol, j: nat): set<int> {
    set i | j <= i < |quotes| && quotes[i].symbol == s :: FloorToBucket(quotes[i].tick.ts, 1)
  }

  lemma LiveBarBucket(ticks: seq<Tick>)
    requires ticks != []
    ensures LiveBar(ticks).value.bucket == FloorToBucket(ticks[|ticks| - 1].ts, 1)
  {
    hide FloorToBucket, Extend;
  }

  // ----- one symbol's roll-ups -----

  /** The roll-up of one width was written from the minute candles the table holds, if there are any. */
  ghost predicate RollupWritten(rows: Rows, s: Symbol, minute: int, width: nat)
    requires width >= 1
  {
    var lo := FloorToBucket(minute, width);
    forall found: seq<Minute> :: found != [] && IsQueryResult(rows, s, lo, lo + Width(width), found) ==>
      Stores(rows, CandleKey(s, width, lo), Rollup(found))
  }

  ghost predicate IsRollupKey(k: CandleKey, s: Symbol, minute: int) {
    k.symbol == s && k.timeframe in ROLLUPS && k.timeframe >= 1 && k.ts == FloorToBucket(minute, k.timeframe)
  }

  /** Nothing but the symbol's roll-up rows around this minute differs. */
  ghost predicate OnlyRollupsDiffer(before: Rows, after: Rows, s: Symbol, minute: int) {
    forall k: CandleKey :: !IsRollupKey(k, s, minute) ==>
      (k in before <==> k in after) && (k in before ==> after[k] == before[k])
  }

  lemma NothingDiffers(rows: Rows, s: Symbol, minute: int)
    ensures OnlyRollupsDiffer(rows, rows, s, minute)
  {
  }

  lemma OnlyRollupsDifferStep(start: Rows, rows: Rows, s: Symbol, minute: int, j: nat, candle: Candle)
    requires j < |ROLLUPS| && OnlyRollupsDiffer(start, rows, s, minute)
    ensures ROLLUPS[j] > 1
    ensures OnlyRollupsDiffer(start, rows[CandleKey(s, ROLLUPS[j], FloorToBucket(minute, ROLLUPS[j])) := candle], s, minute)
  {
    RollupWidths();
    hide FloorToBucket;
  }

  lemma OtherSymbolsStay(before: Rows, after: Rows, s: Symbol, minute: int, other: Symbol)
    requires other != s && OnlyRollupsDiffer(before, after, s, minute)
    ensures SameRowsOf(before, after, other)
  {
    hide FloorToBucket;
  }

  /** Writing one width leaves the query results and the other widths' roll-ups as they were. */
  lemma RollupWrittenStep(rows: Rows, s: Symbol, minute: int, width: nat, candle: Candle, found: seq<Minute>)
    requires width > 1
    requires var lo := FloorToBucket(minute, width);
      IsQueryResult(rows, s, lo, lo + Width(width), found) && (found != [] ==> candle == Rollup(found))
    ensures var updated := rows[CandleKey(s, width, FloorToBucket(minute, width)) := candle];
      && (found != [] ==> RollupWritten(updated, s, minute, width))
      && forall w: nat :: w >= 1 && w != width && RollupWritten(rows, s, minute, w) ==> RollupWritten(updated, s, minute, w)
  {
    hide FloorToBucket, Rollup, Width;
    var lo := FloorToBucket(minute, width);
    var updated := rows[CandleKey(s, width, lo) := candle];
    var hi := lo + Width(width);
    forall other: seq<Minute> | IsQueryResult(updated, s, lo, hi, other) ensures other == found {
      AscendingIsUnique(other, found);
    }
    forall w: nat | w >= 1 && w != width && RollupWritten(rows, s, minute, w) ensures RollupWritten(updated, s, minute, w) {
      var l := FloorToBucket(minute, w);
      forall other: seq<Minute> | other != [] && IsQueryResult(updated, s, l, l + Width(w), other)
        ensures Stores(updated, CandleKey(s, w, l), Rollup(other))
      {
      }
    }
  }

  /** The entries hold, for each quote in turn, the bar it leaves behind. */
  ghost predicate Prepared(history: History, quotes: seq<Quote>, entries: seq<Entry>) {
    && |entries| == |quotes|
    && forall j :: 0 <= j < |quotes| ==>
      entries[j] == MinuteEntry(Seen(Grown(history, quotes[..j]), quotes[j].symbol), quotes[j])
  }

  lemma PrepareNext(history: History, quotes: seq<Quote>, entries: seq<Entry>, q: Quote)
    requires Prepared(history, quotes, entries)
    ensures Prepared(history, quotes + [q], entries + [MinuteEntry(Seen(Grown(history, quotes), q.symbol), q)])
    ensures Grown(history, quotes + [q])
      == Grown(history, quotes)[q.symbol := Seen(Grown(history, quotes), q.symbol) + [q.tick]]
  {
    hide MinuteEntry;
    var more := quotes + [q];
    assert more[..|quotes|] == quotes;
    forall j | 0 <= j < |quotes| ensures more[..j] == quotes[..j] {
    }
  }

  lemma AcceptNext(ticks: seq<RawTick>, i: nat)
    requires i < |ticks|
    ensures var t := ticks[i];
      Accepted(ticks[..i + 1]) == Accepted(ticks[..i])
      + if t.symbol.None? || t.price.None? || t.ts.None? then []
        else [Quote(t.symbol.value, Tick(t.ts.value, t.price.value, t.volume))]
  {
    assert ticks[..i + 1][..i] == ticks[..i];
  }

  lemma PreparedKeys(history: History, quotes: seq<Quote>, entries: seq<Entry>)
    requires Prepared(history, quotes, entries)
    ensures |entries| == |quotes| && forall j :: 0 <= j < |quotes| ==> entries[j].key == MinuteKey(quotes[j])
    ensures KeysDistinct(entries) <==> MinutesDistinct(quotes)
  {
    hide FloorToBucket, LiveBar, BarVolume;
  }

  /** Writing the minute rows of the first j quotes leaves exactly their roll-ups pending. */
  lemma {:induction false} WrittenAwaits(start: Rows, history: History, quotes: seq<Quote>, entries: seq<Entry>, s: Symbol, j: nat)
    requires Prepared(history, quotes, entries) && j <= |quotes| && Settled(start, s, Seen(history, s))
    ensures Awaiting(Upserted(start, entries[..j]), s, Seen(Grown(history, quotes[..j]), s), MinutesFrom(quotes[..j], s, 0))
  {
    hide Awaiting, FloorToBucket, MinuteEntry, Grown, Upserted, MinutesFrom;
    NothingWritten(start, history, quotes, entries, s);
    if j > 0 {
      WrittenAwaits(start, history, quotes, entries, s, j - 1);
      WriteStep(start, history, quotes, entries, j);
      MinutesFromSnoc(quotes, s, j);
      var q, entry := quotes[j - 1], entries[j - 1];
      var rows, ticks := Upserted(start, entries[..j - 1]), Seen(Grown(history, quotes[..j - 1]), s);
      var pending := MinutesFrom(quotes[..j - 1], s, 0);
      EntryOfSymbol(Seen(Grown(history, quotes[..j - 1]), q.symbol), q);
      if q.symbol == s {
        assert q == Quote(s, q.tick);
        MinuteUpsert(rows, s, ticks, q.tick, pending);
      } else {
        OtherSymbolsAwait(rows, rows[entry.key := entry.candle], s, ticks, pending);
      }
    }
  }

  lemma NothingWritten(start: Rows, history: History, quotes: seq<Quote>, entries: seq<Entry>, s: Symbol)
    ensures Upserted(start, entries[..0]) == start && Grown(history, quotes[..0]) == history
    ensures MinutesFrom(quotes[..0], s, 0) == {}
    ensures Awaiting(start, s, Seen(history, s), {}) == Settled(start, s, Seen(history, s))
  {
    hide Awaiting;
  }

  lemma WriteStep(start: Rows, history: History, quotes: seq<Quote>, entries: seq<Entry>, j: nat)
    requires 0 < j <= |quotes| == |entries|
    ensures Upserted(start, entries[..j]) == Upserted(start, entries[..j - 1])[entries[j - 1].key := entries[j - 1].candle]
    ensures var q := quotes[j - 1]; var front := Grown(history, quotes[..j - 1]);
      Grown(history, quotes[..j]) == front[q.symbol := Seen(front, q.symbol) + [q.tick]]
  {
    assert quotes[..j][..j - 1] == quotes[..j - 1] && entries[..j][..j - 1] == entries[..j - 1];
  }

  lemma EntryOfSymbol(before: seq<Tick>, q: Quote)
    ensures MinuteEntry(before, q).key == MinuteKey(q) && MinuteKey(q).symbol == q.symbol
  {
    hide FloorToBucket, LiveBar, BarVolume;
  }

  lemma MinutesFromSnoc(quotes: seq<Quote>, s: Symbol, j: nat)
    requires 0 < j <= |quotes|
    ensures var front := MinutesFrom(quotes[..j - 1], s, 0);
      MinutesFrom(quotes[..j], s, 0)
      == if quotes[j - 1].symbol == s then front + {FloorToBucket(quotes[j - 1].tick.ts, 1)} else front
  {
    hide FloorToBucket;
    var front, all := quotes[..j - 1], quotes[..j];
    forall m | m in MinutesFrom(all, s, 0)
      ensures m in MinutesFrom(front, s, 0) || (all[j - 1].symbol == s && m == FloorToBucket(all[j - 1].tick.ts, 1))
    {
      var i :| 0 <= i < |all| && all[i].symbol == s && FloorToBucket(all[i].tick.ts, 1) == m;
      assert i < j - 1 ==> front[i] == all[i];
    }
    forall m | m in MinutesFrom(front, s, 0) ensures m in MinutesFrom(all, s, 0) {
      var i :| 0 <= i < |front| && front[i].symbol == s && FloorToBucket(front[i].tick.ts, 1) == m;
      assert all[i] == front[i];
    }
    assert all[j - 1].symbol == s ==> FloorToBucket(all[j - 1].tick.ts, 1) in MinutesFrom(all, s, 0);
  }

  /** Every symbol settled before the batch waits for the roll-ups from the j-th quote on, and for nothing else. */
  ghost predicate BatchAwaits(start: Rows, history: History, rows: Rows, quotes: seq<Quote>, j: nat) {
    forall s: Symbol :: Settled(start, s, Seen(history, s)) ==>
      Awaiting(rows, s, Seen(Grown(history, quotes), s), MinutesFrom(quotes, s, j))
  }

  lemma BatchWritten(start: Rows, history: History, quotes: seq<Quote>, entries: seq<Entry>)
    requires Prepared(history, quotes, entries)
    ensures BatchAwaits(start, history, Upserted(start, entries), quotes, 0)
  {
    hide Settled, Awaiting, MinuteEntry, Upserted, Grown;
    assert entries[..|quotes|] == entries && quotes[..|quotes|] == quotes;
    forall s: Symbol | Settled(start, s, Seen(history, s))
      ensures Awaiting(Upserted(start, entries), s, Seen(Grown(history, quotes), s), MinutesFrom(quotes, s, 0))
    {
      WrittenAwaits(start, history, quotes, entries, s, |quotes|);
    }
  }

  /** The roll-ups around one quote's minute. */
  lemma BatchRolled(start: Rows, history: History, before: Rows, after: Rows, quotes: seq<Quote>, j: nat)
    requires j < |quotes| && BatchAwaits(start, history, before, quotes, j)
    requires var q := quotes[j]; var minute := FloorToBucket(q.tick.ts, 1);
      && OnlyRollupsDiffer(before, after, q.symbol, minute)
      && RollsUp(before, after, q.symbol, Seen(Grown(history, quotes), q.symbol), MinutesFrom(quotes, q.symbol, j), minute)
    ensures BatchAwaits(start, history, after, quotes, j + 1)
  {
    hide Settled, Awaiting, OnlyRollupsDiffer, FloorToBucket, Grown;
    var q := quotes[j];
    var minute := FloorToBucket(q.tick.ts, 1);
    forall s: Symbol | Settled(start, s, Seen(history, s))
      ensures Awaiting(after, s, Seen(Grown(history, quotes), s), MinutesFrom(quotes, s, j + 1))
    {
      var ticks := Seen(Grown(history, quotes), s);
      if s == q.symbol {
        AwaitingMore(after, s, ticks, MinutesFrom(quotes, s, j) - {minute}, MinutesFrom(quotes, s, j + 1));
      } else {
        OtherSymbolsStay(before, after, q.symbol, minute, s);
        OtherSymbolsAwait(before, after, s, ticks, MinutesFrom(quotes, s, j));
        AwaitingMore(after, s, ticks, MinutesFrom(quotes, s, j), MinutesFrom(quotes, s, j + 1));
      }
    }
  }

  /** Rolling up around a minute ends the wait for it. */
  ghost predicate RollsUp(before: Rows, after: Rows, s: Symbol, ticks: seq<Tick>, pending: set<int>, minute: int) {
    Awaiting(before, s, ticks, pending) ==> Awaiting(after, s, ticks, pending - {minute})
  }

  lemma BatchDone(start: Rows, history: History, rows: Rows, quotes: seq<Quote>, s: Symbol)
    requires BatchAwaits(start, history, rows, quotes, |quotes|) && Settled(start, s, Seen(history, s))
    ensures Settled(rows, s, Seen(Grown(history, quotes), s))
  {
    hide Awaiting, Grown;
    assert MinutesFrom(quotes, s, |quotes|) == {};
    assert Settled(rows, s, Seen(Grown(history, quotes), s)) == Awaiting(rows, s, Seen(Grown(history, quotes), s), {});
  }

  /**
    When the database refuses a batch the rows stay while the ticks seen have grown; a settled symbol then stays
    settled exactly if its new ticks leave all its minute candles as they were.
   */
  lemma RefusedStaysSettledIff(rows: Rows, s: Symbol, before: seq<Tick>, after: seq<Tick>)
    requires Orderly(after) && before <= after && Settled(rows, s, before)
    ensures Settled(rows, s, after) <==> Minutes(after) == Minutes(before)
  {
    assert Orderly(before);
    MinutesAscend(before);
    MinutesAscend(after);
    hide Minutes, RollupsStored, Orderly;
    if Settled(rows, s, after) {
      forall m ensures m in Minutes(after) <==> m in Minutes(before) {
        StoredIsMember(rows, s, Minutes(after), m);
        StoredIsMember(rows, s, Minutes(before), m);
      }
      AscendingIsUnique(Minutes(after), Minutes(before));
    }
  }

  /** Two ticks of one symbol at one instant: the batch is refused, and an empty table no longer reflects them. */
  lemma RepeatedMinuteIsLost(s: Symbol, t: Tick)
    ensures var quotes := [Quote(s, t), Quote(s, t)];
      !MinutesDistinct(quotes) && Settled(map[], s, []) && !Settled(map[], s, Seen(Grown(map[], quotes), s))
  {
    hide Minutes, LiveBar, FloorToBucket, RollupsStored, Awaiting, Settled, Grown;
    var quotes := [Quote(s, t), Quote(s, t)];
    assert MinuteKey(quotes[0]) == MinuteKey(quotes[1]);
    SeenTwice(s, t);
    NothingSettled(s);
    NoMinutes();
    LiveBarIsLastMinute([t, t]);
    RefusedStaysSettledIff(map[], s, [], [t, t]);
  }

  lemma SeenTwice(s: Symbol, t: Tick)
    ensures Seen(Grown(map[], [Quote(s, t), Quote(s, t)]), s) == [t, t]
  {
    var none: History, q := map[], Quote(s, t);
    assert [q, q][..1] == [q] && [q][..0] == [];
    assert Grown(none, [q][..0]) == none;
    assert Grown(none, [q]) == none[s := Seen(none, s) + [t]];
    assert Grown(none, [q, q]) == Grown(none, [q])[s := Seen(Grown(none, [q]), s) + [t]];
  }

  lemma NoMinutes()
    ensures Minutes([]) == []
  {
  }

  lemma NothingSettled(s: Symbol)
    ensures Settled(map[], s, [])
  {
  }

  /** Symbols without a quote keep their rows. */
  ghost predicate OthersKept(before: Rows, after: Rows, quotes: seq<Quote>) {
    forall s: Symbol :: (forall i :: 0 <= i < |quotes| ==> quotes[i].symbol != s) ==> SameRowsOf(before, after, s)
  }

  lemma {:induction false} UpsertKeepsOthers(rows: Rows, quotes: seq<Quote>, entries: seq<Entry>, j: nat)
    requires j <= |quotes| == |entries| && forall i :: 0 <= i < |quotes| ==> entries[i].key.symbol == quotes[i].symbol
    ensures OthersKept(rows, Upserted(rows, entries[..j]), quotes)
  {
    if j > 0 {
      assert entries[..j][..j - 1] == entries[..j - 1];
      UpsertKeepsOthers(rows, quotes, entries, j - 1);
      var front := Upserted(rows, entries[..j - 1]);
      assert Upserted(rows, entries[..j]) == front[entries[j - 1].key := entries[j - 1].candle];
      forall s: Symbol | forall i :: 0 <= i < |quotes| ==> quotes[i].symbol != s
        ensures SameRowsOf(rows, Upserted(rows, entries[..j]), s)
      {
        assert SameRowsOf(rows, front, s);
        assert entries[j - 1].key.symbol == quotes[j - 1].symbol;
      }
    }
  }

  lemma RollupKeepsOthers(start: Rows, before: Rows, after: Rows, quotes: seq<Quote>, j: nat, minute: int)
    requires j < |quotes| && OthersKept(start, before, quotes) && OnlyRollupsDiffer(before, after, quotes[j].symbol, minute)
    ensures OthersKept(start, after, quotes)
  {
    hide OnlyRollupsDiffer;
    forall s: Symbol | forall i :: 0 <= i < |quotes| ==> quotes[i].symbol != s ensures SameRowsOf(start, after, s) {
      assert quotes[j].symbol != s;
      OtherSymbolsStay(before, after, quotes[j].symbol, minute, s);
      assert SameRowsOf(start, before, s);
    }
  }

  lemma LiveStep(before: seq<Tick>, t: Tick)
    ensures LiveBar(before + [t]) == Some(NextBar(LiveBar(before), LastCum(before), t))
    ensures LastCum(before + [t]) == NextCum(LastCum(before), t)
  {
    assert (before + [t])[..|before|] == before;
  }

  lemma NothingToRollUp(rows: Rows, s: Symbol, minute: int, width: nat)
    requires width >= 1
    requires var lo := FloorToBucket(minute, width); IsQueryResult(rows, s, lo, lo + Width(width), [])
    ensures RollupWritten(rows, s, minute, width)
  {
    hide FloorToBucket, Width, Rollup;
    var lo := FloorToBucket(minute, width);
    var hi := lo + Width(width);
    forall other: seq<Minute> | IsQueryResult(rows, s, lo, hi, other) ensures other == [] {
      AscendingIsUnique(other, []);
    }
  }

  lemma RollingStarts(rows: Rows, s: Symbol, ticks: seq<Tick>, pending: set<int>, minute: int)
    requires Awaiting(rows, s, ticks, pending)
    ensures Rolling(rows, s, ticks, pending, minute, 0)
  {
    hide Minutes, Orderly, MinutesStored, RollupsStored;
  }

  lemma RollingEnds(rows: Rows, s: Symbol, ticks: seq<Tick>, pending: set<int>, minute: int)
    requires Rolling(rows, s, ticks, pending, minute, |ROLLUPS|)
    ensures Awaiting(rows, s, ticks, pending - {minute})
  {
    hide Minutes, Orderly, MinutesStored, RollupsStored;
  }

  function Lookup<V>(m: map<Symbol, V>, s: Symbol): Option<V> {
    if s in m then Some(m[s]) else None
  }

  /** Every symbol's bar and volume are what its ticks make them. */
  ghost predicate InStep(bars: map<Symbol, Bar>, volumes: map<Symbol, int>, history: History) {
    forall s :: Lookup(bars, s) == LiveBar(Seen(history, s)) && Lookup(volumes, s) == LastCum(Seen(history, s))
  }

  lemma InStepAt(bars: map<Symbol, Bar>, volumes: map<Symbol, int>, history: History, s: Symbol)
    requires InStep(bars, volumes, history)
    ensures Lookup(bars, s) == LiveBar(Seen(history, s)) && Lookup(volumes, s) == LastCum(Seen(history, s))
  {
  }

  lemma InStepGrows(bars: map<Symbol, Bar>, volumes: map<Symbol, int>, history: History, s: Symbol, t: Tick,
                    bars': map<Symbol, Bar>, volumes': map<Symbol, int>)
    requires InStep(bars, volumes, history)
    requires forall r :: r != s ==> Lookup(bars', r) == Lookup(bars, r) && Lookup(volumes', r) == Lookup(volumes, r)
    requires Lookup(bars', s) == LiveBar(Seen(history, s) + [t]) && Lookup(volumes', s) == LastCum(Seen(history, s) + [t])
    ensures InStep(bars', volumes', history[s := Seen(history, s) + [t]])
  {
    hide LiveBar, LastCum, Lookup;
    var grown := history[s := Seen(history, s) + [t]];
    forall r ensures Lookup(bars', r) == LiveBar(Seen(grown, r)) && Lookup(volumes', r) == LastCum(Seen(grown, r)) {
      if r != s {
        assert Seen(grown, r) == Seen(history, r);
      }
    }
  }

  class TickCandleAggregator {
    const table: CandleTable
    var bars: map<Symbol, Bar>
    var lastCumVolume: map<Symbol, int>
    /** Every tick applied to a symbol's bar, in order. */
    ghost var history: History

    constructor (table: CandleTable)
      ensures this.table == table && Remembers() && history == map[]
    {
      this.table := table;
      bars, lastCumVolume, history := map[], map[], map[];
    }

    /** The state in memory is what the ticks seen make it. */
    ghost predicate Remembers()
      reads this
    {
      InStep(bars, lastCumVolume, history)
    }

    method UpdateBar(q: Quote) returns (entry: Entry)
      requires Remembers()
      modifies this
      ensures Remembers() && history == old(history)[q.symbol := Seen(old(history), q.symbol) + [q.tick]]
      ensures entry == MinuteEntry(Seen(old(history), q.symbol), q)
    {
      ghost var before := Seen(history, q.symbol);
      LiveStep(before, q.tick);
      LiveBarBucket(before + [q.tick]);
      hide FloorToBucket, Extend, LiveBar, LastCum, BarVolume, Single, InStep;
      InStepAt(bars, lastCumVolume, history, q.symbol);
      ghost var bars0, volumes0 := bars, lastCumVolume;
      var t := q.tick;
      var bucket := FloorToBucket(t.ts, 1);
      var own := if t.volume.Some? then t.volume.value else 0;
      var baseline := if q.symbol in lastCumVolume then lastCumVolume[q.symbol] else own;
      var bar: Bar;
      if q.symbol !in bars || bars[q.symbol].bucket != bucket {
        bar := Bar(bucket, Single(t.price), baseline);
      } else {
        bar := bars[q.symbol];
        bar := bar.(ohlc := Extend(bar.ohlc, t.price));
      }
      bars := bars[q.symbol := bar];
      if t.volume.Some? {
        lastCumVolume := lastCumVolume[q.symbol := t.volume.value];
      }
      history := history[q.symbol := before + [t]];
      entry := Entry(CandleKey(q.symbol, 1, bar.bucket), Candle(bar.ohlc, BarVolume(t.volume, bar.baseline)));
      InStepGrows(bars0, volumes0, old(history), q.symbol, t, bars, lastCumVolume);
    }

    /** Re-derives every wider candle around one minute of a symbol from the stored minute candles. */
    method UpsertRollups(s: Symbol, minute: int, ghost ticks: seq<Tick>, ghost pending: set<int>)
      modifies table
      ensures OnlyRollupsDiffer(old(table.rows), table.rows, s, minute)
      ensures forall j :: 0 <= j < |ROLLUPS| ==> ROLLUPS[j] >= 1 && RollupWritten(table.rows, s, minute, ROLLUPS[j])
      ensures RollsUp(old(table.rows), table.rows, s, ticks, pending, minute)
    {
      hide FloorToBucket, Width, Rollup, Rolling, Awaiting, OnlyRollupsDiffer, RollupWritten, IsQueryResult, Upserted;
      RollupWidths();
      NothingDiffers(table.rows, s, minute);
      ghost var start := table.rows;
      if Awaiting(start, s, ticks, pending) {
        RollingStarts(start, s, ticks, pending, minute);
      }
      var j := 0;
      while j < |ROLLUPS|
        invariant 0 <= j <= |ROLLUPS|
        invariant OnlyRollupsDiffer(start, table.rows, s, minute)
        invariant forall i :: 0 <= i < j ==> RollupWritten(table.rows, s, minute, ROLLUPS[i])
        invariant Awaiting(start, s, ticks, pending) ==> Rolling(table.rows, s, ticks, pending, minute, j)
      {
        ghost var rows := table.rows;
        var lo := FloorToBucket(minute, ROLLUPS[j]);
        var found := table.QueryMinutes(s, lo, lo + Width(ROLLUPS[j]));
        if Rolling(rows, s, ticks, pending, minute, j) {
          RollupUpsert(rows, s, ticks, pending, minute, j, found);
        }
        if found != [] {
          var candle := Rollup(found);
          var entry := Entry(CandleKey(s, ROLLUPS[j], lo), candle);
          var stored := table.UpsertMany([entry]);
          OneUpsert(rows, entry);
          OnlyRollupsDifferStep(start, rows, s, minute, j, candle);
          RollupWrittenStep(rows, s, minute, ROLLUPS[j], candle, found);
        } else {
          NothingToRollUp(rows, s, minute, ROLLUPS[j]);
        }
        j := j + 1;
      }
      if Rolling(table.rows, s, ticks, pending, minute, j) {
        RollingEnds(table.rows, s, ticks, pending, minute);
      }
    }

    /**
      Applies a batch of ticks. Ticks lacking a symbol, a price or a time are passed over. Two ticks of one
      minute of one symbol make the database refuse the batch, while the bars in memory have moved on.
     */
    method IngestBatch(ticks: seq<RawTick>) returns (stored: bool)
      requires Remembers()
      modifies this, table
      ensures Remembers() && history == Grown(old(history), Accepted(ticks))
      ensures TakesBatch(old(history), history, ticks)
      ensures stored <==> !RepeatsMinute(ticks)
      ensures !stored ==> table.rows == old(table.rows)
      ensures OthersKept(old(table.rows), table.rows, Accepted(ticks))
      ensures stored ==>
        forall s :: Settled(old(table.rows), s, Seen(old(history), s)) ==> Settled(table.rows, s, Seen(history, s))
    {
      hide FloorToBucket, MinuteEntry, Settled, BatchAwaits, OthersKept, OnlyRollupsDiffer, RollupWritten, Prepared,
        Accepted, Grown, Upserted, Remembers, TakesBatch, RepeatsMinute;
      var quotes: seq<Quote>, entries: seq<Entry> := [], [];
      Nothing(history);
      var i := 0;
      while i < |ticks|
        invariant 0 <= i <= |ticks| && table.rows == old(table.rows)
        invariant quotes == Accepted(ticks[..i])
        invariant Remembers() && history == Grown(old(history), quotes)
        invariant Prepared(old(history), quotes, entries)
      {
        AcceptNext(ticks, i);
        var t := ticks[i];
        if t.symbol.Some? && t.price.Some? && t.ts.Some? {
          var q := Quote(t.symbol.value, Tick(t.ts.value, t.price.value, t.volume));
          PrepareNext(old(history), quotes, entries, q);
          var entry := UpdateBar(q);
          quotes, entries := quotes + [q], entries + [entry];
        }
        i := i + 1;
      }
      assert ticks[..i] == ticks;
      WholeBatchIsTaken(old(history), ticks);
      CollidesIffMinuteRepeats(ticks);
      PreparedKeys(old(history), quotes, entries);
      stored := true;
      if quotes != [] {
        stored := table.UpsertMany(entries);
      } else {
        NothingUpserted(table.rows, entries);
      }
      assert entries[..|entries|] == entries;
      if stored {
        UpsertKeepsOthers(old(table.rows), quotes, entries, |quotes|);
        RollUp(quotes, entries, old(table.rows), old(history));
      } else {
        NothingKeepsOthers(table.rows, quotes);
      }
    }

    /** Rolls up around each minute just written. */
    method RollUp(quotes: seq<Quote>, entries: seq<Entry>, ghost start: Rows, ghost before: History)
      requires Prepared(before, quotes, entries) && table.rows == Upserted(start, entries)
      requires OthersKept(start, table.rows, quotes)
      modifies table
      ensures OthersKept(start, table.rows, quotes)
      ensures forall s :: Settled(start, s, Seen(before, s)) ==> Settled(table.rows, s, Seen(Grown(before, quotes), s))
    {
      hide FloorToBucket, MinuteEntry, Settled, BatchAwaits, OthersKept, OnlyRollupsDiffer, RollupWritten, RollsUp, Prepared, Grown,
        Upserted, MinutesFrom;
      PreparedKeys(before, quotes, entries);
      BatchWritten(start, before, quotes, entries);
      var j := 0;
      while j < |quotes|
        invariant 0 <= j <= |quotes| == |entries|
        invariant OthersKept(start, table.rows, quotes)
        invariant BatchAwaits(start, before, table.rows, quotes, j)
      {
        ghost var rows := table.rows;
        var s, minute := quotes[j].symbol, entries[j].key.ts;
        UpsertRollups(s, minute, Seen(Grown(before, quotes), s), MinutesFrom(quotes, s, j));
        RollupKeepsOthers(start, rows, table.rows, quotes, j, minute);
        BatchRolled(start, before, rows, table.rows, quotes, j);
        j := j + 1;
      }
      forall s: Symbol | Settled(start, s, Seen(before, s)) ensures Settled(table.rows, s, Seen(Grown(before, quotes), s)) {
        BatchDone(start, before, table.rows, quotes, s);
      }
    }
  }

  lemma Nothing(history: History)
    ensures Accepted([]) == [] && Grown(history, []) == history && Prepared(history, [], [])
  {
  }

  lemma NothingUpserted(rows: Rows, entries: seq<Entry>)
    ensures entries == [] ==> Upserted(rows, entries) == rows
  {
  }

  lemma NothingKeepsOthers(rows: Rows, quotes: seq<Quote>)
    ensures OthersKept(rows, rows, quotes)
  {
  }

  lemma OneUpsert(rows: Rows, entry: Entry)
    ensures Upserted(rows, [entry]) == rows[entry.key := entry.candle]
  {
    assert [entry][..0] == [];
  }
}
