/** Candle buckets anchored to the 09:15 session open, and when their grids agree from day to day. */
module SessionBuckets {

  /** Instants are microseconds of exchange wall-clock time, midnight of day 0 being 0. */
  const MINUTE: int := 60_000_000
  const MINUTES_A_DAY: nat := 1440
  const SESSION_OPEN: nat := 9 * 60 + 15

  /** The session open of the day an instant falls on. */
  function OpenOf(ts: int): int {
    (ts / (MINUTES_A_DAY * MINUTE)) * (MINUTES_A_DAY * MINUTE) + SESSION_OPEN * MINUTE
  }

  /** The start of the bucket of `minutes` width that holds ts. */
  function FloorToBucket(ts: int, minutes: nat): int
    requires minutes >= 1
  {
    var elapsed := (ts - OpenOf(ts)) / MINUTE;
    OpenOf(ts) + (elapsed / minutes) * minutes * MINUTE
  }

  // ----- integer division -----

  lemma QuotientIs(x: int, d: int, q: int)
    requires d > 0 && q * d <= x < q * d + d
    ensures x / d == q
  {
    var r := x - q * d;
    assert x == d * q + r;
    DivisionIsUnique(d, q, r, x / d, x % d);
  }

  lemma DivisionIsUnique(d: int, q: int, r: int, p: int, s: int)
    requires d > 0 && 0 <= r < d && 0 <= s < d && d * q + r == d * p + s
    ensures q == p
  {
    if p > q {
      ProductAtLeast(d, p - q);
    } else if q > p {
      ProductAtLeast(d, q - p);
    }
  }

  lemma ProductAtLeast(d: int, k: int)
    requires d > 0 && k >= 1
    ensures d * k >= d
  {
  }

  lemma QuotientOfQuotient(x: int, a: int, b: int)
    requires a > 0 && b > 0
    ensures a * b > 0 && (x / a) / b == x / (a * b)
  {
    var p, q := x / a, (x / a) / b;
    NestedBounds(x, a, b, p, q);
    QuotientIs(x, a * b, q);
  }

  lemma NestedBounds(x: int, a: int, b: int, p: int, q: int)
    requires a > 0 && b > 0 && p * a <= x < p * a + a && q * b <= p < q * b + b
    ensures a * b > 0 && q * (a * b) <= x < q * (a * b) + a * b
  {
    Reassociate(q, b, a);
    assert (q * b + b - 1) * a == q * b * a + b * a - a;
  }

  lemma Reassociate(q: int, b: int, a: int)
    ensures q * b * a == q * (a * b)
  {
  }

  // ----- one day's grid and the fixed grid -----

  function Width(minutes: nat): int {
    minutes * MINUTE
  }

  /** Multiples of the width, counted from the session open of day 0. */
  function Grid(ts: int, minutes: nat): int
    requires minutes >= 1
  {
    SESSION_OPEN * MINUTE + ((ts - SESSION_OPEN * MINUTE) / Width(minutes)) * Width(minutes)
  }

  /** Within a day, buckets are multiples of the width from that day's open. */
  lemma FloorIsMultiple(ts: int, minutes: nat)
    requires minutes >= 1
    ensures FloorToBucket(ts, minutes) == OpenOf(ts) + ((ts - OpenOf(ts)) / Width(minutes)) * Width(minutes)
    ensures FloorToBucket(ts, minutes) <= ts < FloorToBucket(ts, minutes) + Width(minutes)
  {
    var x := ts - OpenOf(ts);
    QuotientOfQuotient(x, MINUTE, minutes);
  }

  lemma ShiftedQuotient(x: int, d: int, k: int)
    requires d > 0
    ensures (x + k * d) / d == x / d + k
  {
    QuotientIs(x + k * d, d, x / d + k);
  }

  /** When the width divides the day, every day's grid is the same grid. */
  lemma FloorIsGrid(ts: int, minutes: nat)
    requires minutes >= 1 && MINUTES_A_DAY % minutes == 0
    ensures FloorToBucket(ts, minutes) == Grid(ts, minutes)
  {
    FloorIsMultiple(ts, minutes);
    var day := ts / (MINUTES_A_DAY * MINUTE);
    var k := day * (MINUTES_A_DAY / minutes);
    DayInWidths(day, minutes);
    var x := ts - OpenOf(ts);
    ShiftedQuotient(x, Width(minutes), k);
  }

  lemma DayInWidths(day: int, minutes: nat)
    requires minutes >= 1 && MINUTES_A_DAY % minutes == 0
    ensures day * (MINUTES_A_DAY * MINUTE) == day * (MINUTES_A_DAY / minutes) * Width(minutes)
  {
    var n := MINUTES_A_DAY / minutes;
    assert n * minutes == MINUTES_A_DAY;
    assert n * Width(minutes) == MINUTES_A_DAY * MINUTE;
    assert day * (n * Width(minutes)) == day * n * Width(minutes);
  }

  /** Every instant of a bucket has that bucket's start. */
  ghost predicate BucketsTile(minutes: nat)
    requires minutes >= 1
  {
    forall ts: int, u: int :: FloorToBucket(ts, minutes) <= u < FloorToBucket(ts, minutes) + Width(minutes) ==>
      FloorToBucket(u, minutes) == FloorToBucket(ts, minutes)
  }

  lemma GridTiles(ts: int, u: int, minutes: nat)
    requires minutes >= 1 && Grid(ts, minutes) <= u < Grid(ts, minutes) + Width(minutes)
    ensures Grid(u, minutes) == Grid(ts, minutes)
  {
    QuotientIs(u - SESSION_OPEN * MINUTE, Width(minutes), (ts - SESSION_OPEN * MINUTE) / Width(minutes));
  }

  /** Buckets tile the time line across midnight exactly when their width divides the day. */
  lemma TilesIffWidthDividesDay(minutes: nat)
    requires minutes >= 1
    ensures BucketsTile(minutes) <==> MINUTES_A_DAY % minutes == 0
  {
    if MINUTES_A_DAY % minutes == 0 {
      forall ts: int, u: int | FloorToBucket(ts, minutes) <= u < FloorToBucket(ts, minutes) + Width(minutes)
        ensures FloorToBucket(u, minutes) == FloorToBucket(ts, minutes)
      {
        FloorIsGrid(ts, minutes);
        FloorIsGrid(u, minutes);
        GridTiles(ts, u, minutes);
      }
    } else {
      MidnightSplits(minutes);
    }
  }

  /** n whole widths. */
  function Span(n: int, minutes: nat): int {
    n * Width(minutes)
  }

  /** The last bucket of day 0 and the first of day 1, in whole widths from the open of day 0 or 1. */
  lemma BucketsAtMidnight(minutes: nat) returns (p: int, q: int)
    requires minutes >= 1
    ensures var midnight := MINUTES_A_DAY * MINUTE; var width := Width(minutes);
      && FloorToBucket(midnight - 1, minutes) == SESSION_OPEN * MINUTE + Span(p, minutes)
      && FloorToBucket(midnight, minutes) == midnight + SESSION_OPEN * MINUTE + Span(q, minutes)
      && FloorToBucket(midnight - 1, minutes) < midnight <= FloorToBucket(midnight - 1, minutes) + width
      && FloorToBucket(midnight, minutes) <= midnight < FloorToBucket(midnight, minutes) + width
  {
    var midnight := MINUTES_A_DAY * MINUTE;
    FloorIsMultiple(midnight - 1, minutes);
    FloorIsMultiple(midnight, minutes);
    hide FloorToBucket, Width;
    assert OpenOf(midnight - 1) == SESSION_OPEN * MINUTE;
    assert OpenOf(midnight) == midnight + SESSION_OPEN * MINUTE;
    p := (midnight - 1 - SESSION_OPEN * MINUTE) / Width(minutes);
    q := (midnight - OpenOf(midnight)) / Width(minutes);
  }

  /** No two whole numbers of widths, nor a number and the next, are a day apart. */
  lemma NeverADayApart(p: int, q: int, minutes: nat)
    requires minutes >= 1 && MINUTES_A_DAY % minutes != 0
    ensures Span(p, minutes) != Span(q, minutes) + MINUTES_A_DAY * MINUTE
    ensures Span(p, minutes) + Width(minutes) != Span(q, minutes) + MINUTES_A_DAY * MINUTE
  {
    NoWholeWidths(p - q, minutes);
    NoWholeWidths(p + 1 - q, minutes);
    Factor(p, q, Width(minutes));
    Factor(p + 1, q, Width(minutes));
    Factor(p + 1, p, Width(minutes));
    hide Width;
  }

  lemma Factor(p: int, q: int, width: int)
    ensures p * width - q * width == (p - q) * width
  {
  }

  lemma NoWholeWidths(n: int, minutes: nat)
    requires minutes >= 1 && MINUTES_A_DAY % minutes != 0
    ensures n * Width(minutes) != MINUTES_A_DAY * MINUTE
  {
    if n * Width(minutes) == MINUTES_A_DAY * MINUTE {
      MultipleOfMinutes(n, minutes);
    }
  }

  /** Otherwise the last bucket of day 0 and the first of day 1 overlap at midnight. */
  lemma MidnightSplits(minutes: nat)
    requires minutes >= 1 && MINUTES_A_DAY % minutes != 0
    ensures !BucketsTile(minutes)
  {
    hide FloorToBucket, Width, BucketsTile, Span;
    var midnight := MINUTES_A_DAY * MINUTE;
    var p, q := BucketsAtMidnight(minutes);
    NeverADayApart(p, q, minutes);
    if FloorToBucket(midnight - 1, minutes) + Width(minutes) > midnight {
      Overlap(midnight - 1, midnight, minutes);
    } else {
      Overlap(midnight, midnight - 1, minutes);
    }
  }

  /** Two instants in one bucket's span with different buckets: the buckets do not tile. */
  lemma Overlap(ts: int, u: int, minutes: nat)
    requires minutes >= 1 && FloorToBucket(ts, minutes) <= u < FloorToBucket(ts, minutes) + Width(minutes)
    requires FloorToBucket(u, minutes) != FloorToBucket(ts, minutes)
    ensures !BucketsTile(minutes)
  {
  }

  lemma MultipleOfMinutes(n: int, minutes: nat)
    requires minutes >= 1 && n * Width(minutes) == MINUTES_A_DAY * MINUTE
    ensures MINUTES_A_DAY % minutes == 0
  {
    assert n * minutes * MINUTE == MINUTES_A_DAY * MINUTE;
    assert n * minutes == MINUTES_A_DAY;
    ShiftedQuotient(0, minutes, n);
  }

  // ----- what the candle layer needs -----

  predicate IsWidth(minutes: nat) {
    minutes >= 1 && MINUTES_A_DAY % minutes == 0
  }

  /** Minute buckets nest in every wider grid: an instant and its minute fall in the same wide bucket. */
  lemma BucketsNest(ts: int, minutes: nat)
    requires IsWidth(minutes)
    ensures FloorToBucket(FloorToBucket(ts, 1), minutes) == FloorToBucket(ts, minutes)
  {
    var m := FloorToBucket(ts, 1);
    FloorIsGrid(ts, 1);
    FloorIsGrid(ts, minutes);
    FloorIsGrid(m, minutes);
    var x := ts - SESSION_OPEN * MINUTE;
    QuotientOfQuotient(x, MINUTE, minutes);
    ShiftedQuotient(0, MINUTE, x / MINUTE);
    QuotientOfQuotient(x / MINUTE * MINUTE, MINUTE, minutes);
  }

  /** A wide bucket holds exactly the instants from its start to its end. */
  lemma BucketIsInterval(x: int, ts: int, minutes: nat)
    requires IsWidth(minutes)
    ensures var b := FloorToBucket(x, minutes);
      FloorToBucket(ts, minutes) == b <==> b <= ts < b + Width(minutes)
  {
    FloorIsMultiple(ts, minutes);
    FloorIsGrid(x, minutes);
    FloorIsGrid(ts, minutes);
    if Grid(x, minutes) <= ts < Grid(x, minutes) + Width(minutes) {
      GridTiles(x, ts, minutes);
    }
  }

  /** Later instants have later buckets. */
  lemma BucketsAscend(a: int, b: int, minutes: nat)
    requires IsWidth(minutes) && a <= b
    ensures FloorToBucket(a, minutes) <= FloorToBucket(b, minutes)
  {
    FloorIsMultiple(a, minutes);
    FloorIsMultiple(b, minutes);
    if FloorToBucket(b, minutes) < FloorToBucket(a, minutes) {
      BucketIsInterval(b, a, minutes);
    }
  }
}
