/**
  The feature store: an offline table keyed by feature, version, symbol, timeframe and time, and an
  online entry per symbol and timeframe that incremental runs merge into and that may expire.
 */
module FeatureStores {
  import opened Wrappers
  import opened Graphs

  datatype Slot = Slot(symbol: string, timeframe: string)

  datatype RowKey = RowKey(feature: Name, version: string, slot: Slot, ts: int)

  datatype FeatureValue = FeatureValue(feature: Name, version: string, slot: Slot, ts: int, value: real)

  datatype OnlineEntry = OnlineEntry(value: real, version: string, ts: int)

  type Offline = map<RowKey, real>
  type Payload = map<Name, OnlineEntry>
  type Online = map<Slot, Payload>

  datatype Store = Store(offline: Offline, online: Online)

  const UPSERT_CHUNK: nat := 500

  function KeyOf(v: FeatureValue): RowKey {
    RowKey(v.feature, v.version, v.slot, v.ts)
  }

  function EntryOf(v: FeatureValue): OnlineEntry {
    OnlineEntry(v.value, v.version, v.ts)
  }

  // ----- offline: chunked upserts -----

  /** Each value in turn overwrites the row of its key. */
  function Upserted(offline: Offline, values: seq<FeatureValue>): Offline {
    if values == [] then offline
    else
      var n := |values| - 1;
      Upserted(offline, values[..n])[KeyOf(values[n]) := values[n].value]
  }

  lemma {:induction false} UpsertInParts(offline: Offline, a: seq<FeatureValue>, b: seq<FeatureValue>)
    ensures Upserted(offline, a + b) == Upserted(Upserted(offline, a), b)
  {
    if b == [] {
      assert a + b == a;
    } else {
      var n := |b| - 1;
      UpsertInParts(offline, a, b[..n]);
      assert (a + b)[..|a + b| - 1] == a + b[..n];
    }
  }

  /** No key occurs twice, as one upsert statement demands of its rows. */
  predicate DistinctKeys(values: seq<FeatureValue>) {
    forall i, j :: 0 <= i < j < |values| ==> KeyOf(values[i]) != KeyOf(values[j])
  }

  /** No key occurs twice within a chunk of the upsert; it may in two different chunks. */
  ghost predicate ChunksDistinct(values: seq<FeatureValue>) {
    forall i, j :: 0 <= i < j < |values| && i / UPSERT_CHUNK == j / UPSERT_CHUNK ==> KeyOf(values[i]) != KeyOf(values[j])
  }

  lemma NoChunks(offline: Offline)
    ensures (forall values :: IsBoundary(values, 0)) && ChunksDistinct([]) && Upserted(offline, []) == offline
  {
  }

  lemma SameChunk(i: nat, start: nat)
    requires start % UPSERT_CHUNK == 0
    ensures start <= i < start + UPSERT_CHUNK <==> i / UPSERT_CHUNK == start / UPSERT_CHUNK
  {
  }

  /** Where a chunk may begin, or the end of the values. */
  ghost predicate IsBoundary(values: seq<FeatureValue>, start: nat) {
    start % UPSERT_CHUNK == 0 || start == |values|
  }

  function ChunkEnd(values: seq<FeatureValue>, start: nat): (stop: nat)
    requires start < |values|
    ensures start < stop <= |values|
  {
    if start + UPSERT_CHUNK < |values| then start + UPSERT_CHUNK else |values|
  }

  lemma UpsertChunk(offline: Offline, values: seq<FeatureValue>, start: nat, stop: nat)
    requires start <= stop <= |values|
    ensures Upserted(Upserted(offline, values[..start]), values[start..stop]) == Upserted(offline, values[..stop])
  {
    hide Upserted;
    UpsertInParts(offline, values[..start], values[start..stop]);
    assert values[..start] + values[start..stop] == values[..stop];
  }

  lemma NextChunk(values: seq<FeatureValue>, start: nat, stop: nat)
    requires start < |values| && IsBoundary(values, start) && stop == ChunkEnd(values, start)
    ensures IsBoundary(values, stop)
    ensures ChunksDistinct(values[..stop]) <==> ChunksDistinct(values[..start]) && DistinctKeys(values[start..stop])
    ensures ChunksDistinct(values) ==> ChunksDistinct(values[..stop])
  {
    var early, chunk, both := values[..start], values[start..stop], values[..stop];
    if ChunksDistinct(early) && DistinctKeys(chunk) {
      forall i, j | 0 <= i < j < stop && i / UPSERT_CHUNK == j / UPSERT_CHUNK ensures KeyOf(both[i]) != KeyOf(both[j]) {
        SameChunk(i, start);
        SameChunk(j, start);
        if start <= i {
          assert KeyOf(chunk[i - start]) != KeyOf(chunk[j - start]);
        } else {
          assert KeyOf(early[i]) != KeyOf(early[j]);
        }
      }
    }
    if ChunksDistinct(both) {
      forall i, j | 0 <= i < j < |chunk| ensures KeyOf(chunk[i]) != KeyOf(chunk[j]) {
        SameChunk(start + i, start);
        SameChunk(start + j, start);
        assert KeyOf(both[start + i]) != KeyOf(both[start + j]);
      }
      assert forall i :: 0 <= i < start ==> early[i] == both[i];
    }
  }

  /** A row holds the value written for its key, or what it held before. */
  lemma {:induction false} UpsertedRow(offline: Offline, values: seq<FeatureValue>, k: RowKey)
    requires DistinctKeys(values)
    ensures k in Upserted(offline, values) <==> k in offline || exists i :: 0 <= i < |values| && KeyOf(values[i]) == k
    ensures forall i :: 0 <= i < |values| && KeyOf(values[i]) == k ==> Upserted(offline, values)[k] == values[i].value
    ensures (forall i :: 0 <= i < |values| ==> KeyOf(values[i]) != k) && k in offline ==>
      Upserted(offline, values)[k] == offline[k]
  {
    if values != [] {
      var n := |values| - 1;
      UpsertedRow(offline, values[..n], k);
      assert forall i :: 0 <= i < n ==> values[..n][i] == values[i];
      if exists i :: 0 <= i < n && KeyOf(values[..n][i]) == k {
        var i :| 0 <= i < n && KeyOf(values[..n][i]) == k;
        assert KeyOf(values[i]) == k;
      }
    }
  }

  // ----- online: the newest value of each feature is merged in -----

  /** The value a batch publishes for a feature: the greatest time stamp, the later of equals. */
  function Newest(values: seq<FeatureValue>, slot: Slot, feature: Name): Option<FeatureValue> {
    if values == [] then None
    else
      var n := |values| - 1;
      var best := Newest(values[..n], slot, feature);
      if values[n].slot == slot && values[n].feature == feature && (best.None? || values[n].ts >= best.value.ts)
      then Some(values[n]) else best
  }

  lemma {:induction false} NewestIsGreatest(values: seq<FeatureValue>, slot: Slot, feature: Name)
    ensures var best := Newest(values, slot, feature);
      && (best.Some? ==> best.value in values && best.value.slot == slot && best.value.feature == feature)
      && forall v :: v in values && v.slot == slot && v.feature == feature ==> best.Some? && v.ts <= best.value.ts
  {
    if values != [] {
      var n := |values| - 1;
      NewestIsGreatest(values[..n], slot, feature);
      assert values == values[..n] + [values[n]];
    }
  }

  function SlotsIn(values: seq<FeatureValue>): set<Slot> {
    set v | v in values :: v.slot
  }

  function FeaturesIn(values: seq<FeatureValue>, slot: Slot): set<Name> {
    set v | v in values && v.slot == slot :: v.feature
  }

  function Published(values: seq<FeatureValue>, slot: Slot): Payload {
    map f | f in FeaturesIn(values, slot) && Newest(values, slot, f).Some? :: EntryOf(Newest(values, slot, f).value)
  }

  /** Every slot of the batch keeps what it had, overwritten feature by feature. */
  function Merged(online: Online, values: seq<FeatureValue>): Online {
    map s | s in online.Keys + SlotsIn(values) :: Combined(online, values, s)
  }

  function Combined(online: Online, values: seq<FeatureValue>, s: Slot): Payload {
    (if s in online then online[s] else map[]) + Published(values, s)
  }

  /** The slots of the batch outside todo have been merged. */
  ghost predicate IsPartlyMerged(before: Online, values: seq<FeatureValue>, online: Online, todo: set<Slot>) {
    && todo <= SlotsIn(values)
    && online.Keys == before.Keys + (SlotsIn(values) - todo)
    && forall s :: s in online ==>
      online[s] == if s in SlotsIn(values) && s !in todo then Combined(before, values, s) else before[s]
  }

  lemma NothingMerged(before: Online, values: seq<FeatureValue>)
    ensures IsPartlyMerged(before, values, before, SlotsIn(values))
  {
  }

  lemma MergeSlot(before: Online, values: seq<FeatureValue>, online: Online, todo: set<Slot>, slot: Slot)
    requires IsPartlyMerged(before, values, online, todo) && slot in todo
    ensures slot in online <==> slot in before
    ensures slot in online ==> online[slot] == before[slot]
    ensures IsPartlyMerged(before, values, online[slot := Combined(before, values, slot)], todo - {slot})
  {
    hide Combined;
  }

  lemma AllMerged(before: Online, values: seq<FeatureValue>, online: Online)
    requires IsPartlyMerged(before, values, online, {})
    ensures online == Merged(before, values)
  {
    hide Combined, SlotsIn;
    forall s | s in online && s !in SlotsIn(values) ensures Combined(before, values, s) == before[s] {
      NothingCombined(before, values, s);
    }
  }

  lemma NothingCombined(before: Online, values: seq<FeatureValue>, s: Slot)
    requires s !in SlotsIn(values) && s in before
    ensures Combined(before, values, s) == before[s]
  {
    assert FeaturesIn(values, s) == {};
  }

  function Written(store: Store, values: seq<FeatureValue>): Store {
    Store(Upserted(store.offline, values), Merged(store.online, values))
  }

  // ----- an incremental run -----

  type Series = seq<Option<real>>

  /** One engine's output for one slot: aligned series, and the version each feature is registered with. */
  datatype Batch = Batch(slot: Slot, timestamps: seq<int>, names: seq<Name>, series: map<Name, Series>, versions: map<Name, string>)

  predicate IsBatch(b: Batch) {
    && Distinct(b.names)
    && (forall i, j :: 0 <= i < j < |b.timestamps| ==> b.timestamps[i] < b.timestamps[j])
    && (forall n :: n in b.names ==> n in b.series && |b.series[n]| == |b.timestamps|)
  }

  function VersionOf(b: Batch, name: Name): string {
    if name in b.versions then b.versions[name] else "v1"
  }

  function ValueAt(b: Batch, name: Name, k: nat, value: real): FeatureValue
    requires k < |b.timestamps|
  {
    FeatureValue(name, VersionOf(b, name), b.slot, b.timestamps[k], value)
  }

  /** Present, and past the feature's watermark if it has one. */
  predicate IsNew(b: Batch, since: map<Name, int>, name: Name, k: nat)
    requires IsBatch(b) && name in b.names && k < |b.timestamps|
  {
    b.series[name][k].Some? && (name in since ==> b.timestamps[k] > since[name])
  }

  /** v reports a new point of the batch. */
  ghost predicate Reports(b: Batch, since: map<Name, int>, v: FeatureValue)
    requires IsBatch(b)
  {
    exists name: Name, k: nat :: name in b.names && ReportsAt(b, since, name, k, v)
  }

  predicate ReportsAt(b: Batch, since: map<Name, int>, name: Name, k: nat, v: FeatureValue)
    requires IsBatch(b) && name in b.names
  {
    k < |b.timestamps| && IsNew(b, since, name, k) && v == ValueAt(b, name, k, b.series[name][k].value)
  }

  /** The new points of one feature, in time order. */
  method BuildFeature(b: Batch, since: map<Name, int>, name: Name) returns (values: seq<FeatureValue>)
    requires IsBatch(b) && name in b.names
    ensures forall v :: v in values <==> exists k: nat :: ReportsAt(b, since, name, k, v)
    ensures DistinctKeys(values)
  {
    values := [];
    for k := 0 to |b.timestamps|
      invariant forall v :: v in values <==> exists j: nat :: j < k && ReportsAt(b, since, name, j, v)
      invariant forall v :: v in values ==> v.feature == name
      invariant forall i :: 0 <= i < |values| ==> k < |b.timestamps| ==> values[i].ts < b.timestamps[k]
      invariant DistinctKeys(values)
    {
      var value := b.series[name][k];
      ghost var before := values;
      if value.Some? && !(name in since && b.timestamps[k] <= since[name]) {
        var v := ValueAt(b, name, k, value.value);
        values := values + [v];
        assert ReportsAt(b, since, name, k, v);
      }
      forall v ensures v in values <==> exists j: nat :: j < k + 1 && ReportsAt(b, since, name, j, v) {
        if v in before {
          var j: nat :| j < k && ReportsAt(b, since, name, j, v);
        }
        if j: nat :| j < k + 1 && ReportsAt(b, since, name, j, v) {
          assert j < k ==> v in before;
        }
      }
    }
  }

  /** Exactly the new points of every series, no key twice. */
  method BuildValues(b: Batch, since: map<Name, int>) returns (values: seq<FeatureValue>)
    requires IsBatch(b)
    ensures IsBuilt(b, since, values)
  {
    values := [];
    for i := 0 to |b.names|
      invariant DistinctKeys(values)
      invariant forall v :: v in values <==> exists j, k: nat :: 0 <= j < i && ReportsAt(b, since, b.names[j], k, v)
    {
      hide DistinctKeys, IsBatch;
      assert b.names[i] in b.names;
      var more := BuildFeature(b, since, b.names[i]);
      AppendFeature(b, since, i, values, more);
      values := values + more;
    }
    forall v ensures v in values <==> Reports(b, since, v) {
      if v in values {
        var j, k: nat :| 0 <= j < |b.names| && ReportsAt(b, since, b.names[j], k, v);
        assert b.names[j] in b.names;
      }
    }
  }

  ghost predicate IsBuilt(b: Batch, since: map<Name, int>, values: seq<FeatureValue>)
    requires IsBatch(b)
  {
    DistinctKeys(values) && forall v :: v in values <==> Reports(b, since, v)
  }

  lemma AppendFeature(b: Batch, since: map<Name, int>, i: nat, values: seq<FeatureValue>, more: seq<FeatureValue>)
    requires IsBatch(b) && i < |b.names| && b.names[i] in b.names
    requires DistinctKeys(values) && DistinctKeys(more)
    requires forall v :: v in values <==> exists j, k: nat :: 0 <= j < i && ReportsAt(b, since, b.names[j], k, v)
    requires forall v :: v in more <==> exists k: nat :: ReportsAt(b, since, b.names[i], k, v)
    ensures DistinctKeys(values + more)
    ensures forall v :: v in values + more <==>
      exists j, k: nat :: 0 <= j < i + 1 && ReportsAt(b, since, b.names[j], k, v)
  {
    forall x, y | 0 <= x < |values| && 0 <= y < |more| ensures KeyOf(values[x]) != KeyOf(more[y]) {
      assert values[x] in values && more[y] in more;
    }
  }

  // ----- agreement of the two stores -----

  /** The newest stored time stamp of each feature of a slot, over all versions. */
  ghost predicate IsWatermark(offline: Offline, slot: Slot, since: map<Name, int>) {
    && (forall k :: k in offline && k.slot == slot ==> k.feature in since && k.ts <= since[k.feature])
    && forall f :: f in since ==> exists k :: k in offline && k.slot == slot && k.feature == f && k.ts == since[f]
  }

  /** The entry carries the value, version and time stamp of the one newest row of the feature. */
  ghost predicate IsNewestRow(offline: Offline, slot: Slot, feature: Name, entry: OnlineEntry) {
    var key := RowKey(feature, entry.version, slot, entry.ts);
    && key in offline && offline[key] == entry.value
    && forall k :: k in offline && k.slot == slot && k.feature == feature && k != key ==> k.ts < entry.ts
  }

  ghost predicate Agrees(store: Store) {
    forall s, f :: s in store.online && f in store.online[s] ==> IsNewestRow(store.offline, s, f, store.online[s][f])
  }

  /** A run writes exactly what is new; expiry drops an entry; a refresh extends its life only. */
  datatype Step =
    | Run(batch: Batch, since: map<Name, int>, values: seq<FeatureValue>)
    | Expire(slot: Slot)
    | RefreshTtl(slot: Slot)

  ghost predicate Enabled(store: Store, step: Step) {
    step.Run? ==>
      && IsBatch(step.batch)
      && IsWatermark(store.offline, step.batch.slot, step.since)
      && IsBuilt(step.batch, step.since, step.values)
  }

  function After(store: Store, step: Step): Store {
    match step
    case Run(_, _, values) => Written(store, values)
    case Expire(slot) => Store(store.offline, store.online - {slot})
    case RefreshTtl(_) => store
  }

  function AfterAll(store: Store, steps: seq<Step>): Store {
    if steps == [] then store else After(AfterAll(store, steps[..|steps| - 1]), steps[|steps| - 1])
  }

  ghost predicate IsRun(store: Store, steps: seq<Step>) {
    forall i :: 0 <= i < |steps| ==> Enabled(AfterAll(store, steps[..i]), steps[i])
  }

  lemma FreshEntryIsNewest(store: Store, b: Batch, since: map<Name, int>, values: seq<FeatureValue>, f: Name)
    requires IsBatch(b) && IsBuilt(b, since, values) && IsWatermark(store.offline, b.slot, since)
    requires Newest(values, b.slot, f).Some?
    ensures IsNewestRow(Upserted(store.offline, values), b.slot, f, EntryOf(Newest(values, b.slot, f).value))
  {
    var v := Newest(values, b.slot, f).value;
    var offline := Upserted(store.offline, values);
    NewestIsGreatest(values, b.slot, f);
    hide Newest, IsWatermark, Upserted, IsBatch;
    UpsertedRow(store.offline, values, KeyOf(v));
    assert KeyOf(v) in offline && offline[KeyOf(v)] == v.value by {
      var i :| 0 <= i < |values| && values[i] == v;
      assert KeyOf(values[i]) == KeyOf(v);
    }
    forall k | k in offline && k.slot == b.slot && k.feature == f && k != KeyOf(v) ensures k.ts < v.ts {
      UpsertedRow(store.offline, values, k);
      if k !in store.offline {
        var i :| 0 <= i < |values| && KeyOf(values[i]) == k;
        assert values[i] in values;
      }
    }
  }

  /** A feature the batch does not write keeps its newest row. */
  lemma OldEntryStaysNewest(store: Store, values: seq<FeatureValue>, s: Slot, f: Name, entry: OnlineEntry)
    requires DistinctKeys(values) && IsNewestRow(store.offline, s, f, entry)
    requires forall v :: v in values ==> v.slot != s || v.feature != f
    ensures IsNewestRow(Upserted(store.offline, values), s, f, entry)
  {
    hide Upserted, DistinctKeys;
    forall k: RowKey | k.slot == s && k.feature == f
      ensures k in Upserted(store.offline, values) <==> k in store.offline
      ensures k in store.offline ==> Upserted(store.offline, values)[k] == store.offline[k]
    {
      UpsertedRow(store.offline, values, k);
      assert forall i :: 0 <= i < |values| ==> values[i] in values;
    }
  }

  lemma RunKeepsAgreement(store: Store, b: Batch, since: map<Name, int>, values: seq<FeatureValue>)
    requires Agrees(store)
    requires IsBatch(b) && IsBuilt(b, since, values) && IsWatermark(store.offline, b.slot, since)
    ensures Agrees(Written(store, values))
  {
    var after := Written(store, values);
    assert forall v :: v in values ==> v.slot == b.slot;
    forall s, f | s in after.online && f in after.online[s]
      ensures IsNewestRow(after.offline, s, f, after.online[s][f])
    {
      hide IsNewestRow, Upserted, IsBatch, IsBuilt;
      NewestIsGreatest(values, s, f);
      if f in Published(values, s) {
        assert s == b.slot;
        FreshEntryIsNewest(store, b, since, values, f);
      } else {
        assert s in store.online && f in store.online[s];
        forall v | v in values && v.slot == s ensures v.feature != f {
          NewestIsGreatest(values, s, f);
          assert v.feature == f ==> f in FeaturesIn(values, s);
        }
        OldEntryStaysNewest(store, values, s, f, store.online[s][f]);
      }
    }
  }

  /** Whatever runs, expiries and refreshes happen, every online feature is its newest offline row. */
  lemma {:induction false} EveryRunAgrees(store: Store, steps: seq<Step>)
    requires Agrees(store) && IsRun(store, steps)
    ensures Agrees(AfterAll(store, steps))
  {
    if steps != [] {
      var n := |steps| - 1;
      assert forall i :: 0 <= i < n ==> steps[..n][..i] == steps[..i];
      assert Enabled(AfterAll(store, steps[..n]), steps[n]);
      assert AfterAll(store, steps) == After(AfterAll(store, steps[..n]), steps[n]);
      hide Agrees, Enabled, After, AfterAll;
      EveryRunAgrees(store, steps[..n]);
      StepAgrees(AfterAll(store, steps[..n]), steps[n]);
    }
  }

  lemma StepAgrees(store: Store, step: Step)
    requires Agrees(store) && Enabled(store, step)
    ensures Agrees(After(store, step))
  {
    hide IsNewestRow, Written, IsWatermark, IsBuilt, IsBatch;
    match step
    case Run(batch, since, values) => RunKeepsAgreement(store, batch, since, values);
    case Expire(_) =>
    case RefreshTtl(_) =>
  }

  /** Running the same batch again finds nothing past the watermarks. */
  lemma RerunWritesNothing(store: Store, b: Batch, since: map<Name, int>, values: seq<FeatureValue>,
                           since': map<Name, int>, values': seq<FeatureValue>)
    requires IsBatch(b) && IsWatermark(store.offline, b.slot, since) && IsBuilt(b, since, values)
    requires IsWatermark(Written(store, values).offline, b.slot, since') && IsBuilt(b, since', values')
    ensures values' == []
  {
    if values' != [] {
      var v := values'[0];
      assert v in values' && Reports(b, since', v);
      var name: Name, k: nat :| name in b.names && ReportsAt(b, since', name, k, v);
      var offline := Upserted(store.offline, values);
      UpsertedRow(store.offline, values, KeyOf(v));
      if !Reports(b, since, v) {
        assert !ReportsAt(b, since, name, k, v);
        var row: RowKey :| row in store.offline && row.slot == b.slot && row.feature == name && row.ts == since[name];
        UpsertedRow(store.offline, values, row);
      }
    }
  }

  // ----- what an entry covers -----

  /** The features some run has written into a slot since it last expired. */
  function WrittenSinceExpiry(steps: seq<Step>, slot: Slot): set<Name> {
    if steps == [] then {}
    else
      var n := |steps| - 1;
      match steps[n]
      case Run(_, _, values) => WrittenSinceExpiry(steps[..n], slot) + FeaturesIn(values, slot)
      case Expire(s) => if s == slot then {} else WrittenSinceExpiry(steps[..n], slot)
      case RefreshTtl(_) => WrittenSinceExpiry(steps[..n], slot)
  }

  /**
    From an empty cache, an entry lists exactly the features written since its last expiry: a feature the
    offline store still holds is missing online until some run writes it again.
   */
  lemma {:induction false} EntryCoversWrites(store: Store, steps: seq<Step>, slot: Slot)
    requires store.online == map[]
    ensures var online := AfterAll(store, steps).online;
      (if slot in online then online[slot].Keys else {}) == WrittenSinceExpiry(steps, slot)
  {
    if steps != [] {
      var n := |steps| - 1;
      EntryCoversWrites(store, steps[..n], slot);
      if steps[n].Run? {
        var values := steps[n].values;
        forall f ensures f in Published(values, slot) <==> f in FeaturesIn(values, slot) {
          NewestIsGreatest(values, slot, f);
        }
        assert slot !in SlotsIn(values) ==> FeaturesIn(values, slot) == {};
        assert Published(values, slot).Keys == FeaturesIn(values, slot);
        hide Upserted, Newest, Published;
      }
    }
  }

  /**
    One point is written, the entry expires, and the same point is processed again: the offline store has
    it, the second run finds nothing new, and the online store stays without it.
   */
  lemma ExpiredEntryStaysAway(v: FeatureValue) returns (steps: seq<Step>)
    ensures var start := Store(map[], map[]);
      && IsRun(start, steps) && steps != [] && steps[|steps| - 1].Run?
      && AfterAll(start, steps) == Store(map[KeyOf(v) := v.value], map[])
      && v.feature in steps[|steps| - 1].batch.names
  {
    var b := Batch(v.slot, [v.ts], [v.feature], map[v.feature := [Some(v.value)]], map[v.feature := v.version]);
    var first, last := Run(b, map[], [v]), Run(b, map[v.feature := v.ts], []);
    steps := [first, Expire(v.slot), last];
    var start := Store(map[], map[]);
    OnePoint(v, b);
    assert Upserted(map[], [v]) == map[KeyOf(v) := v.value] by {
      assert Upserted(map[], [v][..0]) == map[];
    }
    hide Upserted, IsBuilt, IsWatermark, IsBatch;
    var one := Written(start, [v]);
    assert AfterAll(start, steps[..0]) == start;
    assert steps[..1][..0] == [] && AfterAll(start, steps[..1]) == one;
    assert steps[..2][..1] == steps[..1];
    NothingToMerge(v, one.online);
    assert AfterAll(start, steps[..2]) == Store(one.offline, map[]);
    assert AfterAll(start, steps) == Written(Store(one.offline, map[]), []);
    EmptyWrite(one.offline);
  }

  lemma OnePoint(v: FeatureValue, b: Batch)
    requires b == Batch(v.slot, [v.ts], [v.feature], map[v.feature := [Some(v.value)]], map[v.feature := v.version])
    ensures IsBatch(b) && IsWatermark(map[], v.slot, map[]) && IsBuilt(b, map[], [v])
    ensures IsWatermark(map[KeyOf(v) := v.value], v.slot, map[v.feature := v.ts])
    ensures IsBuilt(b, map[v.feature := v.ts], [])
  {
    assert ReportsAt(b, map[], v.feature, 0, v);
  }

  lemma NothingToMerge(v: FeatureValue, online: Online)
    requires online == Merged(map[], [v])
    ensures online - {v.slot} == map[]
  {
  }

  lemma EmptyWrite(offline: Offline)
    ensures Written(Store(offline, map[]), []) == Store(offline, map[])
  {
  }

  // ----- grouping by slot -----

  type Groups = map<Slot, map<Name, FeatureValue>>

  /** Each slot of the values has a group, holding the newest value of each of its features. */
  ghost predicate IsGrouped(latest: Groups, values: seq<FeatureValue>) {
    && latest.Keys == SlotsIn(values)
    && (forall s, f :: s in latest ==> HoldsNewest(latest[s], f, Newest(values, s, f)))
    && forall s, f :: s !in latest ==> Newest(values, s, f).None?
  }

  predicate HoldsNewest(group: map<Name, FeatureValue>, f: Name, newest: Option<FeatureValue>) {
    if newest.Some? then f in group && group[f] == newest.value else f !in group
  }

  lemma NothingGrouped()
    ensures IsGrouped(map[], [])
  {
  }

  lemma NewestSnoc(values: seq<FeatureValue>, v: FeatureValue, s: Slot, f: Name)
    ensures var best := Newest(values, s, f);
      Newest(values + [v], s, f)
      == if v.slot == s && v.feature == f && (best.None? || v.ts >= best.value.ts) then Some(v) else best
  {
    assert (values + [v])[..|values|] == values;
  }

  lemma GroupStep(latest: Groups, values: seq<FeatureValue>, v: FeatureValue)
    requires IsGrouped(latest, values)
    ensures var group := if v.slot in latest then latest[v.slot] else map[];
      var more := if v.feature !in group || v.ts >= group[v.feature].ts then group[v.feature := v] else group;
      IsGrouped(latest[v.slot := more], values + [v])
  {
    var group := if v.slot in latest then latest[v.slot] else map[];
    var more := if v.feature !in group || v.ts >= group[v.feature].ts then group[v.feature := v] else group;
    var after := latest[v.slot := more];
    hide Newest;
    assert after.Keys == SlotsIn(values + [v]);
    forall s, f ensures Newest(values + [v], s, f)
      == if v.slot == s && v.feature == f && (Newest(values, s, f).None? || v.ts >= Newest(values, s, f).value.ts)
         then Some(v) else Newest(values, s, f)
    {
      NewestSnoc(values, v, s, f);
    }
  }

  lemma GroupedAll(latest: Groups, values: seq<FeatureValue>)
    requires IsGrouped(latest, values)
    ensures latest.Keys == SlotsIn(values)
    ensures forall s :: s in latest ==> latest[s] == NewestOf(values, s)
  {
    hide Newest, SlotsIn;
    forall s | s in latest ensures latest[s] == NewestOf(values, s) {
      forall f ensures f in latest[s] ==> f in FeaturesIn(values, s) {
        NewestIsGreatest(values, s, f);
        assert HoldsNewest(latest[s], f, Newest(values, s, f));
      }
      forall f ensures f in latest[s] <==> f in NewestOf(values, s) {
        assert HoldsNewest(latest[s], f, Newest(values, s, f));
      }
    }
  }

  function NewestOf(values: seq<FeatureValue>, slot: Slot): map<Name, FeatureValue> {
    map f | f in FeaturesIn(values, slot) && Newest(values, slot, f).Some? :: Newest(values, slot, f).value
  }

  // ----- what a run adds, in rows -----

  /** Point k of the feature is present and later than every row the feature has in the batch's slot. */
  ghost predicate IsUnstored(offline: Offline, b: Batch, name: Name, k: nat)
    requires IsBatch(b)
  {
    && name in b.names && k < |b.timestamps| && b.series[name][k].Some?
    && forall r :: r in offline && r.slot == b.slot && r.feature == name ==> r.ts < b.timestamps[k]
  }

  function PointKey(b: Batch, name: Name, k: nat): RowKey
    requires k < |b.timestamps|
  {
    RowKey(name, if name in b.versions then b.versions[name] else "v1", b.slot, b.timestamps[k])
  }

  /** Every unstored point becomes a row, the rows there were stay, and no other row comes. */
  ghost predicate AddsUnstored(before: Offline, after: Offline, b: Batch)
    requires IsBatch(b)
  {
    && (forall name, k: nat :: IsUnstored(before, b, name, k) ==> IsStored(after, b, name, k))
    && (forall r :: r in before ==> r in after && after[r] == before[r])
    && forall r :: r in after && r !in before ==> IsPoint(before, b, r)
  }

  /** The row of point k holds its value. */
  ghost predicate IsStored(offline: Offline, b: Batch, name: Name, k: nat)
    requires IsBatch(b)
  {
    && name in b.names && k < |b.timestamps| && b.series[name][k].Some?
    && PointKey(b, name, k) in offline && offline[PointKey(b, name, k)] == b.series[name][k].value
  }

  ghost predicate IsPoint(before: Offline, b: Batch, r: RowKey)
    requires IsBatch(b)
  {
    exists k: nat :: IsUnstored(before, b, r.feature, k) && r == PointKey(b, r.feature, k)
  }

  /** The newest unstored point of a feature is its online entry, and every other entry stays. */
  ghost predicate PublishesNewest(before: Store, after: Store, b: Batch)
    requires IsBatch(b)
  {
    && (forall name, k: nat :: IsNewestUnstored(before.offline, b, name, k) ==> IsPublished(after.online, b, name, k))
    && forall s, f, e :: s != b.slot || !HasUnstored(before.offline, b, f) ==>
      (HasEntry(after.online, s, f, e) <==> HasEntry(before.online, s, f, e))
  }

  /** The entry shows point k. */
  ghost predicate IsPublished(online: Online, b: Batch, name: Name, k: nat)
    requires IsBatch(b)
  {
    && name in b.names && k < |b.timestamps| && b.series[name][k].Some?
    && HasEntry(online, b.slot, name, OnlineEntry(b.series[name][k].value, PointKey(b, name, k).version, b.timestamps[k]))
  }

  ghost predicate IsNewestUnstored(offline: Offline, b: Batch, name: Name, k: nat)
    requires IsBatch(b)
  {
    IsUnstored(offline, b, name, k) && forall j: nat :: j > k ==> !IsUnstored(offline, b, name, j)
  }

  ghost predicate HasUnstored(offline: Offline, b: Batch, name: Name)
    requires IsBatch(b)
  {
    exists k: nat :: IsUnstored(offline, b, name, k)
  }

  predicate HasEntry(online: Online, s: Slot, f: Name, e: OnlineEntry) {
    s in online && f in online[s] && online[s][f] == e
  }

  /** What is built is exactly the unstored points. */
  lemma NewIsUnstored(offline: Offline, b: Batch, since: map<Name, int>, name: Name, k: nat)
    requires IsBatch(b) && IsWatermark(offline, b.slot, since)
    ensures IsUnstored(offline, b, name, k) <==> name in b.names && k < |b.timestamps| && IsNew(b, since, name, k)
    ensures IsUnstored(offline, b, name, k) ==>
      ReportsAt(b, since, name, k, ValueAt(b, name, k, b.series[name][k].value))
      && KeyOf(ValueAt(b, name, k, b.series[name][k].value)) == PointKey(b, name, k)
  {
  }

  lemma PointIsWritten(offline: Offline, b: Batch, since: map<Name, int>, values: seq<FeatureValue>, name: Name, k: nat)
    requires IsBatch(b) && IsBuilt(b, since, values) && IsWatermark(offline, b.slot, since)
    requires IsUnstored(offline, b, name, k)
    ensures IsStored(Upserted(offline, values), b, name, k)
  {
    NewIsUnstored(offline, b, since, name, k);
    var v := ValueAt(b, name, k, b.series[name][k].value);
    assert Reports(b, since, v);
    hide Upserted, IsWatermark, DistinctKeys, ReportsAt, Reports;
    assert v in values;
    UpsertedRow(offline, values, KeyOf(v));
    var i :| 0 <= i < |values| && values[i] == v;
    assert KeyOf(values[i]) == KeyOf(v);
  }

  lemma WrittenIsPoint(offline: Offline, b: Batch, since: map<Name, int>, values: seq<FeatureValue>, i: nat)
    requires IsBatch(b) && IsBuilt(b, since, values) && IsWatermark(offline, b.slot, since) && i < |values|
    ensures IsPoint(offline, b, KeyOf(values[i])) && KeyOf(values[i]) !in offline
  {
    hide IsWatermark, DistinctKeys, IsNew, IsBatch;
    assert values[i] in values;
    var name: Name, k: nat :| name in b.names && ReportsAt(b, since, name, k, values[i]);
    NewIsUnstored(offline, b, since, name, k);
  }

  lemma RunAddsUnstored(offline: Offline, b: Batch, since: map<Name, int>, values: seq<FeatureValue>)
    requires IsBatch(b) && IsBuilt(b, since, values) && IsWatermark(offline, b.slot, since)
    ensures AddsUnstored(offline, Upserted(offline, values), b)
  {
    hide Upserted, IsWatermark, IsBatch, DistinctKeys, IsUnstored, ReportsAt, IsStored, IsPoint;
    var after := Upserted(offline, values);
    forall name, k: nat | IsUnstored(offline, b, name, k) ensures IsStored(after, b, name, k) {
      PointIsWritten(offline, b, since, values, name, k);
    }
    forall r | r in offline || r in after
      ensures r in offline ==> r in after && after[r] == offline[r]
      ensures r !in offline ==> IsPoint(offline, b, r)
    {
      UpsertedRow(offline, values, r);
      forall i | 0 <= i < |values| ensures IsPoint(offline, b, KeyOf(values[i])) && KeyOf(values[i]) !in offline {
        WrittenIsPoint(offline, b, since, values, i);
      }
    }
  }

  lemma NewestIsPoint(offline: Offline, b: Batch, since: map<Name, int>, values: seq<FeatureValue>, name: Name, k: nat)
    requires IsBatch(b) && IsBuilt(b, since, values) && IsWatermark(offline, b.slot, since)
    requires IsNewestUnstored(offline, b, name, k)
    ensures IsUnstored(offline, b, name, k)
    ensures Newest(values, b.slot, name) == Some(ValueAt(b, name, k, b.series[name][k].value))
  {
    NewIsUnstored(offline, b, since, name, k);
    var v := ValueAt(b, name, k, b.series[name][k].value);
    assert Reports(b, since, v);
    NewestIsGreatest(values, b.slot, name);
    hide IsWatermark, DistinctKeys, Newest, IsNew, IsUnstored;
    var best := Newest(values, b.slot, name).value;
    assert v in values && best in values;
    var other: Name, j: nat :| other in b.names && ReportsAt(b, since, other, j, best);
    NewIsUnstored(offline, b, since, other, j);
    assert j <= k;
  }

  lemma EntryWritten(online: Online, values: seq<FeatureValue>, v: FeatureValue)
    requires Newest(values, v.slot, v.feature) == Some(v)
    ensures HasEntry(Merged(online, values), v.slot, v.feature, EntryOf(v))
  {
    NewestIsGreatest(values, v.slot, v.feature);
    hide Newest;
    assert v.feature in Published(values, v.slot) && Published(values, v.slot)[v.feature] == EntryOf(v);
  }

  lemma EntryStays(online: Online, values: seq<FeatureValue>, s: Slot, f: Name, e: OnlineEntry)
    requires forall v :: v in values ==> v.slot != s || v.feature != f
    ensures HasEntry(Merged(online, values), s, f, e) <==> HasEntry(online, s, f, e)
  {
    hide Newest;
    assert f !in Published(values, s);
    assert s in Merged(online, values) <==> s in online || s in SlotsIn(values);
  }

  lemma PointIsPublished(store: Store, b: Batch, since: map<Name, int>, values: seq<FeatureValue>, name: Name, k: nat)
    requires IsBatch(b) && IsBuilt(b, since, values) && IsWatermark(store.offline, b.slot, since)
    requires IsNewestUnstored(store.offline, b, name, k)
    ensures IsPublished(Merged(store.online, values), b, name, k)
  {
    NewestIsPoint(store.offline, b, since, values, name, k);
    hide IsWatermark, DistinctKeys, Newest, Merged, HasEntry, IsBuilt;
    EntryWritten(store.online, values, ValueAt(b, name, k, b.series[name][k].value));
  }

  lemma RunPublishesNewest(store: Store, b: Batch, since: map<Name, int>, values: seq<FeatureValue>)
    requires IsBatch(b) && IsBuilt(b, since, values) && IsWatermark(store.offline, b.slot, since)
    ensures PublishesNewest(store, Written(store, values), b)
  {
    var after := Written(store, values);
    hide Upserted, Merged, IsWatermark, IsBatch, DistinctKeys, ReportsAt, HasEntry, Newest, IsPublished;
    forall name, k: nat | IsNewestUnstored(store.offline, b, name, k)
      ensures IsPublished(after.online, b, name, k)
    {
      PointIsPublished(store, b, since, values, name, k);
    }
    forall s, f, e | s != b.slot || !HasUnstored(store.offline, b, f)
      ensures HasEntry(after.online, s, f, e) <==> HasEntry(store.online, s, f, e)
    {
      forall v | v in values ensures v.slot != s || v.feature != f {
        var i :| 0 <= i < |values| && values[i] == v;
        WrittenIsPoint(store.offline, b, since, values, i);
      }
      EntryStays(store.online, values, s, f, e);
    }
  }

  // ----- counting entries -----

  datatype Counts = Counts(offlineRows: nat, onlineEntries: nat)

  datatype EntryKey = EntryKey(slot: Slot, feature: Name)

  /** The online entries a batch writes. */
  function EntriesIn(values: seq<FeatureValue>): set<EntryKey> {
    set v | v in values :: EntryKey(v.slot, v.feature)
  }

  function EntriesOutside(values: seq<FeatureValue>, todo: set<Slot>): set<EntryKey> {
    set v | v in values && v.slot !in todo :: EntryKey(v.slot, v.feature)
  }

  lemma NothingCounted(values: seq<FeatureValue>)
    ensures EntriesOutside(values, SlotsIn(values)) == {}
  {
  }

  lemma AllCounted(values: seq<FeatureValue>)
    ensures EntriesOutside(values, {}) == EntriesIn(values)
  {
  }

  function EntriesOf(slot: Slot, features: set<Name>): set<EntryKey> {
    set f | f in features :: EntryKey(slot, f)
  }

  lemma {:induction false} EntriesOfSize(slot: Slot, features: set<Name>)
    ensures |EntriesOf(slot, features)| == |features|
    decreases |features|
  {
    if features != {} {
      var f :| f in features;
      EntriesOfSize(slot, features - {f});
      assert EntriesOf(slot, features) == EntriesOf(slot, features - {f}) + {EntryKey(slot, f)};
    } else {
      assert EntriesOf(slot, features) == {};
    }
  }

  lemma CountSlot(values: seq<FeatureValue>, todo: set<Slot>, slot: Slot, features: set<Name>)
    requires slot in todo && features == FeaturesIn(values, slot)
    ensures |EntriesOutside(values, todo - {slot})| == |EntriesOutside(values, todo)| + |features|
  {
    EntriesOfSize(slot, features);
    assert EntriesOutside(values, todo - {slot}) == EntriesOutside(values, todo) + EntriesOf(slot, features);
    assert EntriesOutside(values, todo) !! EntriesOf(slot, features);
  }

  lemma NewestOfKeys(values: seq<FeatureValue>, slot: Slot)
    ensures NewestOf(values, slot).Keys == FeaturesIn(values, slot)
  {
    hide Newest;
    forall f | f in FeaturesIn(values, slot) ensures Newest(values, slot, f).Some? {
      NewestIsGreatest(values, slot, f);
    }
  }

  // ----- the store -----

  class FeatureStore {
    var offline: Offline
    var online: Online

    function Contents(): Store
      reads this
    {
      Store(offline, online)
    }

    constructor ()
      ensures offline == map[] && online == map[] && Agrees(Contents())
    {
      offline, online := map[], map[];
    }

    /** Upserts in chunks, all or nothing: a chunk that repeats a key is refused and takes the whole write with it. */
    method WriteOffline(values: seq<FeatureValue>) returns (rows: Option<nat>)
      modifies this`offline
      ensures rows == if ChunksDistinct(values) then Some(|values|) else None
      ensures offline == if ChunksDistinct(values) then Upserted(old(offline), values) else old(offline)
    {
      hide *;
      var start, table := 0, offline;
      assert values[..0] == [];
      NoChunks(table);
      while start < |values|
        invariant start <= |values| && IsBoundary(values, start) && offline == old(offline)
        invariant ChunksDistinct(values[..start]) && table == Upserted(old(offline), values[..start])
        decreases |values| - start
      {
        var stop := ChunkEnd(values, start);
        NextChunk(values, start, stop);
        if !DistinctKeys(values[start..stop]) {
          return None;
        }
        UpsertChunk(offline, values, start, stop);
        table := Upserted(table, values[start..stop]);
        start := stop;
      }
      assert values[..start] == values;
      offline := table;
      return Some(|values|);
    }

    /** The newest value of every feature of the batch, per slot. */
    method GroupNewest(values: seq<FeatureValue>) returns (latest: map<Slot, map<Name, FeatureValue>>)
      ensures latest.Keys == SlotsIn(values)
      ensures forall s :: s in latest ==> latest[s] == NewestOf(values, s)
    {
      hide Newest, IsGrouped;
      latest := map[];
      NothingGrouped();
      for i := 0 to |values|
        invariant IsGrouped(latest, values[..i])
      {
        var v := values[i];
        assert values[..i + 1] == values[..i] + [v];
        var group := if v.slot in latest then latest[v.slot] else map[];
        GroupStep(latest, values[..i], v);
        if v.feature !in group || v.ts >= group[v.feature].ts {
          group := group[v.feature := v];
        }
        latest := latest[v.slot := group];
      }
      assert values[..|values|] == values;
      GroupedAll(latest, values);
    }

    /** Merges the newest values in and counts the entries written. */
    method WriteOnline(values: seq<FeatureValue>) returns (written: nat)
      modifies this`online
      ensures online == Merged(old(online), values)
      ensures written == |EntriesIn(values)|
    {
      hide *;
      written := 0;
      var latest := GroupNewest(values);
      var todo := latest.Keys;
      ghost var before := online;
      NothingMerged(before, values);
      NothingCounted(values);
      while todo != {}
        invariant todo <= latest.Keys
        invariant IsPartlyMerged(before, values, online, todo)
        invariant written == |EntriesOutside(values, todo)|
        decreases |todo|
      {
        var slot :| slot in todo;
        var payload := if slot in online then online[slot] else map[];
        var group := map f | f in latest[slot] :: EntryOf(latest[slot][f]);
        PublishedGroup(values, slot, latest[slot], before);
        NewestOfKeys(values, slot);
        assert group.Keys == latest[slot].Keys;
        MergeSlot(before, values, online, todo, slot);
        CountSlot(values, todo, slot, group.Keys);
        online := online[slot := payload + group];
        written := written + |group|;
        todo := todo - {slot};
      }
      AllMerged(before, values, online);
      AllCounted(values);
    }

    lemma PublishedGroup(values: seq<FeatureValue>, slot: Slot, group: map<Name, FeatureValue>, before: Online)
      requires group == NewestOf(values, slot)
      ensures Combined(before, values, slot)
           == (if slot in before then before[slot] else map[]) + map f | f in group :: EntryOf(group[f])
    {
      hide Newest, FeaturesIn;
    }

    /** A refused offline write raises before anything reaches the online entries. */
    method Write(values: seq<FeatureValue>) returns (counts: Option<Counts>)
      modifies this
      ensures counts == if ChunksDistinct(values) then Some(Counts(|values|, |EntriesIn(values)|)) else None
      ensures Contents() == if ChunksDistinct(values) then Written(old(Contents()), values) else old(Contents())
    {
      var rows := WriteOffline(values);
      if rows.None? {
        return None;
      }
      var written := WriteOnline(values);
      return Some(Counts(rows.value, written));
    }

    /** One pass over the rows, as the grouped maximum of the query. */
    method LatestTsMap(slot: Slot) returns (since: map<Name, int>)
      ensures IsWatermark(offline, slot, since)
    {
      since := map[];
      var todo := offline.Keys;
      while todo != {}
        invariant todo <= offline.Keys
        invariant forall k :: k in offline && k !in todo && k.slot == slot ==> k.feature in since && k.ts <= since[k.feature]
        invariant forall f :: f in since ==> exists k :: k in offline && k.slot == slot && k.feature == f && k.ts == since[f]
        decreases |todo|
      {
        var key :| key in todo;
        todo := todo - {key};
        if key.slot == slot && (key.feature !in since || since[key.feature] < key.ts) {
          since := since[key.feature := key.ts];
        }
      }
    }

    /** An incremental run: agreement in, agreement out, and a second run of the batch stores nothing. */
    method ProcessSeries(b: Batch) returns (stored: nat, ghost since: map<Name, int>, ghost values: seq<FeatureValue>)
      requires IsBatch(b) && Agrees(Contents())
      modifies this
      ensures Enabled(old(Contents()), Run(b, since, values))
      ensures Contents() == After(old(Contents()), Run(b, since, values))
      ensures Agrees(Contents()) && stored == |values|
      ensures AddsUnstored(old(offline), offline, b) && PublishesNewest(old(Contents()), Contents(), b)
    {
      var cutoffs := LatestTsMap(b.slot);
      var built := BuildValues(b, cutoffs);
      since, values := cutoffs, built;
      RunAddsUnstored(offline, b, cutoffs, built);
      RunPublishesNewest(Contents(), b, cutoffs, built);
      hide AddsUnstored, PublishesNewest, Agrees, IsBuilt, IsWatermark, IsBatch, Upserted, Merged;
      RunKeepsAgreement(Contents(), b, cutoffs, built);
      assert ChunksDistinct(built);
      var counts := Write(built);
      stored := |built|;
    }

    method ExpireSlot(slot: Slot)
      requires Agrees(Contents())
      modifies this`online
      ensures Contents() == After(old(Contents()), Expire(slot)) && Agrees(Contents())
    {
      online := online - {slot};
    }
  }
}
