/**
  Historical replay: one walk over time-ordered rows serves every snapshot, and each snapshot is what a
  point-in-time query would answer.
 */
module Replay {
  import opened Sorting
  import opened Graphs

  /** An observation as stored; time stamps are instants on one line. */
  datatype Row = Row(feature: Name, ts: int, value: real, version: string)

  /** What a snapshot shows of a row. */
  datatype Entry = Entry(value: real, ts: int, version: string)

  type Snapshot = map<Name, Entry>

  function EntryOf(row: Row): Entry {
    Entry(row.value, row.ts, row.version)
  }

  predicate TimeOrdered(rows: seq<Row>) {
    forall i, j :: 0 <= i < j < |rows| ==> rows[i].ts <= rows[j].ts
  }

  /** One row per feature and time stamp, as the offline store keeps for one version. */
  predicate UniqueKeys(rows: seq<Row>) {
    forall i, j :: 0 <= i < j < |rows| ==> rows[i].feature != rows[j].feature || rows[i].ts != rows[j].ts
  }

  // ----- the point-in-time query -----

  /** row is visible at asOf and no visible row of its feature is newer. */
  ghost predicate IsNewest(rows: seq<Row>, asOf: int, row: Row) {
    row in rows && row.ts <= asOf
    && forall other :: other in rows && other.feature == row.feature && other.ts <= asOf ==> other.ts <= row.ts
  }

  /** The answer of the query at asOf: for each feature seen by then, a row of greatest time stamp. */
  ghost predicate IsReplay(rows: seq<Row>, asOf: int, answer: Snapshot) {
    && (forall row :: row in rows && row.ts <= asOf ==> row.feature in answer)
    && forall f :: f in answer ==> Answers(rows, asOf, f, answer[f])
  }

  ghost predicate Answers(rows: seq<Row>, asOf: int, f: Name, entry: Entry) {
    exists row :: IsNewest(rows, asOf, row) && row.feature == f && EntryOf(row) == entry
  }

  /** The newest visible rows of each feature show the same. */
  ghost predicate NewestRowsAgree(rows: seq<Row>, asOf: int) {
    forall r, q :: IsNewest(rows, asOf, r) && IsNewest(rows, asOf, q) && r.feature == q.feature ==> EntryOf(r) == EntryOf(q)
  }

  /** The query has one answer exactly if no two newest visible rows of a feature show different things. */
  lemma OneAnswerIff(rows: seq<Row>, asOf: int, a: Snapshot)
    requires IsReplay(rows, asOf, a)
    ensures (forall b :: IsReplay(rows, asOf, b) ==> b == a) <==> NewestRowsAgree(rows, asOf)
  {
    if NewestRowsAgree(rows, asOf) {
      forall b | IsReplay(rows, asOf, b) ensures b == a {
        AgreeingRowsDecide(rows, asOf, a, b);
      }
    } else {
      var r, q :| IsNewest(rows, asOf, r) && IsNewest(rows, asOf, q) && r.feature == q.feature && EntryOf(r) != EntryOf(q);
      OtherAnswer(rows, asOf, a, r);
      OtherAnswer(rows, asOf, a, q);
      assert a[r.feature := EntryOf(r)][r.feature] != a[r.feature := EntryOf(q)][r.feature];
    }
  }

  /** Any newest visible row may be what an answer shows of its feature. */
  lemma OtherAnswer(rows: seq<Row>, asOf: int, a: Snapshot, r: Row)
    requires IsReplay(rows, asOf, a) && IsNewest(rows, asOf, r)
    ensures IsReplay(rows, asOf, a[r.feature := EntryOf(r)])
  {
    assert Answers(rows, asOf, r.feature, EntryOf(r));
    hide Answers, IsNewest;
  }

  lemma AgreeingRowsDecide(rows: seq<Row>, asOf: int, a: Snapshot, b: Snapshot)
    requires NewestRowsAgree(rows, asOf) && IsReplay(rows, asOf, a) && IsReplay(rows, asOf, b)
    ensures a == b
  {
    forall f | f in a || f in b ensures f in a && f in b && b[f] == a[f] {
      assert (f in a ==> Answers(rows, asOf, f, a[f])) && (f in b ==> Answers(rows, asOf, f, b[f]));
      var r :| IsNewest(rows, asOf, r) && r.feature == f;
      assert f in a && f in b;
    }
  }

  /** With unique keys the query has one answer. */
  lemma ReplayIsUnique(rows: seq<Row>, asOf: int, a: Snapshot, b: Snapshot)
    requires UniqueKeys(rows) && IsReplay(rows, asOf, a) && IsReplay(rows, asOf, b)
    ensures a == b
  {
    forall r, q | IsNewest(rows, asOf, r) && IsNewest(rows, asOf, q) && r.feature == q.feature ensures r == q {
      assert r.ts == q.ts;
    }
    OneAnswerIff(rows, asOf, a);
  }

  /** Two versions written for one instant both qualify. */
  lemma TiedRowsHaveTwoAnswers(f: Name, ts: int, v: real, w: real)
    requires v != w
    ensures var rows := [Row(f, ts, v, "v1"), Row(f, ts, w, "v2")];
      IsReplay(rows, ts, map[f := Entry(v, ts, "v1")]) && IsReplay(rows, ts, map[f := Entry(w, ts, "v2")])
  {
    var rows := [Row(f, ts, v, "v1"), Row(f, ts, w, "v2")];
    assert IsNewest(rows, ts, rows[0]) && IsNewest(rows, ts, rows[1]);
  }

  /** Rows stamped after the snapshot change nothing. */
  lemma LaterRowsAreInvisible(rows: seq<Row>, later: seq<Row>, asOf: int, answer: Snapshot)
    requires forall row :: row in later ==> row.ts > asOf
    ensures IsReplay(rows + later, asOf, answer) <==> IsReplay(rows, asOf, answer)
  {
    VisibleRowsDecide(rows + later, rows, asOf, answer);
  }

  /** The query reads only the visible rows, in whatever order they are stored. */
  lemma VisibleRowsDecide(a: seq<Row>, b: seq<Row>, asOf: int, answer: Snapshot)
    requires forall row: Row :: row.ts <= asOf ==> (row in a <==> row in b)
    ensures IsReplay(a, asOf, answer) <==> IsReplay(b, asOf, answer)
  {
    forall row ensures IsNewest(a, asOf, row) <==> IsNewest(b, asOf, row) {
    }
    forall f, entry ensures Answers(a, asOf, f, entry) <==> Answers(b, asOf, f, entry) {
    }
  }

  // ----- the walk -----

  /** state holds the last row of every feature among the first n rows. */
  ghost predicate Reflects(rows: seq<Row>, n: nat, state: Snapshot)
    requires n <= |rows|
  {
    && (forall i :: 0 <= i < n ==> rows[i].feature in state)
    && forall f :: f in state ==> HasLast(rows, n, f, state[f])
  }

  ghost predicate HasLast(rows: seq<Row>, n: nat, f: Name, entry: Entry)
    requires n <= |rows|
  {
    exists i :: 0 <= i < n && rows[i].feature == f && EntryOf(rows[i]) == entry
      && forall j :: i < j < n ==> rows[j].feature != f
  }

  lemma Absorb(rows: seq<Row>, n: nat, state: Snapshot)
    requires n < |rows| && Reflects(rows, n, state)
    ensures Reflects(rows, n + 1, state[rows[n].feature := EntryOf(rows[n])])
  {
    var after := state[rows[n].feature := EntryOf(rows[n])];
    forall f | f in after ensures HasLast(rows, n + 1, f, after[f]) {
      if f != rows[n].feature {
        assert HasLast(rows, n, f, state[f]);
        var i :| 0 <= i < n && rows[i].feature == f && EntryOf(rows[i]) == state[f]
          && forall j :: i < j < n ==> rows[j].feature != f;
        assert EntryOf(rows[i]) == after[f];
      }
    }
  }

  /** When exactly the visible rows have been absorbed, the state is the answer. */
  lemma ReflectedStateIsReplay(rows: seq<Row>, n: nat, asOf: int, state: Snapshot)
    requires TimeOrdered(rows) && n <= |rows| && Reflects(rows, n, state)
    requires forall i :: 0 <= i < n ==> rows[i].ts <= asOf
    requires n < |rows| ==> rows[n].ts > asOf
    ensures IsReplay(rows, asOf, state)
  {
    forall i | n <= i < |rows| ensures rows[i].ts > asOf {
      assert n < i ==> rows[n].ts <= rows[i].ts;
    }
    forall f | f in state ensures Answers(rows, asOf, f, state[f]) {
    }
    forall row | row in rows && row.ts <= asOf ensures row.feature in state {
      var i :| 0 <= i < |rows| && rows[i] == row;
    }
    hide Answers, Reflects;
  }

  function Earlier(): (int, int) -> bool {
    (x, y) => x <= y
  }

  method WalkForward(rows: seq<Row>, timestamps: seq<int>) returns (snapshots: seq<Snapshot>, ghost consumed: nat)
    requires TimeOrdered(rows)
    ensures |snapshots| == |timestamps|
    ensures forall k :: 0 <= k < |timestamps| ==> IsReplay(rows, Sorted(Earlier(), timestamps)[k], snapshots[k])
    ensures consumed <= |rows|
  {
    hide *;
    snapshots := [];
    consumed := 0;
    var state: Snapshot := map[];
    var rowIndex := 0;
    var ordered := Sorted(Earlier(), timestamps);
    NothingReflected(rows);
    for k := 0 to |ordered|
      invariant 0 <= rowIndex == consumed <= |rows| && Reflects(rows, rowIndex, state)
      invariant k < |ordered| ==> forall i :: 0 <= i < rowIndex ==> rows[i].ts <= ordered[k]
      invariant |snapshots| == k
      invariant forall j :: 0 <= j < k ==> IsReplay(rows, ordered[j], snapshots[j])
    {
      var snapshotTs := ordered[k];
      while rowIndex < |rows| && rows[rowIndex].ts <= snapshotTs
        invariant 0 <= rowIndex == consumed <= |rows| && Reflects(rows, rowIndex, state)
        invariant forall i :: 0 <= i < rowIndex ==> rows[i].ts <= snapshotTs
        decreases |rows| - rowIndex
      {
        Absorb(rows, rowIndex, state);
        state := state[rows[rowIndex].feature := EntryOf(rows[rowIndex])];
        rowIndex := rowIndex + 1;
        consumed := consumed + 1;
      }
      ReflectedStateIsReplay(rows, rowIndex, snapshotTs, state);
      snapshots := snapshots + [state];
      if k + 1 < |ordered| {
        NextMomentIsLater(timestamps, k);
      }
    }
  }

  lemma NextMomentIsLater(timestamps: seq<int>, k: nat)
    requires k + 1 < |timestamps|
    ensures Sorted(Earlier(), timestamps)[k] <= Sorted(Earlier(), timestamps)[k + 1]
  {
    SortSorts(Earlier(), timestamps);
    var ordered := Sorted(Earlier(), timestamps);
    assert Earlier()(ordered[k], ordered[k + 1]);
  }

  lemma NothingReflected(rows: seq<Row>)
    ensures Reflects(rows, 0, map[])
  {
  }

  // ----- the walk as the replay engine runs it -----

  function ByTime(): (Row, Row) -> bool {
    (x: Row, y: Row) => x.ts <= y.ts
  }

  /** The rows up to a time stamp, in storage order. */
  function UpTo(table: seq<Row>, last: int): (rows: seq<Row>)
    ensures forall row :: row in rows <==> row in table && row.ts <= last
  {
    if table == [] then []
    else
      var n := |table| - 1;
      assert table == table[..n] + [table[n]];
      UpTo(table[..n], last) + if table[n].ts <= last then [table[n]] else []
  }

  function Latest(timestamps: seq<int>): (t: int)
    requires timestamps != []
    ensures forall k :: 0 <= k < |timestamps| ==> timestamps[k] <= t
  {
    var n := |timestamps| - 1;
    if n == 0 || timestamps[n] > Latest(timestamps[..n]) then timestamps[n] else Latest(timestamps[..n])
  }

  /** One query ordered by time and cut at the last moment serves all snapshots of an unordered table. */
  method ReplayMatrix(table: seq<Row>, timestamps: seq<int>) returns (snapshots: seq<Snapshot>)
    ensures |snapshots| == |timestamps|
    ensures forall k :: 0 <= k < |timestamps| ==> IsReplay(table, Sorted(Earlier(), timestamps)[k], snapshots[k])
  {
    if timestamps == [] {
      return [];
    }
    var last := Latest(timestamps);
    var visible := UpTo(table, last);
    var rows := Sorted(ByTime(), visible);
    RowsAscend(visible);
    ghost var consumed;
    snapshots, consumed := WalkForward(rows, timestamps);
    var ordered := Sorted(Earlier(), timestamps);
    forall k | 0 <= k < |timestamps| ensures IsReplay(table, ordered[k], snapshots[k]) {
      SortKeepsMembers(Earlier(), timestamps, ordered[k]);
      assert ordered[k] <= last;
      forall row: Row | row.ts <= ordered[k] ensures row in rows <==> row in table {
        SortKeepsMembers(ByTime(), visible, row);
      }
      VisibleRowsDecide(rows, table, ordered[k], snapshots[k]);
    }
  }

  lemma RowsAscend(visible: seq<Row>)
    ensures TimeOrdered(Sorted(ByTime(), visible))
  {
    SortSorts(ByTime(), visible);
    var rows := Sorted(ByTime(), visible);
    assert forall i, j :: 0 <= i < j < |rows| ==> ByTime()(rows[i], rows[j]);
  }
}
