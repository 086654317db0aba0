/** The one order in which a Kahn sort lists a graph: first come, first served, and the alphabet breaks ties. */
module KahnOrders {
  import opened Sorting
  import opened Graphs

  /** Lexicographic order, as Python compares strings. */
  predicate TextLeq(a: string, b: string) {
    a == [] || (b != [] && (a[0] < b[0] || (a[0] == b[0] && TextLeq(a[1..], b[1..]))))
  }

  predicate NameLeq(a: Name, b: Name) {
    TextLeq(a.text, b.text)
  }

  lemma {:induction false} TextsCompare(a: string, b: string)
    ensures TextLeq(a, b) || TextLeq(b, a)
    ensures TextLeq(a, b) && TextLeq(b, a) ==> a == b
  {
    if a != [] && b != [] {
      TextsCompare(a[1..], b[1..]);
      assert a == [a[0]] + a[1..] && b == [b[0]] + b[1..];
    }
  }

  lemma {:induction false} TextsChain(a: string, b: string, c: string)
    requires TextLeq(a, b) && TextLeq(b, c)
    ensures TextLeq(a, c)
  {
    if a != [] && a[0] == b[0] == c[0] {
      TextsChain(a[1..], b[1..], c[1..]);
    }
  }

  /** a stops at k, where b may go on, or has the smaller character there; before k they are the same. */
  predicate DiffersAt(a: string, b: string, k: nat) {
    k <= |a| && k <= |b| && a[..k] == b[..k] && (k == |a| || (k < |b| && a[k] < b[k]))
  }

  /** The order compares the first characters that differ; what ends first comes first. */
  lemma {:induction false} TextsDiffer(a: string, b: string)
    ensures TextLeq(a, b) <==> exists k: nat :: DiffersAt(a, b, k)
  {
    if a == [] {
      assert DiffersAt(a, b, 0);
    } else if b != [] {
      if a[0] < b[0] {
        assert DiffersAt(a, b, 0);
      } else if a[0] == b[0] {
        TextsDiffer(a[1..], b[1..]);
        if TextLeq(a[1..], b[1..]) {
          var k: nat :| DiffersAt(a[1..], b[1..], k);
          assert a[..k + 1] == [a[0]] + a[1..][..k] && b[..k + 1] == [b[0]] + b[1..][..k];
          assert DiffersAt(a, b, k + 1);
        }
        if k: nat :| DiffersAt(a, b, k) {
          assert k > 0 && a[1..][..k - 1] == a[..k][1..] && b[1..][..k - 1] == b[..k][1..];
          assert DiffersAt(a[1..], b[1..], k - 1);
        }
      } else if k: nat :| DiffersAt(a, b, k) {
        HeadsCompare(a, b, k);
      }
    }
  }

  lemma HeadsCompare(a: string, b: string, k: nat)
    requires a != [] && b != [] && DiffersAt(a, b, k)
    ensures a[0] <= b[0]
  {
    if k > 0 {
      assert a[0] == a[..k][0] == b[..k][0] == b[0];
    }
  }

  lemma NamesAreOrdered()
    ensures IsTotalPreorder(NameLeq)
    ensures forall a, b :: NameLeq(a, b) && NameLeq(b, a) ==> a == b
  {
    hide TextLeq;
    forall a: Name, b: Name ensures NameLeq(a, b) || NameLeq(b, a) {
      TextsCompare(a.text, b.text);
    }
    forall a: Name, b: Name, c: Name | NameLeq(a, b) && NameLeq(b, c) ensures NameLeq(a, c) {
      TextsChain(a.text, b.text, c.text);
    }
    forall a: Name, b: Name | NameLeq(a, b) && NameLeq(b, a) ensures a == b {
      TextsCompare(a.text, b.text);
    }
  }

  function SortedNames(s: seq<Name>): seq<Name> {
    Sorted(NameLeq, s)
  }

  lemma NamesSort(s: seq<Name>)
    ensures IsSorted(NameLeq, SortedNames(s))
  {
    NamesAreOrdered();
    SortSorts(NameLeq, s);
  }

  // ----- the order -----

  /** Everything registered that n depends on is among the first m of the line. */
  ghost predicate ReadyBy(g: Graph, line: seq<Name>, m: nat, n: Name)
    requires m <= |line|
  {
    forall u :: Edge(g, u, n) ==> u in line[..m]
  }

  /** While the first hi names of the line were taken, b was never ready before a. */
  ghost predicate ReadyNoLater(g: Graph, line: seq<Name>, hi: nat, a: Name, b: Name)
    requires hi <= |line|
  {
    forall m: nat :: m <= hi && ReadyBy(g, line, m, b) ==> ReadyBy(g, line, m, a)
  }

  /** a was ready before b, or together with it and comes first alphabetically. */
  ghost predicate Precedes(g: Graph, line: seq<Name>, hi: nat, a: Name, b: Name)
    requires hi <= |line|
  {
    ReadyNoLater(g, line, hi, a, b) && (ReadyNoLater(g, line, hi, b, a) ==> NameLeq(a, b))
  }

  ghost predicate InKahnOrder(g: Graph, line: seq<Name>, hi: nat)
    requires hi <= |line|
  {
    forall i, j :: 0 <= i < j < |line| ==> Precedes(g, line, hi, line[i], line[j])
  }

  ghost predicate IsKahnOrder(g: Graph, order: seq<Name>) {
    IsTopologicalOrder(g, order) && InKahnOrder(g, order, |order|)
  }

  lemma ReadyStays(g: Graph, line: seq<Name>, m: nat, k: nat, n: Name)
    requires m <= k <= |line| && ReadyBy(g, line, m, n)
    ensures ReadyBy(g, line, k, n)
  {
    forall u | Edge(g, u, n) ensures u in line[..k] {
      assert u in line[..m];
    }
  }

  /** What is ready depends on the part of the line already taken only. */
  lemma SamePrefix(g: Graph, line: seq<Name>, other: seq<Name>, m: nat, k: nat, n: Name)
    requires m <= k <= |line| && k <= |other| && line[..k] == other[..k]
    ensures ReadyBy(g, line, m, n) <==> ReadyBy(g, other, m, n)
  {
    assert line[..m] == line[..k][..m] == other[..m];
  }

  /** Two names ready once hi names are taken compare the same in every line that starts with those. */
  lemma ComparesTheSame(g: Graph, line: seq<Name>, other: seq<Name>, hi: nat, top: nat, top': nat, a: Name, b: Name)
    requires hi <= top <= |line| && hi <= top' <= |other| && line[..hi] == other[..hi]
    requires ReadyBy(g, line, hi, a)
    ensures ReadyNoLater(g, line, top, a, b) ==> ReadyNoLater(g, other, top', a, b)
  {
    hide ReadyBy;
    SamePrefix(g, line, other, hi, hi, a);
    if ReadyNoLater(g, line, top, a, b) {
      forall m: nat | m <= top' && ReadyBy(g, other, m, b) ensures ReadyBy(g, other, m, a) {
        if m <= hi {
          SamePrefix(g, line, other, m, hi, a);
          SamePrefix(g, line, other, m, hi, b);
        } else {
          ReadyStays(g, other, hi, m, a);
        }
      }
    }
  }

  lemma PrecedesTheSame(g: Graph, line: seq<Name>, other: seq<Name>, hi: nat, top: nat, top': nat, a: Name, b: Name)
    requires hi <= top <= |line| && hi <= top' <= |other| && line[..hi] == other[..hi]
    requires ReadyBy(g, line, hi, a) && ReadyBy(g, line, hi, b)
    ensures Precedes(g, line, top, a, b) ==> Precedes(g, other, top', a, b)
  {
    hide ReadyBy, ReadyNoLater;
    ComparesTheSame(g, line, other, hi, top, top', a, b);
    SamePrefix(g, line, other, hi, hi, b);
    ComparesTheSame(g, other, line, hi, top', top, b, a);
  }

  // ----- the order is unique -----

  /** What is listed at a position is ready once everything before it is taken. */
  lemma ListedIsReady(g: Graph, order: seq<Name>, k: nat)
    requires IsPartialOrder(g, order) && k < |order|
    ensures ReadyBy(g, order, k, order[k])
  {
  }

  lemma FollowsAt(g: Graph, order: seq<Name>, k: nat, b: Name)
    requires IsKahnOrder(g, order) && k < |order| && b in order && b !in order[..k] && b != order[k]
    ensures Precedes(g, order, |order|, order[k], b)
  {
    hide Precedes, IsTopologicalOrder;
    assert forall i :: 0 <= i < k ==> order[i] == order[..k][i] != b;
    var j :| 0 <= j < |order| && order[j] == b;
  }

  lemma DistinctPrefix(order: seq<Name>, k: nat)
    requires Distinct(order) && k < |order|
    ensures order[k] !in order[..k]
  {
  }

  /** Two orders that agree so far agree on the next name. */
  lemma NextIsForced(g: Graph, o: seq<Name>, p: seq<Name>, k: nat)
    requires IsKahnOrder(g, o) && IsKahnOrder(g, p)
    requires k < |o| && k < |p| && o[..k] == p[..k]
    ensures o[k] == p[k]
  {
    var a, b := o[k], p[k];
    if a != b {
      ListedIsReady(g, o, k);
      ListedIsReady(g, p, k);
      DistinctPrefix(o, k);
      DistinctPrefix(p, k);
      assert a in p && b in o;
      hide ReadyBy, ReadyNoLater, IsKahnOrder, IsTopologicalOrder, InKahnOrder, NameLeq;
      FollowsAt(g, o, k, b);
      FollowsAt(g, p, k, a);
      SamePrefix(g, p, o, k, k, b);
      PrecedesTheSame(g, o, p, k, |o|, |p|, a, b);
      NamesAreOrdered();
    }
  }

  lemma {:induction false} PrefixIsForced(g: Graph, o: seq<Name>, p: seq<Name>, k: nat)
    requires IsKahnOrder(g, o) && IsKahnOrder(g, p) && k <= |o| && k <= |p|
    ensures o[..k] == p[..k]
    decreases k
  {
    if k > 0 {
      hide IsKahnOrder;
      PrefixIsForced(g, o, p, k - 1);
      NextIsForced(g, o, p, k - 1);
      assert o[..k] == o[..k - 1] + [o[k - 1]] && p[..k] == p[..k - 1] + [p[k - 1]];
    }
  }

  /** A graph has at most one such order. */
  lemma KahnOrderIsUnique(g: Graph, o: seq<Name>, p: seq<Name>)
    requires IsKahnOrder(g, o) && IsKahnOrder(g, p)
    ensures o == p
  {
    NoLonger(g, o, p);
    NoLonger(g, p, o);
    hide IsKahnOrder;
    PrefixIsForced(g, o, p, |o|);
    assert o == o[..|o|] && p == p[..|o|];
  }

  lemma NoLonger(g: Graph, o: seq<Name>, p: seq<Name>)
    requires IsTopologicalOrder(g, o) && IsTopologicalOrder(g, p)
    ensures |o| <= |p|
  {
    if |o| > |p| {
      ElementsFit(p);
      forall k | 0 <= k < |o| ensures o[k] in Elements(p) {
        assert o[k] in p;
      }
      Pigeonhole(o, Elements(p));
    }
  }

  function Elements(s: seq<Name>): set<Name> {
    set x | x in s
  }

  lemma {:induction false} ElementsFit(s: seq<Name>)
    ensures |Elements(s)| <= |s|
  {
    if s != [] {
      var n := |s| - 1;
      ElementsFit(s[..n]);
      assert s == s[..n] + [s[n]];
      assert Elements(s) == Elements(s[..n]) + {s[n]};
    }
  }

  // ----- what the sort's queue keeps -----

  /** Exactly the names in the line are ready once hi of them are taken. */
  ghost predicate LinesUpReady(g: Graph, line: seq<Name>, hi: nat)
    requires hi <= |line|
  {
    forall n :: n in g ==> (ReadyBy(g, line, hi, n) <==> n in line)
  }

  /** Before anything is taken, the free names wait in alphabetical order. */
  lemma StartsInOrder(g: Graph, queue: seq<Name>)
    requires IsSorted(NameLeq, queue) && LinesUpReady(g, queue, 0) && forall k :: 0 <= k < |queue| ==> queue[k] in g
    ensures InKahnOrder(g, queue, 0)
  {
    hide NameLeq, ReadyBy;
    assert forall k :: 0 <= k < |queue| ==> queue[k] in queue;
  }

  /** Names already in line compare as before once one more name is taken and others join. */
  lemma EarlierStayOrdered(g: Graph, line: seq<Name>, added: seq<Name>, hi: nat, i: nat, j: nat)
    requires hi < |line| && InKahnOrder(g, line, hi) && LinesUpReady(g, line, hi)
    requires i < j < |line| && line[i] in g && line[j] in g
    ensures Precedes(g, line + added, hi + 1, line[i], line[j])
  {
    hide ReadyBy, Precedes;
    assert line[i] in line && line[j] in line;
    assert (line + added)[..hi] == line[..hi];
    PrecedesTheSame(g, line, line + added, hi, hi, hi + 1, line[i], line[j]);
  }

  /** A name that was ready when hi names were taken comes before one that was not. */
  lemma ReadyPrecedes(g: Graph, line: seq<Name>, hi: nat, a: Name, b: Name)
    requires hi < |line| && ReadyBy(g, line, hi, a) && !ReadyBy(g, line, hi, b)
    ensures Precedes(g, line, hi + 1, a, b)
  {
    ReadyStays(g, line, hi, hi + 1, a);
    forall m: nat | m <= hi && ReadyBy(g, line, m, b) ensures false {
      ReadyStays(g, line, m, hi, b);
    }
    hide ReadyBy;
  }

  /** Names that became ready together are ordered by the alphabet. */
  lemma TogetherPrecedes(g: Graph, line: seq<Name>, hi: nat, a: Name, b: Name)
    requires hi < |line| && !ReadyBy(g, line, hi, b) && ReadyBy(g, line, hi + 1, a) && NameLeq(a, b)
    ensures Precedes(g, line, hi + 1, a, b)
  {
    forall m: nat | m <= hi && ReadyBy(g, line, m, b) ensures false {
      ReadyStays(g, line, m, hi, b);
    }
    hide ReadyBy;
  }

  /** Taking the next name lets exactly the newly ready names join, alphabetically: the line stays in order. */
  lemma NextKeepsOrder(g: Graph, line: seq<Name>, added: seq<Name>, hi: nat)
    requires hi < |line| && InKahnOrder(g, line, hi) && LinesUpReady(g, line, hi)
    requires LinesUpReady(g, line + added, hi + 1) && Distinct(line + added) && IsSorted(NameLeq, added)
    requires forall k :: 0 <= k < |line + added| ==> (line + added)[k] in g
    ensures InKahnOrder(g, line + added, hi + 1)
  {
    hide LinesUpReady, Distinct, IsSorted, Precedes, NameLeq;
    var next := line + added;
    forall i, j | 0 <= i < j < |next| ensures Precedes(g, next, hi + 1, next[i], next[j]) {
      NextPair(g, line, added, hi, i, j);
    }
  }

  lemma NextPair(g: Graph, line: seq<Name>, added: seq<Name>, hi: nat, i: nat, j: nat)
    requires hi < |line| && InKahnOrder(g, line, hi) && LinesUpReady(g, line, hi) && i < j < |line + added|
    requires LinesUpReady(g, line + added, hi + 1) && Distinct(line + added) && IsSorted(NameLeq, added)
    requires (line + added)[i] in g && (line + added)[j] in g
    ensures Precedes(g, line + added, hi + 1, (line + added)[i], (line + added)[j])
  {
    hide *;
    if j < |line| {
      EarlierStayOrdered(g, line, added, hi, i, j);
    } else if i < |line| {
      NewFollowsOld(g, line, added, hi, i, j);
    } else {
      NewInOrder(g, line, added, hi, i, j);
    }
  }

  lemma NewFollowsOld(g: Graph, line: seq<Name>, added: seq<Name>, hi: nat, i: nat, j: nat)
    requires hi < |line| && i < |line| <= j < |line + added| && LinesUpReady(g, line, hi) && Distinct(line + added)
    requires line[i] in g && (line + added)[j] in g
    ensures Precedes(g, line + added, hi + 1, line[i], (line + added)[j])
  {
    var next := line + added;
    NewIsLate(g, line, added, hi, j);
    hide ReadyBy, Precedes, Distinct;
    assert line[i] in line && next[..hi] == line[..hi];
    SamePrefix(g, line, next, hi, hi, line[i]);
    ReadyPrecedes(g, next, hi, line[i], next[j]);
  }

  lemma NewInOrder(g: Graph, line: seq<Name>, added: seq<Name>, hi: nat, i: nat, j: nat)
    requires hi < |line| <= i < j < |line + added| && LinesUpReady(g, line, hi) && Distinct(line + added)
    requires LinesUpReady(g, line + added, hi + 1) && IsSorted(NameLeq, added)
    requires (line + added)[i] in g && (line + added)[j] in g
    ensures Precedes(g, line + added, hi + 1, (line + added)[i], (line + added)[j])
  {
    var next := line + added;
    NewIsLate(g, line, added, hi, j);
    hide ReadyBy, Precedes, Distinct, NameLeq;
    assert next[i] in next;
    assert added[i - |line|] == next[i] && added[j - |line|] == next[j];
    TogetherPrecedes(g, next, hi, next[i], next[j]);
  }

  lemma NewIsLate(g: Graph, line: seq<Name>, added: seq<Name>, hi: nat, j: nat)
    requires hi < |line| <= j < |line + added| && LinesUpReady(g, line, hi) && Distinct(line + added)
    requires (line + added)[j] in g
    ensures !ReadyBy(g, line + added, hi, (line + added)[j])
  {
    var next := line + added;
    assert forall i :: 0 <= i < |line| ==> line[i] == next[i] != next[j];
    assert next[j] !in line && next[..hi] == line[..hi];
    hide ReadyBy;
    SamePrefix(g, line, next, hi, hi, next[j]);
  }
}
