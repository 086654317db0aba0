/** Finite dependency graphs: walks, cycles, and topological orders. */
module Graphs {

  datatype Name = Name(text: string)

  /** Each registered name with the names it declares to depend on, unknown names and repeats included. */
  type Graph = map<Name, seq<Name>>

  /** v depends on u, and both are registered. */
  predicate Edge(g: Graph, u: Name, v: Name) {
    u in g && v in g && u in g[v]
  }

  /** Every next name depends on the one before it. */
  predicate IsWalk(g: Graph, p: seq<Name>) {
    && p != []
    && (forall k :: 0 <= k < |p| ==> p[k] in g)
    && (forall k :: 0 <= k < |p| - 1 ==> Edge(g, p[k], p[k + 1]))
  }

  predicate Connects(g: Graph, p: seq<Name>, u: Name, v: Name) {
    IsWalk(g, p) && |p| >= 2 && p[0] == u && p[|p| - 1] == v
  }

  /** v depends on u through one or more edges. */
  ghost predicate Reaches(g: Graph, u: Name, v: Name) {
    exists p :: Connects(g, p, u, v)
  }

  ghost predicate OnCycle(g: Graph, u: Name) {
    Reaches(g, u, u)
  }

  ghost predicate Cyclic(g: Graph) {
    exists u :: OnCycle(g, u)
  }

  /** u lies on a cycle or depends on one. */
  ghost predicate Blocked(g: Graph, u: Name) {
    exists c :: OnCycle(g, c) && (c == u || Reaches(g, c, u))
  }

  predicate Distinct(s: seq<Name>) {
    forall i, j :: 0 <= i < j < |s| ==> s[i] != s[j]
  }

  /** Distinct registered names, each behind everything registered that it depends on. */
  ghost predicate IsPartialOrder(g: Graph, order: seq<Name>) {
    && Distinct(order)
    && (forall i :: 0 <= i < |order| ==> order[i] in g)
    && (forall i, u :: 0 <= i < |order| && Edge(g, u, order[i]) ==> u in order[..i])
  }

  /** A partial order that leaves no registered name out. */
  ghost predicate IsTopologicalOrder(g: Graph, order: seq<Name>) {
    IsPartialOrder(g, order) && forall n :: n in g ==> n in order
  }

  lemma ReachesByEdge(g: Graph, u: Name, v: Name)
    requires Edge(g, u, v)
    ensures Reaches(g, u, v)
  {
    assert Connects(g, [u, v], u, v);
  }

  lemma ReachesTransitively(g: Graph, u: Name, v: Name, w: Name)
    requires Reaches(g, u, v) && Reaches(g, v, w)
    ensures Reaches(g, u, w)
  {
    var p :| Connects(g, p, u, v);
    var q :| Connects(g, q, v, w);
    var r := p + q[1..];
    forall k | 0 <= k < |r| - 1 ensures Edge(g, r[k], r[k + 1]) {
      if k < |p| - 1 {
        assert r[k] == p[k] && r[k + 1] == p[k + 1];
      } else {
        assert r[k] == q[k - |p| + 1] && r[k + 1] == q[k - |p| + 2];
      }
    }
    assert Connects(g, r, u, w);
  }

  /** The part of a walk between two positions. */
  lemma WalkBetween(g: Graph, p: seq<Name>, i: nat, j: nat)
    requires IsWalk(g, p) && i < j < |p|
    ensures Reaches(g, p[i], p[j])
  {
    var q := p[i..j + 1];
    forall k | 0 <= k < |q| - 1 ensures Edge(g, q[k], q[k + 1]) {
      assert q[k] == p[i + k] && q[k + 1] == p[i + k + 1];
    }
    assert Connects(g, q, p[i], p[j]);
  }

  /** Whatever an ordered name depends on, directly or not, is ordered before it. */
  lemma {:induction false} AncestorsComeBefore(g: Graph, order: seq<Name>, p: seq<Name>, i: nat)
    requires IsPartialOrder(g, order) && IsWalk(g, p) && |p| >= 2
    requires i < |order| && p[|p| - 1] == order[i]
    ensures p[0] in order[..i]
    decreases |p|
  {
    var u := p[|p| - 2];
    assert Edge(g, u, order[i]);
    var j :| 0 <= j < i && order[j] == u;
    if |p| > 2 {
      AncestorsComeBefore(g, order, p[..|p| - 1], j);
      assert order[..j] <= order[..i];
    }
  }

  /** No name on or behind a cycle can be part of a partial order. */
  lemma BlockedIsUnordered(g: Graph, order: seq<Name>, n: Name)
    requires IsPartialOrder(g, order) && Blocked(g, n)
    ensures n !in order
  {
    if n in order {
      var c :| OnCycle(g, c) && (c == n || Reaches(g, c, n));
      if c != n {
        var p :| Connects(g, p, c, n);
        var i :| 0 <= i < |order| && order[i] == n;
        AncestorsComeBefore(g, order, p, i);
      }
      assert c in order;
      var i :| 0 <= i < |order| && order[i] == c;
      var p :| Connects(g, p, c, c);
      AncestorsComeBefore(g, order, p, i);
    }
  }

  lemma OrderedIsAcyclic(g: Graph, order: seq<Name>)
    requires IsTopologicalOrder(g, order)
    ensures !Cyclic(g)
  {
    forall c | OnCycle(g, c) ensures false {
      var p :| Connects(g, p, c, c);
      assert c in g;
      assert Blocked(g, c);
      BlockedIsUnordered(g, order, c);
    }
  }

  predicate DependsWithin(g: Graph, s: set<Name>, v: Name) {
    exists u :: u in s && Edge(g, u, v)
  }

  /** Every name of the set depends on a name of the set. */
  predicate Stuck(g: Graph, s: set<Name>) {
    s <= g.Keys && forall v {:trigger DependsWithin(g, s, v)} :: v in s ==> DependsWithin(g, s, v)
  }

  lemma {:induction false} WalkBack(g: Graph, s: set<Name>, n: Name, len: nat) returns (p: seq<Name>)
    requires Stuck(g, s) && n in s && len >= 1
    ensures IsWalk(g, p) && |p| == len && p[len - 1] == n
    ensures forall k :: 0 <= k < len ==> p[k] in s
    decreases len
  {
    if len == 1 {
      p := [n];
    } else {
      assert DependsWithin(g, s, n);
      var u :| u in s && Edge(g, u, n);
      var q := WalkBack(g, s, u, len - 1);
      p := q + [n];
      forall k | 0 <= k < len - 1 ensures Edge(g, p[k], p[k + 1]) {
        assert k < len - 2 ==> p[k] == q[k] && p[k + 1] == q[k + 1];
      }
    }
  }

  /** A sequence longer than the set it draws from repeats itself. */
  lemma {:induction false} Pigeonhole(p: seq<Name>, s: set<Name>)
    requires |p| > |s| && forall k :: 0 <= k < |p| ==> p[k] in s
    ensures !Distinct(p)
    decreases |s|
  {
    if Distinct(p) {
      var n := |p| - 1;
      forall k | 0 <= k < n ensures p[..n][k] in s - {p[n]} {
        assert p[k] != p[n];
      }
      Pigeonhole(p[..n], s - {p[n]});
    }
  }

  /** Walking back inside a stuck set must come around: every name of it is on or behind a cycle. */
  lemma StuckIsBlocked(g: Graph, s: set<Name>, n: Name)
    requires Stuck(g, s) && n in s
    ensures Blocked(g, n)
  {
    var p := WalkBack(g, s, n, |s| + 1);
    Pigeonhole(p, s);
    var i, j :| 0 <= i < j < |p| && p[i] == p[j];
    WalkBetween(g, p, i, j);
    if j < |p| - 1 {
      WalkBetween(g, p, j, |p| - 1);
    }
    assert OnCycle(g, p[j]);
  }
}
