/**
  The collector registry's resolution order: a recursive depth-first sort with three-state marking
  that reports the chain of a cycle when there is one.
 */
module CollectorRegistries {
  import opened Wrappers
  import opened Sorting
  import opened Graphs

  datatype Collector = Collector(name: Name, priority: int, dependsOn: seq<Name>)

  type Collectors = map<Name, Collector>

  function DependencyGraph(collectors: Collectors): (g: Graph)
    ensures g.Keys == collectors.Keys
  {
    map n | n in collectors :: collectors[n].dependsOn
  }

  /** Lower priority numbers come first; an unknown name sorts as zero. */
  function PriorityOf(collectors: Collectors, n: Name): int {
    if n in collectors then collectors[n].priority else 0
  }

  function ByPriority(collectors: Collectors): (Name, Name) -> bool {
    (a, b) => PriorityOf(collectors, a) <= PriorityOf(collectors, b)
  }

  function Known(deps: seq<Name>, g: Graph): (r: seq<Name>)
    ensures forall n :: n in r <==> n in deps && n in g
  {
    if deps == [] then []
    else
      var k := |deps| - 1;
      Known(deps[..k], g) + if deps[k] in g then [deps[k]] else []
  }

  // ----- what a reported chain shows -----

  /** Each name depends on the next one. */
  predicate IsChain(g: Graph, chain: seq<Name>) {
    && (forall k :: 0 <= k < |chain| ==> chain[k] in g)
    && (forall k :: 0 <= k < |chain| - 1 ==> Edge(g, chain[k + 1], chain[k]))
  }

  /** A chain whose last name has occurred before. */
  predicate IsCycleReport(g: Graph, chain: seq<Name>) {
    |chain| >= 2 && IsChain(g, chain) && chain[|chain| - 1] in chain[..|chain| - 1]
  }

  lemma ReportShowsCycle(g: Graph, chain: seq<Name>)
    requires IsCycleReport(g, chain)
    ensures |chain| >= 2
    ensures OnCycle(g, chain[|chain| - 1])
  {
    var last := |chain| - 1;
    var i :| 0 <= i < last && chain[i] == chain[last];
    var p := seq(last - i + 1, k requires 0 <= k < last - i + 1 => chain[last - k]);
    forall k | 0 <= k < |p| - 1 ensures Edge(g, p[k], p[k + 1]) {
      assert Edge(g, chain[last - k - 1 + 1], chain[last - k - 1]);
    }
    assert Connects(g, p, chain[last], chain[last]);
  }

  // ----- the search -----

  datatype Mark = Visiting | Done

  type State = map<Name, Mark>

  /** `chain` holds the names being visited, outermost first; `ordered` the finished ones. */
  ghost predicate Consistent(g: Graph, state: State, ordered: seq<Name>, chain: seq<Name>) {
    && state.Keys <= g.Keys
    && Distinct(chain) && IsChain(g, chain)
    && (forall n :: n in chain <==> n in state && state[n] == Visiting)
    && IsPartialOrder(g, ordered)
    && (forall n :: n in ordered <==> n in state && state[n] == Done)
  }

  /** How many names have not been met yet. */
  function Unmet(g: Graph, state: State): nat {
    |g.Keys - state.Keys|
  }

  lemma MeetsOneMore(g: Graph, state: State, name: Name)
    requires name in g && name !in state
    ensures Unmet(g, state[name := Visiting]) < Unmet(g, state)
  {
    var after := state[name := Visiting];
    assert g.Keys - state.Keys == (g.Keys - after.Keys) + {name};
  }

  lemma EntersChain(g: Graph, state: State, ordered: seq<Name>, chain: seq<Name>, name: Name)
    requires Consistent(g, state, ordered, chain) && IsChain(g, chain + [name]) && name !in state
    ensures name in g && Consistent(g, state[name := Visiting], ordered, chain + [name])
  {
    var path := chain + [name];
    assert path[|chain|] == name;
    assert name in g;
    hide IsPartialOrder, IsChain, Edge;
    assert Distinct(path) by {
      assert forall k :: 0 <= k < |chain| ==> chain[k] in chain;
    }
    forall n ensures n in path <==> n in state[name := Visiting] && state[name := Visiting][n] == Visiting {
      assert n in path <==> n in chain || n == name;
    }
  }

  /** A name met again is either finished or closes a cycle of the chain. */
  lemma MetAgain(g: Graph, state: State, ordered: seq<Name>, chain: seq<Name>, name: Name)
    requires Consistent(g, state, ordered, chain) && IsChain(g, chain + [name]) && name in state
    ensures state[name] == Done ==> name in ordered
    ensures state[name] == Visiting ==> IsCycleReport(g, chain + [name])
  {
    hide IsPartialOrder;
    assert (chain + [name])[..|chain|] == chain;
  }

  /** Once everything it depends on is finished, the innermost name is too. */
  lemma LeavesChain(g: Graph, state: State, ordered: seq<Name>, chain: seq<Name>, name: Name)
    requires Consistent(g, state, ordered, chain + [name])
    requires forall u :: Edge(g, u, name) ==> u in ordered
    ensures Consistent(g, state[name := Done], ordered + [name], chain)
  {
    var path := chain + [name];
    assert path[|chain|] == name && name in path;
    OrderExtends(g, ordered, name);
    ChainShrinks(g, chain, name);
    hide IsPartialOrder;
    forall n ensures n in chain <==> n in path && n != name {
      assert n in path <==> n in chain || n == name;
      assert forall i :: 0 <= i < |chain| ==> chain[i] == path[i] != name;
    }
  }

  /** The names being finished on behalf of `name` are all needed by it. */
  ghost predicate NeededBy(g: Graph, ordered: seq<Name>, from: nat, name: Name) {
    forall k :: from <= k < |ordered| ==> ordered[k] == name || Reaches(g, ordered[k], name)
  }

  lemma NeededThrough(g: Graph, before: seq<Name>, after: seq<Name>, from: nat, dep: Name, name: Name)
    requires before <= after && Edge(g, dep, name)
    requires NeededBy(g, before, from, name) && NeededBy(g, after, |before|, dep)
    ensures NeededBy(g, after, from, name)
  {
    forall k | from <= k < |after| ensures after[k] == name || Reaches(g, after[k], name) {
      if k < |before| {
        assert before[k] == after[k];
      } else {
        ReachesByEdge(g, dep, name);
        if after[k] != dep {
          ReachesTransitively(g, after[k], dep, name);
        }
      }
    }
  }

  lemma NothingNeeded(g: Graph, ordered: seq<Name>, name: Name)
    ensures NeededBy(g, ordered, |ordered|, name)
    ensures forall before: seq<Name> :: NeededBy(g, before, |before|, name)
  {
  }

  lemma NeededItself(g: Graph, ordered: seq<Name>, from: nat, name: Name)
    requires NeededBy(g, ordered, from, name)
    ensures NeededBy(g, ordered + [name], from, name)
  {
  }

  lemma MarkingKeepsMet(g: Graph, state: State, name: Name)
    ensures Unmet(g, state[name := Done]) <= Unmet(g, state)
  {
    var after := state[name := Done];
    assert g.Keys - state.Keys == (g.Keys - after.Keys) + ((g.Keys - state.Keys) * {name});
  }

  class Resolver {
    const collectors: Collectors
    const g: Graph
    var state: State
    var ordered: seq<Name>

    constructor (collectors: Collectors)
      ensures this.collectors == collectors && g == DependencyGraph(collectors)
      ensures ordered == [] && Consistent(g, state, ordered, [])
    {
      this.collectors := collectors;
      g := DependencyGraph(collectors);
      state, ordered := map[], [];
    }

    /** Finishes `name` and everything it needs that is not finished yet, or reports a cycle. */
    method Visit(name: Name, chain: seq<Name>) returns (cycle: Option<seq<Name>>)
      requires g == DependencyGraph(collectors)
      requires Consistent(g, state, ordered, chain) && IsChain(g, chain + [name])
      modifies this
      ensures cycle.Some? ==> IsCycleReport(g, cycle.value)
      ensures cycle.None? ==> Consistent(g, state, ordered, chain) && name in ordered
      ensures cycle.None? ==> old(ordered) <= ordered && NeededBy(g, ordered, old(|ordered|), name)
      ensures Unmet(g, state) <= old(Unmet(g, state))
      decreases Unmet(g, state), 1
    {
      hide *;
      if name in state {
        MetAgain(g, state, ordered, chain, name);
        NothingNeeded(g, ordered, name);
        return if state[name] == Done then None else Some(chain + [name]);
      }
      EntersChain(g, state, ordered, chain, name);
      MeetsOneMore(g, state, name);
      state := state[name := Visiting];
      cycle := VisitDependencies(name, chain + [name]);
      if cycle.None? {
        DependenciesCover(name);
        LeavesChain(g, state, ordered, chain, name);
        NeededItself(g, ordered, old(|ordered|), name);
        MarkingKeepsMet(g, state, name);
        state := state[name := Done];
        ordered := ordered + [name];
      }
    }

    /** The known dependencies of `name`, most urgent first. */
    function DependenciesOf(name: Name): seq<Name>
      requires name in g
    {
      Sorted(ByPriority(collectors), Known(g[name], g))
    }

    lemma DependenciesCover(name: Name)
      requires name in g
      ensures forall u :: u in DependenciesOf(name) <==> Edge(g, u, name)
    {
      forall u ensures u in DependenciesOf(name) <==> Edge(g, u, name) {
        SortKeepsMembers(ByPriority(collectors), Known(g[name], g), u);
      }
    }

    method VisitDependencies(name: Name, path: seq<Name>) returns (cycle: Option<seq<Name>>)
      requires g == DependencyGraph(collectors) && name in g
      requires Consistent(g, state, ordered, path) && path != [] && path[|path| - 1] == name
      modifies this
      ensures cycle.Some? ==> IsCycleReport(g, cycle.value)
      ensures cycle.None? ==> Consistent(g, state, ordered, path)
      ensures cycle.None? ==> forall u :: u in DependenciesOf(name) ==> u in ordered
      ensures cycle.None? ==> old(ordered) <= ordered && NeededBy(g, ordered, old(|ordered|), name)
      ensures Unmet(g, state) <= old(Unmet(g, state))
      decreases Unmet(g, state), 2
    {
      hide *;
      DependenciesCover(name);
      NothingNeeded(g, ordered, name);
      var deps := DependenciesOf(name);
      var k := 0;
      while k < |deps|
        invariant 0 <= k <= |deps|
        invariant Consistent(g, state, ordered, path) && old(ordered) <= ordered
        invariant Unmet(g, state) <= old(Unmet(g, state))
        invariant forall j :: 0 <= j < k ==> deps[j] in ordered
        invariant NeededBy(g, ordered, old(|ordered|), name)
        decreases |deps| - k
      {
        assert deps[k] in deps;
        ChainExtends(g, state, ordered, path, deps[k]);
        ghost var before := ordered;
        cycle := Visit(deps[k], path);
        if cycle.Some? {
          return;
        }
        NeededThrough(g, before, ordered, old(|ordered|), deps[k], name);
        k := k + 1;
      }
      return None;
    }
  }

  lemma ChainExtends(g: Graph, state: State, ordered: seq<Name>, path: seq<Name>, d: Name)
    requires Consistent(g, state, ordered, path) && path != [] && Edge(g, d, path[|path| - 1])
    ensures IsChain(g, path + [d])
  {
  }

  lemma ChainShrinks(g: Graph, chain: seq<Name>, name: Name)
    requires IsChain(g, chain + [name]) && Distinct(chain + [name])
    ensures IsChain(g, chain) && Distinct(chain)
  {
    var path := chain + [name];
    assert forall k :: 0 <= k < |chain| ==> chain[k] == path[k];
  }

  lemma OrderExtends(g: Graph, ordered: seq<Name>, name: Name)
    requires IsPartialOrder(g, ordered) && name in g && name !in ordered
    requires forall u :: Edge(g, u, name) ==> u in ordered
    ensures IsPartialOrder(g, ordered + [name])
  {
    var order := ordered + [name];
    forall i, u | 0 <= i < |order| && Edge(g, u, order[i]) ensures u in order[..i] {
      if i < |ordered| {
        assert order[..i] == ordered[..i];
      } else {
        assert order[..i] == ordered;
      }
    }
  }

  // ----- priorities -----

  /** A collector runs ahead of a more urgent one only for the sake of something at least as urgent that needs it. */
  ghost predicate RespectsPriority(collectors: Collectors, order: seq<Name>) {
    forall i, j :: 0 <= i < j < |order| && PriorityOf(collectors, order[i]) > PriorityOf(collectors, order[j]) ==>
      NeededFor(collectors, order[i], PriorityOf(collectors, order[j]))
  }

  ghost predicate NeededFor(collectors: Collectors, u: Name, priority: int) {
    exists r :: r in collectors && PriorityOf(collectors, r) <= priority && Reaches(DependencyGraph(collectors), u, r)
  }

  /** n is the root or something it needs. */
  ghost predicate Serves(collectors: Collectors, n: Name, root: Name) {
    n == root || Reaches(DependencyGraph(collectors), n, root)
  }

  /** origin[k] is the root whose visit finished order[k]; roots were visited in priority order. */
  ghost predicate HasOrigins(collectors: Collectors, roots: seq<Name>, visited: nat, order: seq<Name>, origin: seq<nat>)
    requires visited <= |roots|
  {
    && |origin| == |order|
    && (forall k :: 0 <= k < |order| ==> origin[k] < visited)
    && (forall k :: 0 <= k < |order| ==> Serves(collectors, order[k], roots[origin[k]]))
    && (forall i, j :: 0 <= i < j < |order| ==> origin[i] <= origin[j])
    && (forall k, m :: 0 <= k < |order| && 0 <= m < visited && order[k] == roots[m] ==> origin[k] <= m)
  }

  lemma OriginsGivePriority(collectors: Collectors, roots: seq<Name>, order: seq<Name>, origin: seq<nat>)
    requires HasOrigins(collectors, roots, |roots|, order, origin)
    requires IsSorted(ByPriority(collectors), roots)
    requires forall n :: n in roots <==> n in collectors
    requires forall k :: 0 <= k < |order| ==> order[k] in collectors
    ensures RespectsPriority(collectors, order)
  {
    forall i, j | 0 <= i < j < |order| && PriorityOf(collectors, order[i]) > PriorityOf(collectors, order[j])
      ensures NeededFor(collectors, order[i], PriorityOf(collectors, order[j]))
    {
      assert order[j] in roots;
      var m :| 0 <= m < |roots| && roots[m] == order[j];
      var r := origin[i];
      assert r <= origin[j] <= m;
      assert r < m ==> ByPriority(collectors)(roots[r], roots[m]);
      assert roots[r] in roots;
    }
  }

  /** One root's visit appends names that it needs, so their origin is that root. */
  lemma ExtendOrigins(collectors: Collectors, roots: seq<Name>, k: nat, order: seq<Name>, origin: seq<nat>, order': seq<Name>)
    returns (origin': seq<nat>)
    requires k < |roots| && HasOrigins(collectors, roots, k, order, origin)
    requires order <= order' && Distinct(order') && forall m :: 0 <= m < k ==> roots[m] in order
    requires NeededBy(DependencyGraph(collectors), order', |order|, roots[k])
    ensures HasOrigins(collectors, roots, k + 1, order', origin')
  {
    assert forall j :: |order| <= j < |order'| ==> Serves(collectors, order'[j], roots[k]);
    hide Serves, NeededBy;
    origin' := origin + seq(|order'| - |order|, _ => k);
    forall j | 0 <= j < |order'| ensures Serves(collectors, order'[j], roots[origin'[j]]) {
      assert j < |order| ==> order'[j] == order[j];
    }
  }

  // ----- the registry -----

  class CollectorRegistry {
    /** Registration order; registering a name twice keeps the first collector. */
    var names: seq<Name>
    var collectors: Collectors

    ghost predicate Valid()
      reads this
    {
      && (forall n :: n in names <==> n in collectors)
      && forall n :: n in collectors ==> collectors[n].name == n
    }

    constructor ()
      ensures Valid() && collectors == map[]
    {
      names, collectors := [], map[];
    }

    method Register(collector: Collector)
      requires Valid()
      modifies this
      ensures Valid()
      ensures collectors == if collector.name in old(collectors) then old(collectors)
                            else old(collectors)[collector.name := collector]
      ensures names == if collector.name in old(collectors) then old(names) else old(names) + [collector.name]
    {
      if collector.name in collectors {
        return;
      }
      names := names + [collector.name];
      collectors := collectors[collector.name := collector];
    }

    /** Raises exactly on cyclic graphs, with a chain that exhibits the cycle. */
    method ResolutionOrder() returns (result: Result<seq<Name>, seq<Name>>)
      requires Valid()
      ensures result.Failure? <==> Cyclic(DependencyGraph(collectors))
      ensures result.Success? ==> IsTopologicalOrder(DependencyGraph(collectors), result.value)
      ensures result.Success? ==> RespectsPriority(collectors, result.value)
      ensures result.Failure? ==> IsCycleReport(DependencyGraph(collectors), result.error)
    {
      var roots := Sorted(ByPriority(collectors), names);
      RootsAreSorted();
      var resolver := new Resolver(collectors);
      result := VisitRoots(resolver, roots);
    }

    lemma RootsAreSorted()
      requires Valid()
      ensures var roots := Sorted(ByPriority(collectors), names);
        IsSorted(ByPriority(collectors), roots) && forall n :: n in roots <==> n in collectors
    {
      forall n ensures n in Sorted(ByPriority(collectors), names) <==> n in collectors {
        SortKeepsMembers(ByPriority(collectors), names, n);
      }
      SortSorts(ByPriority(collectors), names);
    }

    method VisitRoots(resolver: Resolver, roots: seq<Name>) returns (result: Result<seq<Name>, seq<Name>>)
      requires IsSorted(ByPriority(collectors), roots) && forall n :: n in roots <==> n in collectors
      requires resolver.collectors == collectors && resolver.g == DependencyGraph(collectors)
      requires resolver.ordered == [] && Consistent(resolver.g, resolver.state, resolver.ordered, [])
      requires this as object != resolver
      modifies resolver
      ensures result.Failure? <==> Cyclic(DependencyGraph(collectors))
      ensures result.Success? ==> IsTopologicalOrder(DependencyGraph(collectors), result.value)
      ensures result.Success? ==> RespectsPriority(collectors, result.value)
      ensures result.Failure? ==> IsCycleReport(DependencyGraph(collectors), result.error)
    {
      hide *;
      ghost var g := resolver.g;
      ghost var origin: seq<nat> := [];
      NoOrigins(collectors, roots);
      for k := 0 to |roots|
        invariant Consistent(g, resolver.state, resolver.ordered, [])
        invariant forall m :: 0 <= m < k ==> roots[m] in resolver.ordered
        invariant HasOrigins(collectors, roots, k, resolver.ordered, origin)
      {
        ghost var before := resolver.ordered;
        assert roots[k] in roots;
        StartsChain(g, roots[k]);
        var cycle := resolver.Visit(roots[k], []);
        if cycle.Some? {
          ReportShowsCycle(g, cycle.value);
          CycleMeansCyclic(g, cycle.value[|cycle.value| - 1]);
          return Failure(cycle.value);
        }
        OrderIsDistinct(g, resolver.state, resolver.ordered);
        origin := ExtendOrigins(collectors, roots, k, before, origin, resolver.ordered);
      }
      OrderIsDistinct(g, resolver.state, resolver.ordered);
      OriginsGivePriority(collectors, roots, resolver.ordered, origin);
      assert forall n :: n in g ==> n in roots;
      CompleteOrder(g, resolver.ordered);
      OrderedIsAcyclic(g, resolver.ordered);
      return Success(resolver.ordered);
    }
  }

  lemma NoOrigins(collectors: Collectors, roots: seq<Name>)
    ensures HasOrigins(collectors, roots, 0, [], [])
  {
  }

  lemma CycleMeansCyclic(g: Graph, c: Name)
    requires OnCycle(g, c)
    ensures Cyclic(g)
  {
  }

  lemma CompleteOrder(g: Graph, order: seq<Name>)
    requires IsPartialOrder(g, order) && forall n :: n in g ==> n in order
    ensures IsTopologicalOrder(g, order)
  {
  }

  lemma StartsChain(g: Graph, root: Name)
    requires root in g
    ensures IsChain(g, [] + [root])
  {
  }

  lemma OrderIsDistinct(g: Graph, state: State, order: seq<Name>)
    requires Consistent(g, state, order, [])
    ensures Distinct(order) && IsPartialOrder(g, order) && forall k :: 0 <= k < |order| ==> order[k] in g
  {
  }
}
