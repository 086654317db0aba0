/**
  The feature registry's dependency graph: a Kahn sort that rejects exactly the cyclic graphs, and the
  transitive dependents of a feature in recomputation order.
 */
module FeatureRegistries {
  import opened Wrappers
  import opened Sorting
  import opened Graphs
  import opened KahnOrders

  datatype FeatureDefinition = FeatureDefinition(featureName: Name, dependencies: seq<Name>)

  /** How often x occurs in s. */
  function Occurrences(s: seq<Name>, x: Name): nat {
    multiset(s)[x]
  }

  lemma OccurrencesAppend(s: seq<Name>, y: Name)
    ensures forall x :: Occurrences(s + [y], x) == Occurrences(s, x) + if x == y then 1 else 0
  {
  }

  lemma OccurrencesCons(y: Name, s: seq<Name>)
    ensures forall x :: Occurrences([y] + s, x) == Occurrences(s, x) + if x == y then 1 else 0
  {
  }

  // ----- in-degrees -----

  /** How many of the declared dependencies are registered and not yet done, repeats counted. */
  function CountOpen(deps: seq<Name>, known: set<Name>, done: set<Name>): nat {
    if deps == [] then 0
    else
      var n := |deps| - 1;
      CountOpen(deps[..n], known, done) + if deps[n] in known && deps[n] !in done then 1 else 0
  }

  lemma {:induction false} CountAfterDone(deps: seq<Name>, known: set<Name>, done: set<Name>, name: Name)
    requires name in known && name !in done
    ensures CountOpen(deps, known, done) == CountOpen(deps, known, done + {name}) + Occurrences(deps, name)
  {
    if deps != [] {
      var n := |deps| - 1;
      CountAfterDone(deps[..n], known, done, name);
      assert deps == deps[..n] + [deps[n]];
    }
  }

  lemma {:induction false} CountIsZero(deps: seq<Name>, known: set<Name>, done: set<Name>)
    ensures CountOpen(deps, known, done) == 0 <==> forall u :: u in deps && u in known ==> u in done
  {
    if deps != [] {
      var n := |deps| - 1;
      CountIsZero(deps[..n], known, done);
      assert deps == deps[..n] + [deps[n]];
    }
  }

  // ----- cardinality -----

  lemma DistinctFits(s: seq<Name>, keys: set<Name>)
    requires Distinct(s) && forall k :: 0 <= k < |s| ==> s[k] in keys
    ensures |s| <= |keys|
  {
    if |s| > |keys| {
      Pigeonhole(s, keys);
    }
  }

  lemma FullLengthCovers(s: seq<Name>, keys: set<Name>, x: Name)
    requires Distinct(s) && (forall k :: 0 <= k < |s| ==> s[k] in keys) && |s| == |keys| && x in keys
    ensures x in s
  {
    if x !in s {
      DistinctFits(s + [x], keys);
    }
  }

  // ----- Kahn's algorithm -----

  /** dependents[u] lists v once for every time v declares u. */
  predicate AreDependents(g: Graph, dependents: map<Name, seq<Name>>) {
    && dependents.Keys == g.Keys
    && (forall u, v :: u in g && v in g ==> Occurrences(dependents[u], v) == Occurrences(g[v], u))
    && (forall u, v :: u in g && v in dependents[u] ==> v in g)
  }

  /** One definition's edges: its in-degree goes up and it joins the lists of what it depends on. */
  method AddEdges(g: Graph, name: Name, inDegree: map<Name, int>, dependents: map<Name, seq<Name>>)
    returns (inDegree': map<Name, int>, dependents': map<Name, seq<Name>>)
    requires name in g && inDegree.Keys == dependents.Keys == g.Keys && inDegree[name] == 0
    requires forall u, v :: u in g && v in dependents[u] ==> v in g
    ensures inDegree' == inDegree[name := CountOpen(g[name], g.Keys, {})]
    ensures ListsPart(g, dependents, dependents', name, g[name])
  {
    var deps := g[name];
    inDegree', dependents' := inDegree, dependents;
    for j := 0 to |deps|
      invariant inDegree' == inDegree[name := CountOpen(deps[..j], g.Keys, {})]
      invariant ListsPart(g, dependents, dependents', name, deps[..j])
    {
      hide CountOpen, Occurrences, ListsPart;
      var upstream := deps[j];
      assert deps[..j + 1] == deps[..j] + [upstream];
      ListUpstream(g, dependents, dependents', name, deps[..j], upstream);
      if upstream in g {
        inDegree' := inDegree'[name := inDegree'[name] + 1];
        dependents' := dependents'[upstream := dependents'[upstream] + [name]];
      }
    }
    assert deps[..|deps|] == deps;
  }

  /** after extends before by one entry `name` for every registered item of deps. */
  ghost predicate ListsPart(g: Graph, before: map<Name, seq<Name>>, after: map<Name, seq<Name>>, name: Name, deps: seq<Name>)
  {
    && before.Keys == after.Keys == g.Keys
    && (forall u, v :: u in g && v in g ==>
      Occurrences(after[u], v) == Occurrences(before[u], v) + if v == name then Occurrences(deps, u) else 0)
    && TargetsKnown(g, after)
  }

  ghost predicate TargetsKnown(g: Graph, lists: map<Name, seq<Name>>)
    requires lists.Keys == g.Keys
  {
    forall u, v :: u in g && v in lists[u] ==> v in g
  }

  lemma ListUpstream(g: Graph, before: map<Name, seq<Name>>, after: map<Name, seq<Name>>, name: Name,
                     deps: seq<Name>, upstream: Name)
    requires name in g && ListsPart(g, before, after, name, deps)
    ensures after.Keys == g.Keys
    ensures upstream !in g ==> ListsPart(g, before, after, name, deps + [upstream])
    ensures upstream in g ==>
      ListsPart(g, before, after[upstream := after[upstream] + [name]], name, deps + [upstream])
  {
    hide Occurrences, TargetsKnown;
    OccurrencesAppend(deps, upstream);
    if upstream in g {
      OccurrencesAppend(after[upstream], name);
      TargetsStayKnown(g, after, upstream, name);
    }
  }

  lemma TargetsStayKnown(g: Graph, lists: map<Name, seq<Name>>, upstream: Name, name: Name)
    requires lists.Keys == g.Keys && TargetsKnown(g, lists) && upstream in g && name in g
    ensures TargetsKnown(g, lists[upstream := lists[upstream] + [name]])
  {
  }

  method BuildEdges(g: Graph, names: seq<Name>) returns (inDegree: map<Name, int>, dependents: map<Name, seq<Name>>)
    requires Distinct(names) && Elements(names) == g.Keys
    ensures inDegree == map n | n in g :: CountOpen(g[n], g.Keys, {})
    ensures dependents.Keys == g.Keys && AreDependents(g, dependents)
  {
    hide *;
    inDegree, dependents := map n | n in g :: 0, map n | n in g :: [];
    NothingListed(g);
    assert names[..0] == [];
    for i := 0 to |names|
      invariant CountsNames(g, inDegree, names[..i]) && ListsNames(g, dependents, names[..i])
    {
      var name := names[i];
      assert names[..i + 1] == names[..i] + [name];
      NextName(g, inDegree, dependents, names, i);
      ghost var before := dependents;
      inDegree, dependents := AddEdges(g, name, inDegree, dependents);
      ListName(g, before, dependents, names[..i], name);
    }
    assert names[..|names|] == names;
    AllListed(g, inDegree, dependents, names);
  }

  lemma NothingListed(g: Graph)
    ensures CountsNames(g, map n | n in g :: 0, []) && ListsNames(g, map n | n in g :: [], [])
  {
  }

  lemma AllListed(g: Graph, inDegree: map<Name, int>, dependents: map<Name, seq<Name>>, names: seq<Name>)
    requires Elements(names) == g.Keys && CountsNames(g, inDegree, names) && ListsNames(g, dependents, names)
    ensures inDegree == map n | n in g :: CountOpen(g[n], g.Keys, {})
    ensures dependents.Keys == g.Keys && AreDependents(g, dependents)
  {
    assert forall n :: n in g ==> n in Elements(names);
    hide CountOpen, Occurrences;
  }

  /** The in-degrees of `names` have been counted; the others are still zero. */
  ghost predicate CountsNames(g: Graph, inDegree: map<Name, int>, names: seq<Name>) {
    && inDegree.Keys == g.Keys
    && forall n :: n in g ==> inDegree[n] == if n in names then CountOpen(g[n], g.Keys, {}) else 0
  }

  lemma NextName(g: Graph, inDegree: map<Name, int>, dependents: map<Name, seq<Name>>, names: seq<Name>, i: nat)
    requires Distinct(names) && Elements(names) == g.Keys && i < |names|
    requires CountsNames(g, inDegree, names[..i]) && ListsNames(g, dependents, names[..i])
    ensures names[i] in g && names[i] !in names[..i]
    ensures inDegree.Keys == dependents.Keys == g.Keys && inDegree[names[i]] == 0
    ensures forall u, v :: u in g && v in dependents[u] ==> v in g
    ensures CountsNames(g, inDegree[names[i] := CountOpen(g[names[i]], g.Keys, {})], names[..i] + [names[i]])
  {
    hide CountOpen, Occurrences;
    assert names[i] in Elements(names);
  }

  /** The definitions of `names` have been listed under everything they depend on. */
  ghost predicate ListsNames(g: Graph, dependents: map<Name, seq<Name>>, names: seq<Name>) {
    && dependents.Keys == g.Keys
    && (forall u, v :: u in g && v in g ==>
      Occurrences(dependents[u], v) == if v in names then Occurrences(g[v], u) else 0)
    && (forall u, v :: u in g && v in dependents[u] ==> v in g)
  }

  lemma ListName(g: Graph, before: map<Name, seq<Name>>, after: map<Name, seq<Name>>, names: seq<Name>, name: Name)
    requires name in g && name !in names && ListsNames(g, before, names) && ListsPart(g, before, after, name, g[name])
    ensures ListsNames(g, after, names + [name])
  {
    hide Occurrences;
  }

  /** What holds whenever the queue is inspected. */
  ghost predicate KahnInvariant(g: Graph, inDegree: map<Name, int>, queue: seq<Name>, ordered: seq<Name>) {
    && inDegree.Keys == g.Keys
    && IsPartialOrder(g, ordered)
    && IsFrontier(g, inDegree, queue, ordered)
    && InKahnOrder(g, ordered + queue, |ordered|)
    && forall n :: n in g ==> inDegree[n] == CountOpen(g[n], g.Keys, Elements(ordered))
  }

  /** The names of in-degree zero are those whose dependencies have all been ordered. */
  lemma FrontierIsReady(g: Graph, inDegree: map<Name, int>, queue: seq<Name>, ordered: seq<Name>)
    requires inDegree.Keys == g.Keys && IsFrontier(g, inDegree, queue, ordered)
    requires forall n :: n in g ==> inDegree[n] == CountOpen(g[n], g.Keys, Elements(ordered))
    ensures LinesUpReady(g, ordered + queue, |ordered|)
  {
    assert (ordered + queue)[..|ordered|] == ordered;
    hide CountOpen;
    forall n | n in g ensures ReadyBy(g, ordered + queue, |ordered|, n) <==> n in ordered + queue {
      CountIsZero(g[n], g.Keys, Elements(ordered));
    }
  }

  /** Exactly the names of in-degree zero have been ordered or queued, each once. */
  ghost predicate IsFrontier(g: Graph, inDegree: map<Name, int>, queue: seq<Name>, ordered: seq<Name>)
    requires inDegree.Keys == g.Keys
  {
    && Distinct(ordered + queue)
    && (forall k :: 0 <= k < |ordered + queue| ==> (ordered + queue)[k] in g)
    && (forall n :: n in g ==> (inDegree[n] == 0 <==> n in ordered + queue))
  }

  method InitialQueue(g: Graph, names: seq<Name>, inDegree: map<Name, int>) returns (queue: seq<Name>)
    requires Distinct(names) && Elements(names) == g.Keys == inDegree.Keys
    requires inDegree == map n | n in g :: CountOpen(g[n], g.Keys, {})
    ensures KahnInvariant(g, inDegree, queue, [])
  {
    var free: seq<Name> := [];
    for i := 0 to |names|
      invariant Distinct(free)
      invariant forall n :: n in free <==> n in names[..i] && inDegree[n] == 0
    {
      assert names[i] in Elements(names);
      assert names[..i + 1] == names[..i] + [names[i]];
      if inDegree[names[i]] == 0 {
        free := free + [names[i]];
      }
    }
    assert names[..|names|] == names;
    hide *;
    queue := SortedNames(free);
    FreeNamesWait(g, names, inDegree, free);
  }

  lemma FreeNamesWait(g: Graph, names: seq<Name>, inDegree: map<Name, int>, free: seq<Name>)
    requires Elements(names) == g.Keys == inDegree.Keys
    requires inDegree == map n | n in g :: CountOpen(g[n], g.Keys, {})
    requires Distinct(free) && forall n :: n in free <==> n in names && inDegree[n] == 0
    ensures KahnInvariant(g, inDegree, SortedNames(free), [])
  {
    hide CountOpen, SortedNames, InKahnOrder, LinesUpReady, IsSorted, NameLeq;
    var queue := SortedNames(free);
    SortedNamesAreSame(free);
    assert [] + queue == queue;
    assert Elements([]) == {};
    MembersAreKnown(names, g.Keys);
    NamesSort(free);
    FrontierIsReady(g, inDegree, queue, []);
    StartsInOrder(g, queue);
  }

  lemma MembersAreKnown(names: seq<Name>, keys: set<Name>)
    requires Elements(names) == keys
    ensures forall n :: n in keys <==> n in names
  {
    assert forall n :: n in names <==> n in Elements(names);
  }

  /** Moving the head of the queue to the order keeps it a partial order. */
  lemma HeadMayBeOrdered(g: Graph, inDegree: map<Name, int>, queue: seq<Name>, ordered: seq<Name>)
    requires KahnInvariant(g, inDegree, queue, ordered) && queue != []
    ensures queue[0] in g && queue[0] !in ordered
    ensures IsPartialOrder(g, ordered + [queue[0]])
  {
    var name := queue[0];
    assert (ordered + queue)[|ordered|] == name;
    assert name in ordered + queue && inDegree[name] == 0;
    CountIsZero(g[name], g.Keys, Elements(ordered));
    hide CountOpen;
    assert forall i :: 0 <= i < |ordered| ==> ordered[i] == (ordered + queue)[i] != name;
    var order := ordered + [name];
    forall i, u | 0 <= i < |order| && Edge(g, u, order[i]) ensures u in order[..i] {
      if i == |ordered| {
        assert order[..i] == ordered;
        assert u in Elements(ordered);
      } else {
        assert order[..i] == ordered[..i];
      }
    }
    forall i, j | 0 <= i < j < |order| ensures order[i] != order[j] {
      assert (ordered + queue)[i] == order[i] && (ordered + queue)[j] == order[j];
    }
  }

  /** Releasing the dependents of a finished name lowers each in-degree once per declaration. */
  method Release(g: Graph, downstream: seq<Name>, inDegree: map<Name, int>, queue: seq<Name>, ghost ordered: seq<Name>)
    returns (inDegree': map<Name, int>, queue': seq<Name>)
    requires inDegree.Keys == g.Keys && IsFrontier(g, inDegree, queue, ordered)
    requires IsSorted(NameLeq, downstream) && forall n :: n in downstream ==> n in g
    requires forall n :: n in g ==>
      inDegree[n] == CountOpen(g[n], g.Keys, Elements(ordered)) + Occurrences(downstream, n)
    ensures inDegree'.Keys == g.Keys && IsFrontier(g, inDegree', queue', ordered)
    ensures forall n :: n in g ==> inDegree'[n] == CountOpen(g[n], g.Keys, Elements(ordered))
    ensures queue <= queue' && IsSorted(NameLeq, queue'[|queue|..])
  {
    hide Occurrences, IsFrontier, Elements, CountOpen, JoinInOrder, NameLeq;
    inDegree', queue' := inDegree, queue;
    NoneJoined(queue, downstream);
    assert downstream[0..] == downstream;
    for k := 0 to |downstream|
      invariant inDegree'.Keys == g.Keys && IsFrontier(g, inDegree', queue', ordered)
      invariant Awaits(g, inDegree', ordered, downstream[k..])
      invariant JoinInOrder(queue, queue', downstream, k)
    {
      var d := downstream[k];
      assert downstream[k..] == [d] + downstream[k + 1..];
      AwaitsLess(g, inDegree', ordered, d, downstream[k + 1..]);
      assert d in downstream;
      LowerDegree(g, inDegree', queue', ordered, d);
      JoinNext(queue, queue', downstream, k);
      inDegree' := inDegree'[d := inDegree'[d] - 1];
      if inDegree'[d] == 0 {
        queue' := queue' + [d];
      }
    }
    assert downstream[|downstream|..] == [];
    AwaitsNothing(g, inDegree', ordered);
    AllJoined(queue, queue', downstream);
  }

  /** Names have joined the queue in alphabetical order, none behind those still to be released. */
  ghost predicate JoinInOrder(queue: seq<Name>, queue': seq<Name>, downstream: seq<Name>, k: nat) {
    && queue <= queue'
    && IsSorted(NameLeq, queue'[|queue|..])
    && forall i, j :: |queue| <= i < |queue'| && k <= j < |downstream| ==> NameLeq(queue'[i], downstream[j])
  }

  lemma NoneJoined(queue: seq<Name>, downstream: seq<Name>)
    ensures JoinInOrder(queue, queue, downstream, 0)
  {
  }

  lemma AllJoined(queue: seq<Name>, queue': seq<Name>, downstream: seq<Name>)
    requires JoinInOrder(queue, queue', downstream, |downstream|)
    ensures queue <= queue' && IsSorted(NameLeq, queue'[|queue|..])
  {
  }

  lemma JoinNext(queue: seq<Name>, queue': seq<Name>, downstream: seq<Name>, k: nat)
    requires JoinInOrder(queue, queue', downstream, k) && k < |downstream| && IsSorted(NameLeq, downstream)
    ensures JoinInOrder(queue, queue', downstream, k + 1)
    ensures JoinInOrder(queue, queue' + [downstream[k]], downstream, k + 1)
  {
    hide NameLeq;
    var next := queue' + [downstream[k]];
    assert next[|queue|..] == queue'[|queue|..] + [downstream[k]];
  }

  /** Each in-degree is the open count plus the releases still to come. */
  ghost predicate Awaits(g: Graph, inDegree: map<Name, int>, ordered: seq<Name>, pending: seq<Name>)
    requires inDegree.Keys == g.Keys
  {
    forall n :: n in g ==> inDegree[n] == CountOpen(g[n], g.Keys, Elements(ordered)) + Occurrences(pending, n)
  }

  lemma AwaitsLess(g: Graph, inDegree: map<Name, int>, ordered: seq<Name>, d: Name, rest: seq<Name>)
    requires inDegree.Keys == g.Keys && d in g && Awaits(g, inDegree, ordered, [d] + rest)
    ensures inDegree[d] > 0 && Awaits(g, inDegree[d := inDegree[d] - 1], ordered, rest)
  {
    OccurrencesCons(d, rest);
    hide Occurrences, CountOpen, Elements;
  }

  lemma AwaitsNothing(g: Graph, inDegree: map<Name, int>, ordered: seq<Name>)
    requires inDegree.Keys == g.Keys && Awaits(g, inDegree, ordered, [])
    ensures forall n :: n in g ==> inDegree[n] == CountOpen(g[n], g.Keys, Elements(ordered))
  {
    hide CountOpen, Elements;
  }

  lemma LowerDegree(g: Graph, inDegree: map<Name, int>, queue: seq<Name>, ordered: seq<Name>, d: Name)
    requires inDegree.Keys == g.Keys && IsFrontier(g, inDegree, queue, ordered)
    requires d in g && inDegree[d] > 0
    ensures inDegree[d] == 1 ==> IsFrontier(g, inDegree[d := 0], queue + [d], ordered)
    ensures inDegree[d] > 1 ==> IsFrontier(g, inDegree[d := inDegree[d] - 1], queue, ordered)
  {
    assert d !in ordered + queue;
    assert ordered + (queue + [d]) == (ordered + queue) + [d];
    if inDegree[d] == 1 {
      var after := inDegree[d := 0];
      var line := ordered + (queue + [d]);
      forall i, j | 0 <= i < j < |line| ensures line[i] != line[j] {
        assert i < |ordered + queue| && line[i] == (ordered + queue)[i];
      }
      forall n | n in g ensures after[n] == 0 <==> n in line {
      }
    }
  }

  /** The names on a cycle or downstream of one, once each and in alphabetical order. */
  ghost predicate NamesBlocked(g: Graph, error: seq<Name>) {
    && Distinct(error) && IsSorted(NameLeq, error)
    && forall n :: n in error <==> n in g && Blocked(g, n)
  }

  method Kahn(g: Graph, names: seq<Name>) returns (result: Result<seq<Name>, seq<Name>>)
    requires Distinct(names) && Elements(names) == g.Keys
    ensures result.Failure? <==> Cyclic(g)
    ensures result.Success? ==> IsKahnOrder(g, result.value)
    ensures result.Failure? ==> NamesBlocked(g, result.error)
  {
    var inDegree, dependents := BuildEdges(g, names);
    var queue := InitialQueue(g, names, inDegree);
    var ordered: seq<Name> := [];
    while queue != []
      invariant KahnInvariant(g, inDegree, queue, ordered)
      decreases |g.Keys| - |ordered|
    {
      hide *;
      inDegree, queue, ordered := OrderHead(g, dependents, inDegree, queue, ordered);
    }
    result := Verdict(g, names, inDegree, ordered);
  }

  method OrderHead(g: Graph, dependents: map<Name, seq<Name>>, inDegree: map<Name, int>, queue: seq<Name>, ordered: seq<Name>)
    returns (inDegree': map<Name, int>, queue': seq<Name>, ordered': seq<Name>)
    requires dependents.Keys == g.Keys && AreDependents(g, dependents)
    requires KahnInvariant(g, inDegree, queue, ordered) && queue != []
    ensures KahnInvariant(g, inDegree', queue', ordered')
    ensures |ordered| < |ordered'| <= |g.Keys|
  {
    hide CountOpen, Occurrences, Elements, SortedNames, IsPartialOrder, AreDependents, IsFrontier, Distinct, InKahnOrder,
      IsSorted, NameLeq;
    HeadMayBeOrdered(g, inDegree, queue, ordered);
    var name := queue[0];
    var downstream := SortedNames(dependents[name]);
    ordered' := ordered + [name];
    HeadMoves(g, inDegree, queue, ordered);
    HeadCounts(g, dependents, inDegree, ordered, name);
    NamesSort(dependents[name]);
    FrontierIsReady(g, inDegree, queue, ordered);
    inDegree', queue' := Release(g, downstream, inDegree, queue[1..], ordered');
    FrontierIsReady(g, inDegree', queue', ordered');
    LineStaysInOrder(g, inDegree', queue, ordered, queue');
  }

  lemma LineStaysInOrder(g: Graph, inDegree': map<Name, int>, queue: seq<Name>, ordered: seq<Name>, queue': seq<Name>)
    requires queue != [] && queue[1..] <= queue' && IsSorted(NameLeq, queue'[|queue[1..]|..])
    requires InKahnOrder(g, ordered + queue, |ordered|) && LinesUpReady(g, ordered + queue, |ordered|)
    requires inDegree'.Keys == g.Keys && IsFrontier(g, inDegree', queue', ordered + [queue[0]])
    requires LinesUpReady(g, ordered + [queue[0]] + queue', |ordered| + 1)
    ensures InKahnOrder(g, ordered + [queue[0]] + queue', |ordered| + 1)
  {
    hide *;
    var added := queue'[|queue[1..]|..];
    LineGrows(queue, ordered, queue');
    FrontierMembers(g, inDegree', queue', ordered + [queue[0]]);
    NextKeepsOrder(g, ordered + queue, added, |ordered|);
  }

  lemma LineGrows(queue: seq<Name>, ordered: seq<Name>, queue': seq<Name>)
    requires queue != [] && queue[1..] <= queue'
    ensures ordered + [queue[0]] + queue' == (ordered + queue) + queue'[|queue[1..]|..]
  {
    assert queue == [queue[0]] + queue[1..];
    assert queue' == queue[1..] + queue'[|queue[1..]|..];
  }

  lemma FrontierMembers(g: Graph, inDegree: map<Name, int>, queue: seq<Name>, ordered: seq<Name>)
    requires inDegree.Keys == g.Keys && IsFrontier(g, inDegree, queue, ordered)
    ensures Distinct(ordered + queue) && forall k :: 0 <= k < |ordered + queue| ==> (ordered + queue)[k] in g
  {
  }

  lemma HeadMoves(g: Graph, inDegree: map<Name, int>, queue: seq<Name>, ordered: seq<Name>)
    requires inDegree.Keys == g.Keys && IsFrontier(g, inDegree, queue, ordered) && queue != []
    ensures IsFrontier(g, inDegree, queue[1..], ordered + [queue[0]])
    ensures |ordered| < |g.Keys|
  {
    assert ordered + queue == (ordered + [queue[0]]) + queue[1..];
    DistinctFits(ordered + queue, g.Keys);
  }

  /** Ordering a name leaves each in-degree above the open count by what its release will take away. */
  lemma HeadCounts(g: Graph, dependents: map<Name, seq<Name>>, inDegree: map<Name, int>, ordered: seq<Name>, name: Name)
    requires AreDependents(g, dependents) && inDegree.Keys == g.Keys == dependents.Keys && name in g && name !in ordered
    requires forall n :: n in g ==> inDegree[n] == CountOpen(g[n], g.Keys, Elements(ordered))
    ensures forall n :: n in SortedNames(dependents[name]) ==> n in g
    ensures forall n :: n in g ==>
      inDegree[n] == CountOpen(g[n], g.Keys, Elements(ordered + [name])) + Occurrences(SortedNames(dependents[name]), n)
  {
    var downstream := SortedNames(dependents[name]);
    forall n | n in downstream ensures n in g {
      SortKeepsMembers(NameLeq, dependents[name], n);
    }
    SortKeepsElements(NameLeq, dependents[name]);
    assert forall n :: Occurrences(downstream, n) == Occurrences(dependents[name], n);
    assert Elements(ordered + [name]) == Elements(ordered) + {name};
    hide Occurrences, CountOpen, SortedNames;
    forall n | n in g
      ensures inDegree[n] == CountOpen(g[n], g.Keys, Elements(ordered + [name])) + Occurrences(downstream, n)
    {
      CountAfterDone(g[n], g.Keys, Elements(ordered), name);
    }
  }

  /** The queue has run dry: either everything is ordered, or what is left is stuck. */
  method Verdict(g: Graph, names: seq<Name>, ghost inDegree: map<Name, int>, ordered: seq<Name>)
    returns (result: Result<seq<Name>, seq<Name>>)
    requires Distinct(names) && Elements(names) == g.Keys
    requires KahnInvariant(g, inDegree, [], ordered)
    ensures result.Failure? <==> Cyclic(g)
    ensures result.Success? ==> IsKahnOrder(g, result.value)
    ensures result.Failure? ==> NamesBlocked(g, result.error)
  {
    hide Blocked, Cyclic, KahnInvariant, Elements, IsTopologicalOrder;
    forall n | n in g ensures Blocked(g, n) <==> n !in ordered {
      RemainderIsBlocked(g, inDegree, ordered, n);
    }
    SameSize(names, g.Keys);
    OrderIsPartial(g, inDegree, ordered);
    if |ordered| != |names| {
      var left := LeftOver(g, names, ordered);
      SomethingIsLeft(g, ordered);
      return Failure(left);
    }
    FullOrder(g, ordered);
    assert IsKahnOrder(g, ordered) by { FinalOrder(g, inDegree, ordered); }
    OrderedIsAcyclic(g, ordered);
    return Success(ordered);
  }

  lemma OrderIsPartial(g: Graph, inDegree: map<Name, int>, ordered: seq<Name>)
    requires KahnInvariant(g, inDegree, [], ordered)
    ensures IsPartialOrder(g, ordered) && forall k :: 0 <= k < |ordered| ==> ordered[k] in g
  {
    assert ordered + [] == ordered;
  }

  lemma FinalOrder(g: Graph, inDegree: map<Name, int>, ordered: seq<Name>)
    requires KahnInvariant(g, inDegree, [], ordered) && IsTopologicalOrder(g, ordered)
    ensures IsKahnOrder(g, ordered)
  {
    assert ordered + [] == ordered;
  }

  lemma FullOrder(g: Graph, ordered: seq<Name>)
    requires IsPartialOrder(g, ordered) && (forall k :: 0 <= k < |ordered| ==> ordered[k] in g) && |ordered| == |g.Keys|
    ensures IsTopologicalOrder(g, ordered)
  {
    forall n | n in g ensures n in ordered {
      FullLengthCovers(ordered, g.Keys, n);
    }
  }

  /** The registered names that were not ordered, sorted. */
  method LeftOver(g: Graph, names: seq<Name>, ordered: seq<Name>) returns (left: seq<Name>)
    requires Distinct(names) && Elements(names) == g.Keys
    ensures Distinct(left) && IsSorted(NameLeq, left) && forall n :: n in left <==> n in g && n !in ordered
  {
    hide NameLeq, SortedNames;
    var found: seq<Name> := [];
    for i := 0 to |names|
      invariant Distinct(found)
      invariant forall n :: n in found <==> n in names[..i] && n !in ordered
    {
      assert names[..i + 1] == names[..i] + [names[i]];
      if names[i] !in ordered {
        found := found + [names[i]];
      }
    }
    assert names[..|names|] == names;
    left := SortedNames(found);
    NamesSort(found);
    SortedNamesAreSame(found);
    forall n ensures n in left <==> n in g && n !in ordered {
      assert n in Elements(names) <==> n in names;
    }
  }

  lemma SortedNamesAreSame(found: seq<Name>)
    requires Distinct(found)
    ensures Distinct(SortedNames(found)) && forall n :: n in SortedNames(found) <==> n in found
  {
    SortKeepsDistinct(NameLeq, found);
    forall n ensures n in SortedNames(found) <==> n in found {
      SortKeepsMembers(NameLeq, found, n);
    }
  }

  lemma SameSize(names: seq<Name>, keys: set<Name>)
    requires Distinct(names) && Elements(names) == keys
    ensures |names| == |keys|
    decreases |names|
  {
    if names != [] {
      var n := |names| - 1;
      assert names == names[..n] + [names[n]];
      assert Elements(names[..n]) == keys - {names[n]};
      SameSize(names[..n], keys - {names[n]});
    }
  }

  lemma RemainderIsBlocked(g: Graph, inDegree: map<Name, int>, ordered: seq<Name>, n: Name)
    requires KahnInvariant(g, inDegree, [], ordered) && n in g
    ensures Blocked(g, n) <==> n !in ordered
  {
    if n in ordered {
      if Blocked(g, n) {
        BlockedIsUnordered(g, ordered, n);
      }
    } else {
      var s := g.Keys - Elements(ordered);
      assert ordered + [] == ordered;
      forall v | v in s ensures DependsWithin(g, s, v) {
        assert v !in ordered;
        assert inDegree[v] != 0;
        CountIsZero(g[v], g.Keys, Elements(ordered));
        var u :| u in g[v] && u in g.Keys && u !in Elements(ordered);
        assert u in s && Edge(g, u, v);
      }
      StuckIsBlocked(g, s, n);
    }
  }

  lemma SomethingIsLeft(g: Graph, ordered: seq<Name>)
    requires IsPartialOrder(g, ordered) && |ordered| != |g.Keys|
    requires forall n :: n in g ==> (Blocked(g, n) <==> n !in ordered)
    ensures Cyclic(g)
  {
    if forall n :: n in g ==> n in ordered {
      assert Elements(ordered) == g.Keys;
      SameSize(ordered, g.Keys);
    } else {
      var n :| n in g && n !in ordered;
      assert Blocked(g, n);
    }
  }

  // ----- whom the error names -----

  /** No name outside every cycle depends on one inside. */
  ghost predicate NothingBehindCycles(g: Graph) {
    forall u, v :: Edge(g, u, v) && OnCycle(g, u) ==> OnCycle(g, v)
  }

  lemma {:induction false} CycleAlongWalk(g: Graph, p: seq<Name>)
    requires NothingBehindCycles(g) && IsWalk(g, p) && OnCycle(g, p[0])
    ensures OnCycle(g, p[|p| - 1])
    decreases |p|
  {
    if |p| > 1 {
      hide OnCycle;
      CycleAlongWalk(g, p[..|p| - 1]);
      assert Edge(g, p[|p| - 2], p[|p| - 1]);
    }
  }

  /** The error names only features of a cycle exactly when nothing outside depends on one. */
  lemma ErrorIsExactIff(g: Graph, error: seq<Name>)
    requires NamesBlocked(g, error)
    ensures (forall n :: n in error ==> OnCycle(g, n)) <==> NothingBehindCycles(g)
  {
    if NothingBehindCycles(g) {
      forall n | n in error ensures OnCycle(g, n) {
        var c :| OnCycle(g, c) && (c == n || Reaches(g, c, n));
        if c != n {
          var p :| Connects(g, p, c, n);
          CycleAlongWalk(g, p);
        }
      }
    } else {
      var u, v :| Edge(g, u, v) && OnCycle(g, u) && !OnCycle(g, v);
      ReachesByEdge(g, u, v);
      assert Blocked(g, v);
    }
  }

  /** A feature that depends on itself and one that depends on it: the error names both. */
  lemma BystanderIsNamed(g: Graph, a: Name, b: Name)
    requires a != b && g == map[a := [a], b := [a]]
    ensures NamesBlocked(g, if NameLeq(a, b) then [a, b] else [b, a])
    ensures OnCycle(g, a) && !OnCycle(g, b)
  {
    ReachesByEdge(g, a, a);
    ReachesByEdge(g, a, b);
    assert Blocked(g, a) && Blocked(g, b);
    NamesAreOrdered();
    if OnCycle(g, b) {
      FirstEdge(g, b, b);
    }
    BlockedIsKnown(g);
  }

  lemma FirstEdge(g: Graph, u: Name, v: Name)
    requires Reaches(g, u, v)
    ensures exists w :: Edge(g, u, w)
  {
    var p :| Connects(g, p, u, v);
    assert Edge(g, u, p[1]);
  }

  lemma BlockedIsKnown(g: Graph)
    ensures forall n :: Blocked(g, n) ==> n in g
  {
    forall n | Blocked(g, n) ensures n in g {
      var c :| OnCycle(g, c) && (c == n || Reaches(g, c, n));
      var p :| Connects(g, p, c, n);
    }
  }

  // ----- transitive dependents -----

  /** Everything reached so far depends on the start, and what is not queued has been expanded. */
  ghost predicate SearchInvariant(g: Graph, start: Name, reached: set<Name>, queue: seq<Name>) {
    && (forall n :: n in reached ==> Reaches(g, start, n))
    && (forall k :: 0 <= k < |queue| ==> queue[k] == start || queue[k] in reached)
    && (forall u, v :: (u == start || u in reached) && u !in queue && Edge(g, u, v) ==> v in reached)
  }

  /** The breadth-first closure is exactly the set of names reachable by one or more edges. */
  lemma ClosedIsReachable(g: Graph, start: Name, reached: set<Name>, n: Name)
    requires SearchInvariant(g, start, reached, [])
    ensures n in reached <==> Reaches(g, start, n)
  {
    if Reaches(g, start, n) {
      var p :| Connects(g, p, start, n);
      ClosedAlongWalk(g, start, reached, p);
    }
  }

  lemma {:induction false} ClosedAlongWalk(g: Graph, start: Name, reached: set<Name>, p: seq<Name>)
    requires SearchInvariant(g, start, reached, [])
    requires IsWalk(g, p) && |p| >= 2 && p[0] == start
    ensures p[|p| - 1] in reached
    decreases |p|
  {
    var u := p[|p| - 2];
    assert Edge(g, u, p[|p| - 1]);
    if |p| > 2 {
      ClosedAlongWalk(g, start, reached, p[..|p| - 1]);
    }
  }

  /** The names that declare `current`. */
  function DirectDependents(g: Graph, current: Name): (d: set<Name>)
    ensures forall v :: v in d <==> Edge(g, current, v)
    ensures d <= g.Keys
  {
    set v | v in g && current in g && current in g[v]
  }

  method Closure(g: Graph, start: Name) returns (reached: set<Name>)
    ensures forall n :: n in reached <==> Reaches(g, start, n)
  {
    reached := {};
    var queue := [start];
    while queue != []
      invariant reached <= g.Keys
      invariant SearchInvariant(g, start, reached, queue)
      decreases |g.Keys - reached|, |queue|
    {
      hide Reaches;
      var current := queue[0];
      reached, queue := Expand(g, start, reached, queue);
    }
    forall n ensures n in reached <==> Reaches(g, start, n) {
      ClosedIsReachable(g, start, reached, n);
    }
  }

  /** One round of the search: the head's unseen dependents are reached and queued, in any order. */
  method Expand(g: Graph, start: Name, reached: set<Name>, queue: seq<Name>)
    returns (reached': set<Name>, queue': seq<Name>)
    requires queue != [] && reached <= g.Keys && SearchInvariant(g, start, reached, queue)
    ensures reached' <= g.Keys && SearchInvariant(g, start, reached', queue')
    ensures |g.Keys - reached'| < |g.Keys - reached|
      || (reached' == reached && |queue'| < |queue|)
  {
    hide *;
    var current := queue[0];
    var unseen := DirectDependents(g, current) - reached;
    var todo, added := unseen, [];
    while todo != {}
      invariant todo <= unseen
      invariant forall n :: n in added <==> n in unseen && n !in todo
      invariant todo == unseen ==> added == []
      decreases |todo|
    {
      var downstream :| downstream in todo;
      todo := todo - {downstream};
      added := added + [downstream];
    }
    reached', queue' := reached + unseen, queue[1..] + added;
    ExpandKeeps(g, start, reached, queue, unseen, queue');
  }

  lemma ExpandKeeps(g: Graph, start: Name, reached: set<Name>, queue: seq<Name>, unseen: set<Name>, queue': seq<Name>)
    requires queue != [] && SearchInvariant(g, start, reached, queue)
    requires unseen == DirectDependents(g, queue[0]) - reached
    requires forall n :: n in queue' <==> n in queue[1..] || n in unseen
    ensures SearchInvariant(g, start, reached + unseen, queue')
  {
    var current := queue[0];
    assert queue == [current] + queue[1..];
    forall n | n in unseen ensures Reaches(g, start, n) {
      ReachesByEdge(g, current, n);
      if current != start {
        ReachesTransitively(g, start, current, n);
      }
    }
    hide Reaches;
    forall k | 0 <= k < |queue'| ensures queue'[k] == start || queue'[k] in reached + unseen {
      assert queue'[k] in queue';
    }
  }

  /** Keeps the names of `keep`, in the order given. */
  function Filter(order: seq<Name>, keep: set<Name>): (r: seq<Name>)
    ensures forall n :: n in r <==> n in order && n in keep
  {
    if order == [] then []
    else
      var k := |order| - 1;
      Filter(order[..k], keep) + if order[k] in keep then [order[k]] else []
  }

  /** s lists some of the elements of t, once each and in the same order. */
  ghost predicate KeepsOrder(s: seq<Name>, t: seq<Name>) {
    && Distinct(s)
    && forall i, j :: 0 <= i < j < |s| ==> InOrder(t, s[i], s[j])
  }

  /** x occurs in t before some occurrence of y. */
  ghost predicate InOrder(t: seq<Name>, x: Name, y: Name) {
    exists k, l :: 0 <= k < l < |t| && t[k] == x && t[l] == y
  }

  lemma InOrderSnoc(t: seq<Name>, last: Name, x: Name, y: Name)
    requires InOrder(t, x, y) || (x in t && y == last)
    ensures InOrder(t + [last], x, y)
  {
    var order := t + [last];
    if InOrder(t, x, y) {
      var k, l :| 0 <= k < l < |t| && t[k] == x && t[l] == y;
      assert order[k] == x && order[l] == y;
    } else {
      var k :| 0 <= k < |t| && t[k] == x;
      assert order[k] == x && order[|t|] == y;
    }
  }

  lemma {:induction false} FilterKeepsOrder(order: seq<Name>, keep: set<Name>)
    requires Distinct(order)
    ensures KeepsOrder(Filter(order, keep), order)
  {
    if order != [] {
      var m := |order| - 1;
      var s, t := Filter(order, keep), order[..m];
      FilterKeepsOrder(t, keep);
      assert order == t + [order[m]];
      hide InOrder, Filter;
      KeepsOrderSnoc(Filter(t, keep), t, order[m]);
    }
  }

  lemma KeepsOrderSnoc(s: seq<Name>, t: seq<Name>, last: Name)
    requires KeepsOrder(s, t) && last !in t && forall n :: n in s ==> n in t
    ensures KeepsOrder(s, t + [last]) && KeepsOrder(s + [last], t + [last])
  {
    hide InOrder;
    forall i, j | 0 <= i < j < |s + [last]| ensures InOrder(t + [last], (s + [last])[i], (s + [last])[j]) {
      assert s[i] in s;
      InOrderSnoc(t, last, s[i], (s + [last])[j]);
    }
    forall i, j | 0 <= i < j < |s| ensures InOrder(t + [last], s[i], s[j]) {
      assert (s + [last])[i] == s[i] && (s + [last])[j] == s[j];
    }
  }

  // ----- the registry -----

  class FeatureRegistry {
    /** Registration order; a name registered again keeps its place. */
    var names: seq<Name>
    var definitions: map<Name, FeatureDefinition>

    ghost predicate Valid()
      reads this
    {
      && Distinct(names) && Elements(names) == definitions.Keys
      && forall n :: n in definitions ==> definitions[n].featureName == n
    }

    function Dependencies(): (g: Graph)
      reads this
      ensures g.Keys == definitions.Keys
    {
      map n | n in definitions :: definitions[n].dependencies
    }

    constructor ()
      ensures Valid() && definitions == map[]
    {
      names, definitions := [], map[];
    }

    method Register(definition: FeatureDefinition)
      requires Valid()
      modifies this
      ensures Valid()
      ensures definitions == old(definitions)[definition.featureName := definition]
      ensures names == if definition.featureName in old(definitions) then old(names)
                       else old(names) + [definition.featureName]
    {
      if definition.featureName !in definitions {
        assert definition.featureName !in Elements(names);
        names := names + [definition.featureName];
      }
      definitions := definitions[definition.featureName := definition];
    }

    /** Raises exactly on cyclic graphs, naming exactly the features on or downstream of a cycle. */
    method DependencyOrder() returns (result: Result<seq<Name>, seq<Name>>)
      requires Valid()
      ensures result.Failure? <==> Cyclic(Dependencies())
      ensures result.Success? ==> IsKahnOrder(Dependencies(), result.value)
      ensures result.Failure? ==> NamesBlocked(Dependencies(), result.error)
    {
      result := Kahn(Dependencies(), names);
    }

    /** Exactly the transitive dependents, upstream first; a cycle anywhere raises. */
    method DependentsOf(featureName: Name) returns (result: Result<seq<Name>, seq<Name>>)
      requires Valid()
      ensures result.Failure? <==> Cyclic(Dependencies())
      ensures result.Success? ==>
        && (forall n :: n in result.value <==> Reaches(Dependencies(), featureName, n))
        && exists order :: IsKahnOrder(Dependencies(), order) && KeepsOrder(result.value, order)
    {
      var reached := Closure(Dependencies(), featureName);
      var order := DependencyOrder();
      if order.Failure? {
        return order;
      }
      FilterKeepsOrder(order.value, reached);
      ghost var g := Dependencies();
      forall n | Reaches(g, featureName, n) ensures n in order.value {
        var p :| Connects(g, p, featureName, n);
      }
      return Success(Filter(order.value, reached));
    }
  }
}
