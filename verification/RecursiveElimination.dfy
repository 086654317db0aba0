/** Backward elimination: refit on the survivors, drop the weakest, and rank the features by how long they last. */
module RecursiveElimination {
  import opened Vectors
  import opened LinearSolve
  import opened Ridge

  const RIDGE_LAMBDA: real := 1.0

  /** Of the first n features those of rank at most r, in column order. */
  function FirstSurvivors(ranks: seq<nat>, r: nat, n: nat): seq<nat>
    requires n <= |ranks|
  {
    if n == 0 then [] else FirstSurvivors(ranks, r, n - 1) + if ranks[n - 1] <= r then [n - 1] else []
  }

  /** The features of rank at most r, in column order. */
  function Survivors(ranks: seq<nat>, r: nat): seq<nat> {
    FirstSurvivors(ranks, r, |ranks|)
  }

  function Pick(columns: seq<Vector>, chosen: seq<nat>): (r: seq<Vector>)
    requires forall p :: 0 <= p < |chosen| ==> chosen[p] < |columns|
    ensures |r| == |chosen| && forall p :: 0 <= p < |r| ==> r[p] == columns[chosen[p]]
  {
    seq(|chosen|, p requires 0 <= p < |chosen| => columns[chosen[p]])
  }

  predicate AreColumns(chosen: seq<nat>, k: nat) {
    forall p :: 0 <= p < |chosen| ==> chosen[p] < k
  }

  /** The ridge coefficients of the chosen columns alone. */
  function Fit(columns: seq<Vector>, target: Vector, chosen: seq<nat>): (coefs: Vector)
    requires |target| > 0 && Aligned(columns, |target|) && AreColumns(chosen, |columns|)
    ensures |coefs| == |chosen|
  {
    Solution(NormalEquations(Pick(columns, chosen), target, RIDGE_LAMBDA))
  }

  /** Position p holds the smallest magnitude, the first of equals. */
  ghost predicate IsWeakest(coefs: Vector, p: nat) {
    && p < |coefs|
    && (forall q :: 0 <= q < |coefs| ==> Abs(coefs[p]) <= Abs(coefs[q]))
    && forall q :: 0 <= q < p ==> Abs(coefs[p]) < Abs(coefs[q])
  }

  /** Among the features ranked no worse than feature i, the fit gives i the weakest coefficient. */
  ghost predicate WeakestOfItsRound(columns: seq<Vector>, target: Vector, ranks: seq<nat>, i: nat)
    requires |target| > 0 && Aligned(columns, |target|) && |ranks| == |columns| && i < |ranks|
  {
    var round := Survivors(ranks, ranks[i]);
    SurvivorsMembers(ranks, ranks[i]);
    exists p: nat :: p < |round| && round[p] == i && IsWeakest(Fit(columns, target, round), p)
  }

  lemma {:induction false} FirstMembers(ranks: seq<nat>, r: nat, n: nat)
    requires n <= |ranks|
    ensures AreColumns(FirstSurvivors(ranks, r, n), n) && |FirstSurvivors(ranks, r, n)| <= n
    ensures forall i :: i in FirstSurvivors(ranks, r, n) <==> 0 <= i < n && ranks[i] <= r
  {
    if n > 0 {
      FirstMembers(ranks, r, n - 1);
    }
  }

  lemma SurvivorsMembers(ranks: seq<nat>, r: nat)
    ensures AreColumns(Survivors(ranks, r), |ranks|) && |Survivors(ranks, r)| <= |ranks|
    ensures forall i :: i in Survivors(ranks, r) <==> 0 <= i < |ranks| && ranks[i] <= r
  {
    FirstMembers(ranks, r, |ranks|);
  }

  lemma {:induction false} FirstSame(a: seq<nat>, b: seq<nat>, r: nat, r': nat, n: nat)
    requires n <= |a| && n <= |b| && forall i :: 0 <= i < n ==> (a[i] <= r <==> b[i] <= r')
    ensures FirstSurvivors(a, r, n) == FirstSurvivors(b, r', n)
  {
    if n > 0 {
      FirstSame(a, b, r, r', n - 1);
    }
  }

  lemma SurvivorsSame(a: seq<nat>, b: seq<nat>, r: nat, r': nat)
    requires |a| == |b| && forall i :: 0 <= i < |a| ==> (a[i] <= r <==> b[i] <= r')
    ensures Survivors(a, r) == Survivors(b, r')
  {
    FirstSame(a, b, r, r', |a|);
  }

  /** Ranking one survivor past the bound takes exactly it out of the list. */
  lemma {:induction false} FirstPop(a: seq<nat>, b: seq<nat>, r: nat, r': nat, n: nat, p: nat, x: nat)
    requires n <= |a| == |b| && p < |FirstSurvivors(a, r, n)| && FirstSurvivors(a, r, n)[p] == x
    requires x < |b| && b[x] > r' && forall i :: 0 <= i < |a| && i != x ==> (a[i] <= r <==> b[i] <= r')
    ensures FirstSurvivors(b, r', n) == FirstSurvivors(a, r, n)[..p] + FirstSurvivors(a, r, n)[p + 1..]
  {
    var front, all := FirstSurvivors(a, r, n - 1), FirstSurvivors(a, r, n);
    FirstMembers(a, r, n - 1);
    if p < |front| {
      assert front[p] in front;
      FirstPop(a, b, r, r', n - 1, p, x);
      PopFront(front, p, if a[n - 1] <= r then [n - 1] else []);
    } else {
      assert x == n - 1;
      FirstSame(a, b, r, r', n - 1);
      assert all[..p] == front && all[p + 1..] == [];
    }
  }

  lemma PopFront(front: seq<nat>, p: nat, tail: seq<nat>)
    requires p < |front|
    ensures (front + tail)[..p] + (front + tail)[p + 1..] == front[..p] + front[p + 1..] + tail
  {
  }

  lemma SurvivorsPop(a: seq<nat>, b: seq<nat>, r: nat, r': nat, p: nat)
    requires |a| == |b| && p < |Survivors(a, r)|
    requires var x := Survivors(a, r)[p];
      x < |a| && b[x] > r' && forall i :: 0 <= i < |a| && i != x ==> (a[i] <= r <==> b[i] <= r')
    ensures Survivors(b, r') == Survivors(a, r)[..p] + Survivors(a, r)[p + 1..]
  {
    FirstPop(a, b, r, r', |a|, p, Survivors(a, r)[p]);
  }

  lemma {:induction false} AllSurvive(ranks: seq<nat>, r: nat, n: nat)
    requires n <= |ranks| && forall i :: 0 <= i < |ranks| ==> ranks[i] <= r
    ensures FirstSurvivors(ranks, r, n) == seq(n, i requires 0 <= i < n => i)
  {
    if n > 0 {
      AllSurvive(ranks, r, n - 1);
    }
  }

  method WeakestPosition(coefs: Vector) returns (p: nat)
    requires coefs != []
    ensures IsWeakest(coefs, p)
  {
    p := 0;
    for q := 1 to |coefs|
      invariant p < q && forall x :: 0 <= x < q ==> Abs(coefs[p]) <= Abs(coefs[x])
      invariant forall x :: 0 <= x < p ==> Abs(coefs[p]) < Abs(coefs[x])
    {
      if Abs(coefs[q]) < Abs(coefs[p]) {
        p := q;
      }
    }
  }

  /** Some features are ranked above next, each once; the rest still have no rank. */
  ghost predicate PartlyRanked(columns: seq<Vector>, target: Vector, ranks: seq<nat>, remaining: seq<nat>, next: nat)
    requires |target| > 0 && Aligned(columns, |target|)
  {
    && |ranks| == |columns| && |remaining| == next && remaining == Survivors(ranks, next)
    && (forall i :: 0 <= i < |ranks| ==> ranks[i] == 0 || next < ranks[i] <= |columns|)
    && (forall i, j :: 0 <= i < j < |ranks| && ranks[i] != 0 ==> ranks[i] != ranks[j])
    && forall i :: 0 <= i < |ranks| && ranks[i] != 0 ==> WeakestOfItsRound(columns, target, ranks, i)
  }

  lemma StartRanking(columns: seq<Vector>, target: Vector, ranks: seq<nat>, remaining: seq<nat>)
    requires |target| > 0 && Aligned(columns, |target|) && |ranks| == |remaining| == |columns|
    requires forall i :: 0 <= i < |ranks| ==> ranks[i] == 0 && remaining[i] == i
    ensures PartlyRanked(columns, target, ranks, remaining, |columns|)
  {
    AllSurvive(ranks, |columns|, |ranks|);
    hide Aligned, WeakestOfItsRound, FirstSurvivors;
    assert remaining == Survivors(ranks, |columns|);
  }

  lemma RankStep(columns: seq<Vector>, target: Vector, ranks: seq<nat>, remaining: seq<nat>, next: nat, p: nat)
    requires |target| > 0 && Aligned(columns, |target|)
    requires PartlyRanked(columns, target, ranks, remaining, next) && next > 0 && AreColumns(remaining, |columns|)
    requires p < |remaining| && IsWeakest(Fit(columns, target, remaining), p)
    ensures PartlyRanked(columns, target, ranks[remaining[p] := next], remaining[..p] + remaining[p + 1..], next - 1)
  {
    hide Fit, Aligned, IsWeakest, Survivors, WeakestOfItsRound;
    var x := remaining[p];
    var after := ranks[x := next];
    SurvivorsMembers(ranks, next);
    assert x in remaining;
    assert ranks[x] == 0;
    SurvivorsPop(ranks, after, next, next - 1, p);
    forall i | 0 <= i < |after| && after[i] != 0 ensures WeakestOfItsRound(columns, target, after, i) {
      SurvivorsSame(ranks, after, after[i], after[i]);
      if i != x {
        SameRound(columns, target, ranks, after, i);
      } else {
        WeakestNow(columns, target, after, remaining, x, p);
      }
    }
  }

  lemma SameRound(columns: seq<Vector>, target: Vector, before: seq<nat>, after: seq<nat>, i: nat)
    requires |target| > 0 && Aligned(columns, |target|) && |before| == |after| == |columns| && i < |before|
    requires before[i] == after[i] && Survivors(before, before[i]) == Survivors(after, after[i])
    requires WeakestOfItsRound(columns, target, before, i)
    ensures WeakestOfItsRound(columns, target, after, i)
  {
    hide Fit, Aligned, IsWeakest, Survivors;
  }

  lemma WeakestNow(columns: seq<Vector>, target: Vector, ranks: seq<nat>, round: seq<nat>, i: nat, p: nat)
    requires |target| > 0 && Aligned(columns, |target|) && |ranks| == |columns| && i < |ranks|
    requires round == Survivors(ranks, ranks[i]) && AreColumns(round, |columns|)
    requires p < |round| && round[p] == i && IsWeakest(Fit(columns, target, round), p)
    ensures WeakestOfItsRound(columns, target, ranks, i)
  {
    hide Fit, Aligned, IsWeakest, Survivors;
  }

  /** The ranks are 1 to k, each once, and each feature was the weakest of those ranked no worse. */
  method RfeRanks(columns: seq<Vector>, target: Vector) returns (ranks: seq<nat>)
    requires |target| > 0 && Aligned(columns, |target|)
    ensures |ranks| == |columns|
    ensures forall i :: 0 <= i < |ranks| ==> 1 <= ranks[i] <= |columns|
    ensures forall i, j :: 0 <= i < j < |ranks| ==> ranks[i] != ranks[j]
    ensures forall i :: 0 <= i < |ranks| ==> WeakestOfItsRound(columns, target, ranks, i)
  {
    hide Fit, Aligned, WeakestOfItsRound, Survivors;
    var remaining: seq<nat> := seq(|columns|, i requires 0 <= i < |columns| => i);
    ranks := seq(|columns|, _ => 0);
    var next: nat := |columns|;
    StartRanking(columns, target, ranks, remaining);
    while remaining != []
      invariant PartlyRanked(columns, target, ranks, remaining, next)
      decreases next
    {
      SurvivorsMembers(ranks, next);
      var coefs := FitChosen(columns, target, remaining);
      var p := WeakestPosition(coefs);
      RankStep(columns, target, ranks, remaining, next, p);
      ranks := ranks[remaining[p] := next];
      remaining := remaining[..p] + remaining[p + 1..];
      next := next - 1;
    }
    SurvivorsMembers(ranks, 0);
  }

  method FitChosen(columns: seq<Vector>, target: Vector, chosen: seq<nat>) returns (coefs: Vector)
    requires |target| > 0 && Aligned(columns, |target|) && AreColumns(chosen, |columns|)
    ensures coefs == Fit(columns, target, chosen)
  {
    coefs := RidgeFit(Pick(columns, chosen), target, RIDGE_LAMBDA);
  }
}
