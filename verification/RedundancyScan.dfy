/**
  The correlation filter of the feature selection: a greedy scan in descending mutual information that
  stops as soon as enough survivors have been seen, against the greedy rule itself.
 */
module RedundancyScan {
  import opened Vectors
  import opened Sorting
  import opened Graphs

  /** The correlation of two standardised columns, and the mutual information of a column with the target. */
  type Correlation = (Name, Name) -> real
  type Score = Name -> real

  const MODEL_CANDIDATES: nat := 20

  datatype Pair = Pair(keep: Name, drop: Name, correlation: real)

  predicate Offends(corr: Correlation, threshold: real, first: Name, second: Name) {
    Abs(corr(first, second)) >= threshold
  }

  // ----- the greedy rule -----

  /** The name at k is kept unless it correlates with a kept name before it. */
  predicate IsKept(names: seq<Name>, corr: Correlation, threshold: real, k: nat)
    requires k < |names|
  {
    forall j: nat :: j < k && IsKept(names, corr, threshold, j) ==> !Offends(corr, threshold, names[j], names[k])
  }

  /** The kept names among the first n, in order. */
  function Kept(names: seq<Name>, corr: Correlation, threshold: real, n: nat): (r: seq<Name>)
    requires n <= |names|
    ensures |r| <= n
  {
    if n == 0 then []
    else
      Kept(names, corr, threshold, n - 1)
      + if IsKept(names, corr, threshold, n - 1) then [names[n - 1]] else []
  }

  function Take(s: seq<Name>, limit: nat): seq<Name> {
    if |s| <= limit then s else s[..limit]
  }

  /** The first names outside a set: how the candidates are read off the scan. */
  function Outside(names: seq<Name>, redundant: set<Name>): seq<Name> {
    if names == [] then []
    else
      var n := |names| - 1;
      Outside(names[..n], redundant) + if names[n] in redundant then [] else [names[n]]
  }

  // ----- the scan -----

  /** Some kept name among the first a knocks out the name at k. */
  predicate KnockedOut(names: seq<Name>, corr: Correlation, threshold: real, a: nat, k: nat)
    requires a <= |names| && k < |names|
  {
    exists j: nat :: j < a && j < k && IsKept(names, corr, threshold, j) && Offends(corr, threshold, names[j], names[k])
  }

  /** Names knocked out by the kept names among the first a, plus those before b knocked out by the name at a. */
  ghost predicate IsScanned(names: seq<Name>, corr: Correlation, threshold: real, redundant: set<Name>, a: nat, b: nat)
    requires a <= |names| && b <= |names|
  {
    && (forall n :: n in redundant ==> n in names)
    && forall k: nat :: k < |names| ==>
      (names[k] in redundant <==>
        KnockedOut(names, corr, threshold, a, k)
        || (a < k < b && Offends(corr, threshold, names[a], names[k])))
  }

  /** Every drop is explained by an earlier kept name, and no name is dropped twice. */
  ghost predicate ExplainsDrops(names: seq<Name>, corr: Correlation, threshold: real, redundant: set<Name>, pairs: seq<Pair>)
  {
    && (forall p :: p in pairs ==> IsExplained(names, corr, threshold, p))
    && (forall n :: n in redundant <==> exists i :: 0 <= i < |pairs| && pairs[i].drop == n)
    && (forall i, j :: 0 <= i < j < |pairs| ==> pairs[i].drop != pairs[j].drop)
  }

  ghost predicate IsExplained(names: seq<Name>, corr: Correlation, threshold: real, p: Pair) {
    && p.correlation == corr(p.keep, p.drop)
    && Abs(p.correlation) >= threshold
    && exists j: nat, k: nat ::
      j < k < |names| && names[j] == p.keep && names[k] == p.drop && IsKept(names, corr, threshold, j)
  }

  /** Compares the survivor at a with every later name not dropped yet. */
  method ScanFrom(names: seq<Name>, corr: Correlation, threshold: real, a: nat, redundant: set<Name>, pairs: seq<Pair>)
    returns (redundant': set<Name>, pairs': seq<Pair>)
    requires Distinct(names) && a < |names| && IsKept(names, corr, threshold, a)
    requires IsScanned(names, corr, threshold, redundant, a, a)
    requires ExplainsDrops(names, corr, threshold, redundant, pairs)
    ensures IsScanned(names, corr, threshold, redundant', a + 1, a + 1)
    ensures ExplainsDrops(names, corr, threshold, redundant', pairs')
    ensures forall p :: p in pairs' ==> p in pairs || p.keep == names[a]
  {
    redundant', pairs' := redundant, pairs;
    for b := a + 1 to |names|
      invariant IsScanned(names, corr, threshold, redundant', a, b)
      invariant ExplainsDrops(names, corr, threshold, redundant', pairs')
      invariant forall p :: p in pairs' ==> p in pairs || p.keep == names[a]
    {
      hide IsScanned, ExplainsDrops, IsKept;
      var second := names[b];
      ScanStep(names, corr, threshold, redundant', a, b);
      if second !in redundant' {
        var correlation := corr(names[a], second);
        if Abs(correlation) >= threshold {
          ExplainStep(names, corr, threshold, redundant', pairs', a, b);
          redundant' := redundant' + {second};
          pairs' := pairs' + [Pair(names[a], second, correlation)];
        }
      }
    }
  }

  /** A name that is not kept adds nothing to the scan. */
  lemma SkipScan(names: seq<Name>, corr: Correlation, threshold: real, redundant: set<Name>, a: nat)
    requires a < |names| && !IsKept(names, corr, threshold, a)
    requires IsScanned(names, corr, threshold, redundant, a, a)
    ensures IsScanned(names, corr, threshold, redundant, a + 1, a + 1)
  {
    hide IsKept, Offends;
  }

  lemma ScanStep(names: seq<Name>, corr: Correlation, threshold: real, redundant: set<Name>, a: nat, b: nat)
    requires Distinct(names) && a < b < |names| && IsScanned(names, corr, threshold, redundant, a, b)
    ensures names[b] in redundant || !Offends(corr, threshold, names[a], names[b]) ==>
      IsScanned(names, corr, threshold, redundant, a, b + 1)
    ensures Offends(corr, threshold, names[a], names[b]) ==>
      IsScanned(names, corr, threshold, redundant + {names[b]}, a, b + 1)
  {
    hide KnockedOut, Offends;
    assert forall k :: 0 <= k < |names| && k != b ==> names[k] != names[b];
  }

  lemma ExplainStep(names: seq<Name>, corr: Correlation, threshold: real, redundant: set<Name>, pairs: seq<Pair>, a: nat, b: nat)
    requires a < b < |names| && IsKept(names, corr, threshold, a) && names[b] !in redundant
    requires Offends(corr, threshold, names[a], names[b])
    requires ExplainsDrops(names, corr, threshold, redundant, pairs)
    ensures ExplainsDrops(names, corr, threshold, redundant + {names[b]},
                          pairs + [Pair(names[a], names[b], corr(names[a], names[b]))])
  {
    var p := Pair(names[a], names[b], corr(names[a], names[b]));
    assert IsExplained(names, corr, threshold, p);
    hide IsExplained, IsKept;
    var after := pairs + [p];
    forall n | n in redundant + {names[b]} ensures exists i :: 0 <= i < |after| && after[i].drop == n {
      if n in redundant {
        var i :| 0 <= i < |pairs| && pairs[i].drop == n;
        assert after[i].drop == n;
      } else {
        assert after[|pairs|].drop == n;
      }
    }
    forall i | 0 <= i < |after| ensures after[i].drop in redundant + {names[b]} {
      assert i < |pairs| ==> after[i].drop == pairs[i].drop;
    }
  }

  lemma ScannedIsKept(names: seq<Name>, corr: Correlation, threshold: real, redundant: set<Name>, a: nat, k: nat)
    requires k <= a <= |names| && k < |names| && IsScanned(names, corr, threshold, redundant, a, a)
    ensures names[k] in redundant <==> !IsKept(names, corr, threshold, k)
  {
    assert KnockedOut(names, corr, threshold, a, k) <==> !IsKept(names, corr, threshold, k);
  }

  lemma NothingScanned(names: seq<Name>, corr: Correlation, threshold: real)
    ensures IsScanned(names, corr, threshold, {}, 0, 0)
    ensures ExplainsDrops(names, corr, threshold, {}, [])
    ensures Kept(names, corr, threshold, 0) == []
  {
  }

  lemma KeptStep(names: seq<Name>, corr: Correlation, threshold: real, a: nat)
    requires a < |names|
    ensures Kept(names, corr, threshold, a) <= Kept(names, corr, threshold, a + 1)
    ensures |Kept(names, corr, threshold, a + 1)|
         == |Kept(names, corr, threshold, a)| + if IsKept(names, corr, threshold, a) then 1 else 0
    ensures IsKept(names, corr, threshold, a) ==> names[a] in Kept(names, corr, threshold, a + 1)
  {
    hide IsKept;
  }

  lemma {:induction false} OutsideIsKept(names: seq<Name>, corr: Correlation, threshold: real, redundant: set<Name>, a: nat, m: nat)
    requires a <= |names| && m <= |names| && m <= a + 1 && IsScanned(names, corr, threshold, redundant, a, a)
    ensures Outside(names[..m], redundant) == Kept(names, corr, threshold, m)
  {
    hide IsScanned, IsKept;
    if m > 0 {
      OutsideIsKept(names, corr, threshold, redundant, a, m - 1);
      assert names[..m][..m - 1] == names[..m - 1];
      ScannedIsKept(names, corr, threshold, redundant, a, m - 1);
    }
  }

  lemma {:induction false} PrefixesGrow(names: seq<Name>, corr: Correlation, threshold: real, redundant: set<Name>, m: nat, n: nat)
    requires m <= n <= |names|
    ensures Outside(names[..m], redundant) <= Outside(names[..n], redundant)
    ensures Kept(names, corr, threshold, m) <= Kept(names, corr, threshold, n)
    decreases n
  {
    hide IsKept;
    if m < n {
      PrefixesGrow(names, corr, threshold, redundant, m, n - 1);
      assert names[..n][..n - 1] == names[..n - 1];
    }
  }

  /** Reading the candidates off an early-stopped scan gives the first kept names. */
  lemma ReadOff(names: seq<Name>, corr: Correlation, threshold: real, redundant: set<Name>, a: nat, limit: nat)
    requires a <= |names| && IsScanned(names, corr, threshold, redundant, a, a)
    requires a == |names| || limit == 0 || |Kept(names, corr, threshold, a + 1)| >= limit
    ensures Take(Outside(names, redundant), limit) == Take(Kept(names, corr, threshold, |names|), limit)
  {
    var m := if a == |names| then a else a + 1;
    OutsideIsKept(names, corr, threshold, redundant, a, m);
    PrefixesGrow(names, corr, threshold, redundant, m, |names|);
    assert names[..|names|] == names;
    hide IsScanned, Outside, Kept;
  }

  /**
    The early exit is exact: whatever the limit, the candidates are the first `limit` names the greedy
    rule keeps, so a scan that never stops early (a limit above the number of names) gives the same ones.
   */
  method Scan(names: seq<Name>, corr: Correlation, threshold: real, limit: nat)
    returns (candidates: seq<Name>, redundant: set<Name>, pairs: seq<Pair>)
    requires Distinct(names)
    ensures candidates == Take(Kept(names, corr, threshold, |names|), limit)
    ensures ExplainsDrops(names, corr, threshold, redundant, pairs)
    ensures forall p :: p in pairs ==> p.keep in candidates
    ensures limit > |names| ==>
      forall k: nat :: k < |names| ==> (names[k] in redundant <==> !IsKept(names, corr, threshold, k))
  {
    hide *;
    redundant, pairs := {}, [];
    var survivors := 0;
    var a := 0;
    NothingScanned(names, corr, threshold);
    ghost var kept: seq<Name> := [];
    while a < |names|
      invariant a <= |names| && kept == Kept(names, corr, threshold, a)
      invariant IsScanned(names, corr, threshold, redundant, a, a)
      invariant ExplainsDrops(names, corr, threshold, redundant, pairs)
      invariant survivors == |kept| && (survivors == 0 || survivors < limit)
      invariant forall p :: p in pairs ==> p.keep in kept
      decreases |names| - a
    {
      if survivors >= limit {
        break;
      }
      KeptStep(names, corr, threshold, a);
      ScannedIsKept(names, corr, threshold, redundant, a, a);
      if names[a] in redundant {
        SkipScan(names, corr, threshold, redundant, a);
        kept := Kept(names, corr, threshold, a + 1);
        a := a + 1;
        continue;
      }
      survivors := survivors + 1;
      if survivors >= limit {
        break;
      }
      redundant, pairs := ScanFrom(names, corr, threshold, a, redundant, pairs);
      kept := Kept(names, corr, threshold, a + 1);
      a := a + 1;
    }
    ReadOff(names, corr, threshold, redundant, a, limit);
    KeptFits(names, corr, threshold, redundant, a, limit);
    candidates := Take(Outside(names, redundant), limit);
  }

  /** Everything kept so far is among the candidates, and a scan that ran to the end dropped all it should. */
  lemma KeptFits(names: seq<Name>, corr: Correlation, threshold: real, redundant: set<Name>, a: nat, limit: nat)
    requires a <= |names| && IsScanned(names, corr, threshold, redundant, a, a)
    requires |Kept(names, corr, threshold, a)| <= limit
    ensures forall n :: n in Kept(names, corr, threshold, a) ==> n in Take(Kept(names, corr, threshold, |names|), limit)
    ensures a == |names| ==>
      forall k: nat :: k < |names| ==> (names[k] in redundant <==> !IsKept(names, corr, threshold, k))
    ensures a < |names| ==> |Kept(names, corr, threshold, a + 1)| <= |names|
  {
    PrefixesGrow(names, corr, threshold, redundant, a, |names|);
    if a == |names| {
      forall k: nat | k < |names| ensures names[k] in redundant <==> !IsKept(names, corr, threshold, k) {
        ScannedIsKept(names, corr, threshold, redundant, a, k);
      }
    }
    hide IsScanned, Kept, IsKept;
  }

  // ----- what the candidates are -----

  /** No two kept names correlate at or above the threshold. */
  lemma {:induction false} KeptAreUncorrelated(names: seq<Name>, corr: Correlation, threshold: real, n: nat)
    requires n <= |names|
    ensures forall i, j :: 0 <= i < j < |Kept(names, corr, threshold, n)| ==>
      !Offends(corr, threshold, Kept(names, corr, threshold, n)[i], Kept(names, corr, threshold, n)[j])
  {
    if n > 0 {
      KeptAreUncorrelated(names, corr, threshold, n - 1);
      var kept := Kept(names, corr, threshold, n - 1);
      if IsKept(names, corr, threshold, n - 1) {
        forall i | 0 <= i < |kept| ensures !Offends(corr, threshold, kept[i], names[n - 1]) {
          var _ := KeptPosition(names, corr, threshold, n - 1, i);
        }
      }
      hide Offends, IsKept;
    }
  }

  lemma {:induction false} KeptPosition(names: seq<Name>, corr: Correlation, threshold: real, n: nat, i: nat) returns (j: nat)
    requires n <= |names| && i < |Kept(names, corr, threshold, n)|
    ensures j < n && names[j] == Kept(names, corr, threshold, n)[i] && IsKept(names, corr, threshold, j)
  {
    if i < |Kept(names, corr, threshold, n - 1)| {
      j := KeptPosition(names, corr, threshold, n - 1, i);
    } else {
      j := n - 1;
    }
  }

  function ByScore(score: Score): (Name, Name) -> bool {
    (a, b) => score(a) >= score(b)
  }

  /** n is dropped for the sake of a candidate that scores at least as well and correlates with it. */
  ghost predicate HasBetterTwin(candidates: seq<Name>, corr: Correlation, score: Score, threshold: real, n: Name) {
    exists c :: c in candidates && score(c) >= score(n) && Offends(corr, threshold, c, n)
  }

  method SelectCandidates(standardized: seq<Name>, score: Score, corr: Correlation, threshold: real)
    returns (candidates: seq<Name>, redundant: set<Name>, pairs: seq<Pair>)
    requires Distinct(standardized)
    ensures var names := Sorted(ByScore(score), standardized);
      candidates == Take(Kept(names, corr, threshold, |names|), MODEL_CANDIDATES)
    ensures forall i, j :: 0 <= i < j < |candidates| ==> !Offends(corr, threshold, candidates[i], candidates[j])
    ensures forall n :: n in redundant ==> HasBetterTwin(candidates, corr, score, threshold, n)
  {
    var names := Sorted(ByScore(score), standardized);
    SortKeepsDistinct(ByScore(score), standardized);
    SortSorts(ByScore(score), standardized);
    candidates, redundant, pairs := Scan(names, corr, threshold, MODEL_CANDIDATES);
    KeptAreUncorrelated(names, corr, threshold, |names|);
    forall n | n in redundant ensures HasBetterTwin(candidates, corr, score, threshold, n) {
      DropsHaveBetterTwins(names, score, corr, threshold, candidates, redundant, pairs, n);
    }
    hide *;
    assert forall s: seq<Name> :: Take(s, MODEL_CANDIDATES) <= s by {
      TakeIsPrefix();
    }
  }

  lemma TakeIsPrefix()
    ensures forall s: seq<Name>, limit: nat :: Take(s, limit) <= s
  {
  }

  lemma DropsHaveBetterTwins(names: seq<Name>, score: Score, corr: Correlation, threshold: real,
                             candidates: seq<Name>, redundant: set<Name>, pairs: seq<Pair>, n: Name)
    requires IsSorted(ByScore(score), names) && ExplainsDrops(names, corr, threshold, redundant, pairs)
    requires (forall p :: p in pairs ==> p.keep in candidates) && n in redundant
    ensures HasBetterTwin(candidates, corr, score, threshold, n)
  {
    var i :| 0 <= i < |pairs| && pairs[i].drop == n;
    assert pairs[i] in pairs && IsExplained(names, corr, threshold, pairs[i]);
    var j: nat, k: nat :| j < k < |names| && names[j] == pairs[i].keep && names[k] == n;
    assert ByScore(score)(names[j], names[k]);
  }
}
