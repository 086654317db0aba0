/** A stable sort, as Python's sorted() is, with the facts its users rely on. */
module Sorting {

  /** x goes behind every element of t that may stay before it. */
  function Insert<T>(before: (T, T) -> bool, t: seq<T>, x: T): (r: seq<T>)
    ensures |r| == |t| + 1
  {
    if t == [] || before(t[|t| - 1], x) then t + [x]
    else Insert(before, t[..|t| - 1], x) + [t[|t| - 1]]
  }

  function Sorted<T>(before: (T, T) -> bool, s: seq<T>): (r: seq<T>)
    ensures |r| == |s|
  {
    if s == [] then [] else Insert(before, Sorted(before, s[..|s| - 1]), s[|s| - 1])
  }

  ghost predicate IsTotalPreorder<T(!new)>(before: (T, T) -> bool) {
    && (forall x, y :: before(x, y) || before(y, x))
    && (forall x, y, z :: before(x, y) && before(y, z) ==> before(x, z))
  }

  ghost predicate IsSorted<T>(before: (T, T) -> bool, s: seq<T>) {
    forall i, j :: 0 <= i < j < |s| ==> before(s[i], s[j])
  }

  lemma {:induction false} InsertKeepsElements<T>(before: (T, T) -> bool, t: seq<T>, x: T)
    ensures multiset(Insert(before, t, x)) == multiset(t) + multiset{x}
  {
    if t == [] || before(t[|t| - 1], x) {
    } else {
      var n := |t| - 1;
      InsertKeepsElements(before, t[..n], x);
      assert t == t[..n] + [t[n]];
    }
  }

  lemma {:induction false} SortKeepsElements<T>(before: (T, T) -> bool, s: seq<T>)
    ensures multiset(Sorted(before, s)) == multiset(s)
  {
    if s != [] {
      var n := |s| - 1;
      SortKeepsElements(before, s[..n]);
      InsertKeepsElements(before, Sorted(before, s[..n]), s[n]);
      assert s == s[..n] + [s[n]];
    }
  }

  lemma SortKeepsMembers<T>(before: (T, T) -> bool, s: seq<T>, x: T)
    ensures x in Sorted(before, s) <==> x in s
  {
    SortKeepsElements(before, s);
    assert x in multiset(Sorted(before, s)) <==> x in multiset(s);
  }

  lemma SortKeepsDistinct<T>(before: (T, T) -> bool, s: seq<T>)
    requires forall i, j :: 0 <= i < j < |s| ==> s[i] != s[j]
    ensures forall i, j :: 0 <= i < j < |s| ==> Sorted(before, s)[i] != Sorted(before, s)[j]
  {
    SortKeepsElements(before, s);
    DistinctMultiplicity(s);
    MultiplicityDistinct(Sorted(before, s));
  }

  lemma {:induction false} DistinctMultiplicity<T>(s: seq<T>)
    requires forall i, j :: 0 <= i < j < |s| ==> s[i] != s[j]
    ensures forall x :: multiset(s)[x] <= 1
  {
    if s != [] {
      var n := |s| - 1;
      DistinctMultiplicity(s[..n]);
      assert s == s[..n] + [s[n]];
      assert s[n] !in s[..n];
      assert s[n] !in multiset(s[..n]);
    }
  }

  lemma MultiplicityDistinct<T>(s: seq<T>)
    requires forall x :: multiset(s)[x] <= 1
    ensures forall i, j :: 0 <= i < j < |s| ==> s[i] != s[j]
  {
    forall i, j | 0 <= i < j < |s| ensures s[i] != s[j] {
      assert s == s[..j] + [s[j]] + s[j + 1..];
      assert multiset(s) == multiset(s[..j]) + multiset{s[j]} + multiset(s[j + 1..]);
      assert s[..j][i] == s[i];
      assert multiset(s[..j])[s[i]] >= 1;
      assert multiset(s)[s[j]] >= multiset(s[..j])[s[j]] + 1;
      assert multiset(s)[s[j]] <= 1;
    }
  }

  lemma {:induction false} InsertSorts<T(!new)>(before: (T, T) -> bool, t: seq<T>, x: T)
    requires IsTotalPreorder(before) && IsSorted(before, t)
    ensures IsSorted(before, Insert(before, t, x))
  {
    if t == [] {
    } else {
      var n := |t| - 1;
      if before(t[n], x) {
        forall i | 0 <= i <= n ensures before(t[i], x) {
          assert i < n ==> before(t[i], t[n]);
        }
      } else {
        InsertSorts(before, t[..n], x);
        InsertKeepsElements(before, t[..n], x);
        var r := Insert(before, t[..n], x);
        forall i | 0 <= i < |r| ensures before(r[i], t[n]) {
          MemberOfInsert(r, t[..n], x, i);
        }
        hide Insert, IsTotalPreorder;
      }
    }
  }

  lemma MemberOfInsert<T>(r: seq<T>, t: seq<T>, x: T, i: nat)
    requires i < |r| && multiset(r) == multiset(t) + multiset{x}
    ensures r[i] in t || r[i] == x
  {
    assert r[i] in multiset(r);
  }

  lemma {:induction false} SortSorts<T(!new)>(before: (T, T) -> bool, s: seq<T>)
    requires IsTotalPreorder(before)
    ensures IsSorted(before, Sorted(before, s))
  {
    if s != [] {
      SortSorts(before, s[..|s| - 1]);
      InsertSorts(before, Sorted(before, s[..|s| - 1]), s[|s| - 1]);
    }
  }
}
