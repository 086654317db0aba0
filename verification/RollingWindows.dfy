/** Series with gaps, their trailing windows, and running sums over a sliding window. */
module RollingWindows {
  import opened Vectors
  import opened Wrappers

  /** One value per bar; None during a cold start or where a bar is missing. */
  type Series = seq<Option<real>>

  /** The values that are present, in order. */
  function Present(s: Series): Vector {
    if s == [] then []
    else
      var last := s[|s| - 1];
      Present(s[..|s| - 1]) + if last.Some? then [last.value] else []
  }

  lemma {:induction false} PresentConcat(a: Series, b: Series)
    ensures Present(a + b) == Present(a) + Present(b)
  {
    if b == [] {
      assert a + b == a;
    } else {
      PresentConcat(a, b[..|b| - 1]);
      assert (a + b)[..|a + b| - 1] == a + b[..|b| - 1];
    }
  }

  lemma PresentSingleton(x: Option<real>)
    ensures Present([x]) == if x.Some? then [x.value] else []
  {
    assert [x][..0] == [];
  }

  /** The values of Present are exactly the values at the non-None positions. */
  lemma {:induction false} PresentMembers(s: Series, v: real)
    ensures v in Present(s) <==> Some(v) in s
  {
    if s != [] {
      var n := |s| - 1;
      PresentMembers(s[..n], v);
      assert s == s[..n] + [s[n]];
    }
  }

  /** Where the window of `window` bars ending at bar i begins. */
  function Start(i: nat, window: nat): (lo: nat)
    requires window >= 1
    ensures lo <= i
  {
    if i + 1 >= window then i + 1 - window else 0
  }

  function Window(series: Series, i: nat, window: nat): Series
    requires window >= 1 && i < |series|
  {
    series[Start(i, window)..i + 1]
  }

  /** The window of the bar before i: what the running totals cover on entry to bar i. */
  function Behind(series: Series, i: nat, window: nat): Series
    requires window >= 1 && i <= |series|
  {
    if i == 0 then [] else Window(series, i - 1, window)
  }

  /** Bar i enters; once the window is full, bar i - window leaves. */
  lemma WindowSlides(series: Series, i: nat, window: nat)
    requires window >= 1 && i < |series|
    ensures Behind(series, i + 1, window) == Window(series, i, window)
    ensures i < window ==> Behind(series, i, window) + [series[i]] == Window(series, i, window)
    ensures i >= window ==>
      Behind(series, i, window) + [series[i]] == [series[i - window]] + Window(series, i, window)
  {
    if i == 0 {
    } else if i < window {
      assert Behind(series, i, window) == series[0..i];
    } else {
      assert Behind(series, i, window) == series[i - window..i];
    }
  }

  function Trailing(series: Series, i: nat, window: nat): Vector
    requires window >= 1 && i < |series|
  {
    Present(Window(series, i, window))
  }

  /** A window never looks at a later bar. */
  lemma WindowIgnoresLaterBars(series: Series, more: Series, i: nat, window: nat)
    requires window >= 1 && i < |series|
    ensures Window(series + more, i, window) == Window(series, i, window)
  {
  }

  lemma SumPrepend(x: real, t: Vector)
    ensures Sum([x] + t) == x + Sum(t)
  {
    SumAppend([x], t);
    assert [x][..0] == [];
  }

  lemma {:induction false} DotPrepend(x: real, y: real, s: Vector, t: Vector)
    requires |s| == |t|
    ensures Dot([x] + s, [y] + t) == Mul(x, y) + Dot(s, t)
  {
    hide Mul;
    if s == [] {
      assert [x] + s == [x] && [y] + t == [y] && [x][..0] == [] && [y][..0] == [];
    } else {
      var n := |s| - 1;
      DotPrepend(x, y, s[..n], t[..n]);
      assert ([x] + s)[..|s|] == [x] + s[..n] && ([y] + t)[..|t|] == [y] + t[..n];
    }
  }

  lemma SumSnoc(t: Vector, x: real)
    ensures Sum(t + [x]) == Sum(t) + x
  {
    assert (t + [x])[..|t|] == t;
  }

  lemma DotSnoc(s: Vector, t: Vector, x: real, y: real)
    requires |s| == |t|
    ensures Dot(s + [x], t + [y]) == Dot(s, t) + Mul(x, y)
  {
    assert (s + [x])[..|s|] == s && (t + [y])[..|t|] == t;
  }
}
