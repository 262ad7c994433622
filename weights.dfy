/**
 * The statistics RecalculateWeights takes of the distinct weights of the
 * unvisited nodes: their average, and the value left at the top once the
 * largest (or at the bottom once the smallest) few are skipped.
 */
module Weights {
  import opened Collections

  /** Some value of a non-empty set, the one the loops take next. */
  method Element(s: set<real>) returns (x: real)
    requires s != {}
    ensures x in s
  {
    ghost var some := PickElement(s);
    x :| x in s;
  }

  /** The values of s above v. */
  function Above(s: set<real>, v: real): set<real> {
    set x | x in s && x > v
  }

  /** The values of s below v. */
  function Below(s: set<real>, v: real): set<real> {
    set x | x in s && x < v
  }

  /** Sum(): the values added up. */
  method SumOf(s: set<real>) returns (total: real)
    ensures total == SetSum(s)
  {
    total := 0.0;
    var rest := s;
    while rest != {}
      invariant rest <= s
      invariant total + SetSum(rest) == SetSum(s)
      decreases |rest|
    {
      var x := Element(rest);
      SetSumRemove(rest, x);
      total := total + x;
      rest := rest - {x};
    }
  }

  /** Max(): the largest value. */
  method MaxOf(s: set<real>) returns (m: real)
    requires s != {}
    ensures m in s && forall x | x in s :: x <= m
  {
    m := Element(s);
    var rest := s - {m};
    while rest != {}
      invariant rest <= s && m in s
      invariant forall x | x in s - rest :: x <= m
      decreases |rest|
    {
      var x := Element(rest);
      assert s - (rest - {x}) == (s - rest) + {x};
      if x > m {
        m := x;
      }
      rest := rest - {x};
    }
    assert s - rest == s;
  }

  /** Min(): the smallest value. */
  method MinOf(s: set<real>) returns (m: real)
    requires s != {}
    ensures m in s && forall x | x in s :: m <= x
  {
    m := Element(s);
    var rest := s - {m};
    while rest != {}
      invariant rest <= s && m in s
      invariant forall x | x in s - rest :: m <= x
      decreases |rest|
    {
      var x := Element(rest);
      assert s - (rest - {x}) == (s - rest) + {x};
      if x < m {
        m := x;
      }
      rest := rest - {x};
    }
    assert s - rest == s;
  }

  /** OrderByDescending(x => x).Skip(n): the values without the n largest,
      none when there are at most n. */
  method SkipLargest(s: set<real>, n: nat) returns (rest: set<real>)
    ensures rest <= s
    ensures |rest| == if |s| <= n then 0 else |s| - n
    ensures forall x, y | x in s - rest && y in rest :: y < x
  {
    rest := s;
    var i := 0;
    while i < n && rest != {}
      invariant 0 <= i <= n && rest <= s
      invariant |rest| == |s| - i
      invariant forall x, y | x in s - rest && y in rest :: y < x
    {
      var m := MaxOf(rest);
      assert s - (rest - {m}) == (s - rest) + {m};
      rest := rest - {m};
      i := i + 1;
    }
  }

  /** OrderBy(x => x).Skip(n): the values without the n smallest, none when
      there are at most n. */
  method SkipSmallest(s: set<real>, n: nat) returns (rest: set<real>)
    ensures rest <= s
    ensures |rest| == if |s| <= n then 0 else |s| - n
    ensures forall x, y | x in s - rest && y in rest :: x < y
  {
    rest := s;
    var i := 0;
    while i < n && rest != {}
      invariant 0 <= i <= n && rest <= s
      invariant |rest| == |s| - i
      invariant forall x, y | x in s - rest && y in rest :: x < y
    {
      var m := MinOf(rest);
      assert s - (rest - {m}) == (s - rest) + {m};
      rest := rest - {m};
      i := i + 1;
    }
  }

  /** The largest value left after skipping the n largest has exactly n
      values above it. */
  lemma TopAfterSkip(s: set<real>, rest: set<real>, n: nat, m: real)
    requires rest <= s && |rest| == |s| - n
    requires forall x, y | x in s - rest && y in rest :: y < x
    requires m in rest && forall x | x in rest :: x <= m
    ensures Above(s, m) == s - rest
    ensures |Above(s, m)| == n
  {
    assert |s - rest| == |s| - |rest|;
  }

  /** The smallest value left after skipping the n smallest has exactly n
      values below it. */
  lemma BottomAfterSkip(s: set<real>, rest: set<real>, n: nat, m: real)
    requires rest <= s && |rest| == |s| - n
    requires forall x, y | x in s - rest && y in rest :: x < y
    requires m in rest && forall x | x in rest :: m <= x
    ensures Below(s, m) == s - rest
    ensures |Below(s, m)| == n
  {
    assert |s - rest| == |s| - |rest|;
  }

  /** At most one value of a set has exactly n values above it. */
  lemma RankIsUnique(s: set<real>, a: real, b: real, n: nat)
    requires a in s && b in s
    requires |Above(s, a)| == n && |Above(s, b)| == n
    ensures a == b
  {
    if a < b {
      AboveShrinks(s, a, b);
    } else if b < a {
      AboveShrinks(s, b, a);
    }
  }

  lemma AboveShrinks(s: set<real>, a: real, b: real)
    requires a < b && b in s
    ensures |Above(s, b)| < |Above(s, a)|
  {
    var bigger := Above(s, b) + {b};
    assert b !in Above(s, b);
    assert |bigger| == |Above(s, b)| + 1;
    var others := Above(s, a) - bigger;
    assert Above(s, a) == bigger + others;
    assert bigger * others == {};
  }
}
