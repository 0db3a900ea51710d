/**
 Counting over a sequence of threads, and summing over a sequence or a map.

 The protocols in this project have any number of threads, so their invariants speak of
 how many threads stand at a given point. Everything a step needs to know is how a count
 moves when one thread's entry is replaced.
 */
module Tally {

  /** How many elements of `s` satisfy `p`. */
  ghost function Count<T>(s: seq<T>, p: T -> bool): nat
  {
    if s == [] then 0 else Count(s[..|s| - 1], p) + (if p(s[|s| - 1]) then 1 else 0)
  }

  lemma {:induction false} CountUpdate<T>(s: seq<T>, i: nat, x: T, p: T -> bool)
    requires i < |s|
    ensures Count(s[i := x], p) + (if p(s[i]) then 1 else 0) == Count(s, p) + (if p(x) then 1 else 0)
  {
    var t := s[i := x];
    var n := |s| - 1;
    if i == n {
      assert t[..n] == s[..n];
    } else {
      CountUpdate(s[..n], i, x, p);
      assert t[..n] == s[..n][i := x];
    }
  }

  lemma {:induction false} CountAppend<T>(s: seq<T>, x: T, p: T -> bool)
    ensures Count(s + [x], p) == Count(s, p) + (if p(x) then 1 else 0)
  {
    assert (s + [x])[..|s|] == s;
  }

  /** A count is positive exactly when some element satisfies the predicate. */
  lemma {:induction false} CountPositive<T>(s: seq<T>, p: T -> bool)
    ensures Count(s, p) > 0 <==> exists i :: 0 <= i < |s| && p(s[i])
  {
    if s != [] {
      var n := |s| - 1;
      CountPositive(s[..n], p);
      if Count(s[..n], p) > 0 {
        var i :| 0 <= i < n && p(s[..n][i]);
        assert p(s[i]);
      }
      forall i | 0 <= i < |s| && p(s[i]) ensures Count(s, p) > 0 {
        if i < n { assert p(s[..n][i]); }
      }
    }
  }

  /** The multiset sum of `f` over `s`. */
  ghost function Union<T, W>(s: seq<T>, f: T -> multiset<W>): multiset<W>
  {
    if s == [] then multiset{} else Union(s[..|s| - 1], f) + f(s[|s| - 1])
  }

  lemma {:induction false} UnionUpdate<T, W>(s: seq<T>, i: nat, x: T, f: T -> multiset<W>)
    requires i < |s|
    ensures Union(s[i := x], f) + f(s[i]) == Union(s, f) + f(x)
  {
    var t := s[i := x];
    var n := |s| - 1;
    if i == n {
      assert t[..n] == s[..n];
    } else {
      UnionUpdate(s[..n], i, x, f);
      assert t[..n] == s[..n][i := x];
      assert Union(t, f) + f(s[i]) == (Union(t[..n], f) + f(s[i])) + f(s[n]);
      assert Union(s, f) + f(x) == (Union(s[..n], f) + f(x)) + f(s[n]);
    }
  }

  lemma {:induction false} UnionKept<T, W>(s: seq<T>, i: nat, x: T, f: T -> multiset<W>)
    requires i < |s| && f(x) == f(s[i])
    ensures Union(s[i := x], f) == Union(s, f)
  {
    var n := |s| - 1;
    if i == n {
      assert s[i := x][..n] == s[..n];
    } else {
      UnionKept(s[..n], i, x, f);
      assert s[i := x][..n] == s[..n][i := x];
    }
  }

  lemma {:induction false} UnionAppend<T, W>(s: seq<T>, x: T, f: T -> multiset<W>)
    ensures Union(s + [x], f) == Union(s, f) + f(x)
  {
    assert (s + [x])[..|s|] == s;
  }

  lemma {:induction false} UnionContains<T, W>(s: seq<T>, i: nat, f: T -> multiset<W>)
    requires i < |s|
    ensures f(s[i]) <= Union(s, f)
  {
    var n := |s| - 1;
    if i < n {
      UnionContains(s[..n], i, f);
      assert s[..n][i] == s[i];
    }
  }

  /** Counts and sums depend only on what the predicate or the function sees of each element. */
  lemma {:induction false} CountSame<T>(s: seq<T>, t: seq<T>, p: T -> bool)
    requires |s| == |t| && forall i :: 0 <= i < |s| ==> p(s[i]) == p(t[i])
    ensures Count(s, p) == Count(t, p)
  {
    if s != [] {
      var n := |s| - 1;
      assert forall i :: 0 <= i < n ==> s[..n][i] == s[i] && t[..n][i] == t[i];
      CountSame(s[..n], t[..n], p);
    }
  }

  lemma {:induction false} UnionSame<T, W>(s: seq<T>, t: seq<T>, f: T -> multiset<W>)
    requires |s| == |t| && forall i :: 0 <= i < |s| ==> f(s[i]) == f(t[i])
    ensures Union(s, f) == Union(t, f)
  {
    if s != [] {
      var n := |s| - 1;
      assert forall i :: 0 <= i < n ==> s[..n][i] == s[i] && t[..n][i] == t[i];
      UnionSame(s[..n], t[..n], f);
    }
  }
}
