/** Sums over a sequence and over the values of a map. */
module Totals {

  ghost function Sum<T>(s: seq<T>, f: T -> int): int
  {
    if s == [] then 0 else Sum(s[..|s| - 1], f) + f(s[|s| - 1])
  }

  lemma {:induction false} SumUpdate<T>(s: seq<T>, i: nat, x: T, f: T -> int)
    requires i < |s|
    ensures Sum(s[i := x], f) == Sum(s, f) - f(s[i]) + f(x)
  {
    var n := |s| - 1;
    if i == n {
      assert s[i := x][..n] == s[..n];
    } else {
      SumUpdate(s[..n], i, x, f);
      assert s[i := x][..n] == s[..n][i := x];
    }
  }

  lemma SumAppend<T>(s: seq<T>, x: T, f: T -> int)
    ensures Sum(s + [x], f) == Sum(s, f) + f(x)
  {
    assert (s + [x])[..|s|] == s;
  }

  /** The order in which the keys are visited does not matter; see `SumMapRemove`. */
  ghost function SumMap<K, V>(m: map<K, V>, f: V -> int): int
  {
    if m == map[] then 0
    else
      assert m.Keys != {};
      var k :| k in m;
      f(m[k]) + SumMap(m - {k}, f)
  }

  lemma {:induction false} SumMapRemove<K, V>(m: map<K, V>, x: K, f: V -> int)
    requires x in m
    ensures SumMap(m, f) == f(m[x]) + SumMap(m - {x}, f)
    decreases |m|
  {
    assert m != map[];
    var k :| k in m && SumMap(m, f) == f(m[k]) + SumMap(m - {k}, f);
    if k != x {
      SumMapRemove(m - {k}, x, f);
      SumMapRemove(m - {x}, k, f);
      assert m - {k} - {x} == m - {x} - {k};
    }
  }

  lemma SumMapInsert<K, V>(m: map<K, V>, x: K, v: V, f: V -> int)
    requires x !in m
    ensures SumMap(m[x := v], f) == SumMap(m, f) + f(v)
  {
    SumMapRemove(m[x := v], x, f);
    assert m[x := v] - {x} == m;
  }
}
