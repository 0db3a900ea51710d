/**
 Renumbering vtables: the slot layouts of the imported bundles are merged into one union, and
 each bundle's tables are permuted into it. A table has one entry a slot and the destructor behind.
 */
module Vtables {
  import opened Options

  type Name = string
  type Code = nat                       // 0 is the null pointer

  // ---- the merged layout ----

  predicate Distinct(slots: seq<Name>)
  {
    forall i, j :: 0 <= i < j < |slots| ==> slots[i] != slots[j]
  }

  /** Distinct, gaps (empty names) aside. */
  predicate NamesDistinct(slots: seq<Name>)
  {
    forall i, j :: 0 <= i < j < |slots| && slots[i] != "" ==> slots[i] != slots[j]
  }

  /** `seed` with the names of `slots` it lacks, in their order. */
  function UnionOf(seed: seq<Name>, slots: seq<Name>): seq<Name>
    decreases |slots|
  {
    if slots == [] then seed
    else UnionOf(if slots[0] in seed then seed else seed + [slots[0]], slots[1..])
  }

  function UnionAll(seed: seq<Name>, bundles: seq<seq<Name>>): seq<Name>
    decreases |bundles|
  {
    if bundles == [] then seed else UnionAll(UnionOf(seed, bundles[0]), bundles[1..])
  }

  /** One bundle's names adopted into the seed. */
  method AdoptSlots(seed: seq<Name>, slots: seq<Name>) returns (merged: seq<Name>)
    ensures merged == UnionOf(seed, slots)
  {
    merged := seed;
    for i := 0 to |slots|
      invariant UnionOf(merged, slots[i..]) == UnionOf(seed, slots)
    {
      assert slots[i..][1..] == slots[i + 1..];
      if slots[i] !in merged {
        merged := merged + [slots[i]];
      }
    }
  }

  method MergeLayouts(bundles: seq<seq<Name>>) returns (merged: seq<Name>)
    ensures merged == UnionAll([], bundles)
  {
    merged := [];
    for i := 0 to |bundles|
      invariant UnionAll(merged, bundles[i..]) == UnionAll([], bundles)
    {
      assert bundles[i..][1..] == bundles[i + 1..];
      merged := AdoptSlots(merged, bundles[i]);
    }
  }

  /** No repetition comes in, numbers already given stay, every name gets one, and nothing else does. */
  lemma {:induction false} UnionIs(seed: seq<Name>, slots: seq<Name>)
    requires Distinct(seed)
    ensures Distinct(UnionOf(seed, slots)) && seed <= UnionOf(seed, slots)
    ensures forall s :: s in UnionOf(seed, slots) <==> s in seed || s in slots
    decreases |slots|
  {
    if slots != [] {
      var next := if slots[0] in seed then seed else seed + [slots[0]];
      UnionIs(next, slots[1..]);
      assert slots == [slots[0]] + slots[1..];
    }
  }

  lemma {:induction false} UnionAllIs(seed: seq<Name>, bundles: seq<seq<Name>>)
    requires Distinct(seed)
    ensures Distinct(UnionAll(seed, bundles)) && seed <= UnionAll(seed, bundles)
    ensures forall b, s :: b in bundles && s in b ==> s in UnionAll(seed, bundles)
    ensures forall s :: s in UnionAll(seed, bundles) ==> s in seed || exists b :: b in bundles && s in b
    decreases |bundles|
  {
    if bundles != [] {
      UnionIs(seed, bundles[0]);
      UnionAllIs(UnionOf(seed, bundles[0]), bundles[1..]);
    }
  }

  /** Whether every name of every bundle has a slot in the merged layout. */
  method Reconciled(merged: seq<Name>, bundles: seq<seq<Name>>) returns (good: bool)
    ensures good <==> forall b, s :: b in bundles && s in b && s != "" ==> s in merged
  {
    for k := 0 to |bundles|
      invariant forall j, i :: 0 <= j < k && 0 <= i < |bundles[j]| && bundles[j][i] != "" ==> bundles[j][i] in merged
    {
      for i := 0 to |bundles[k]|
        invariant forall j :: 0 <= j < i && bundles[k][j] != "" ==> bundles[k][j] in merged
      {
        if bundles[k][i] != "" && bundles[k][i] !in merged {
          assert bundles[k] in bundles && bundles[k][i] in bundles[k];
          return false;
        }
      }
    }
    return true;
  }

  // ---- one table ----

  /** The first index of a name. */
  function Find(slots: seq<Name>, s: Name): (i: nat)
    ensures i <= |slots| && (i < |slots| ==> slots[i] == s) && (forall j :: 0 <= j < i ==> slots[j] != s)
    ensures i < |slots| <==> s in slots
  {
    if slots == [] || slots[0] == s then 0 else 1 + Find(slots[1..], s)
  }

  /** The entry a table laid out by `from` has for a method: that of the last slot so named. */
  function Entry(init: seq<Code>, from: seq<Name>, s: Name): Code
    requires |from| <= |init|
  {
    if from == [] then 0
    else
      var n := |from| - 1;
      if from[n] == s then init[n] else Entry(init, from[..n], s)
  }

  /** What a slot of the merged layout holds for this table. */
  function MergedEntry(init: seq<Code>, from: seq<Name>, to: seq<Name>, k: nat): Code
    requires |from| <= |init| && k < |to|
  {
    if to[k] != "" && Find(to, to[k]) == k then Entry(init, from, to[k]) else 0
  }

  /** A table permuted into the merged layout; none when it is not a slot table of this numbering. */
  method RemapVtable(init: seq<Code>, from: seq<Name>, to: seq<Name>) returns (r: Option<seq<Code>>)
    ensures r.None? <==> |init| != |from| + 1
    ensures r.Some? ==>
      && |r.value| == |to| + 1 && r.value[|to|] == init[|from|]
      && forall k :: 0 <= k < |to| ==> r.value[k] == MergedEntry(init, from, to, k)
  {
    if |init| != |from| + 1 {
      return None;
    }
    var out := seq(|to| + 1, i => 0);
    for i := 0 to |from|
      invariant |out| == |to| + 1
      invariant forall k :: 0 <= k < |to| ==> out[k] == MergedEntry(init, from[..i], to, k)
    {
      assert from[..i + 1][..i] == from[..i];
      if from[i] != "" {
        var at := Find(to, from[i]);
        if at < |to| {
          out := out[at := init[i]];
        }
      }
    }
    assert from[..|from|] == from;
    out := out[|to| := init[|from|]];
    return Some(out);
  }

  // ---- dispatch ----

  lemma {:induction false} EntryOf(init: seq<Code>, from: seq<Name>, i: nat)
    requires |from| <= |init| && i < |from| && from[i] != "" && NamesDistinct(from)
    ensures Entry(init, from, from[i]) == init[i]
  {
    var n := |from| - 1;
    if i < n {
      assert from[i] != from[n];
      EntryOf(init, from[..n], i);
    }
  }

  /** An entry comes from a slot of that name, or there is none. */
  lemma {:induction false} EntryFrom(init: seq<Code>, from: seq<Name>, s: Name)
    requires |from| <= |init|
    ensures Entry(init, from, s) == 0 || exists i :: 0 <= i < |from| && from[i] == s && Entry(init, from, s) == init[i]
  {
    if from != [] {
      var n := |from| - 1;
      if from[n] == s {
        assert Entry(init, from, s) == init[n];
      } else {
        EntryFrom(init, from[..n], s);
      }
    }
  }

  /** Calling a method through the merged numbering reaches what it reached before. */
  ghost predicate DispatchKept(init: seq<Code>, from: seq<Name>, to: seq<Name>)
    requires |init| == |from| + 1
  {
    forall i :: 0 <= i < |from| && from[i] != "" && from[i] in to ==> MergedEntry(init, from, to, Find(to, from[i])) == init[i]
  }

  /** Dispatch is kept for every table of a bundle exactly when the bundle numbers no known method twice. */
  lemma DispatchKeptIff(from: seq<Name>, to: seq<Name>)
    ensures (forall init :: |init| == |from| + 1 ==> DispatchKept(init, from, to)) <==>
            (forall i, j :: 0 <= i < j < |from| && from[i] != "" && from[i] in to ==> from[i] != from[j])
  {
    if forall i, j :: 0 <= i < j < |from| && from[i] != "" && from[i] in to ==> from[i] != from[j] {
      forall init: seq<Code> | |init| == |from| + 1
        ensures DispatchKept(init, from, to)
      {
        forall i | 0 <= i < |from| && from[i] != "" && from[i] in to
          ensures MergedEntry(init, from, to, Find(to, from[i])) == init[i]
        {
          EntryOfLast(init, from, i);
        }
      }
    } else {
      var i, j :| 0 <= i < j < |from| && from[i] != "" && from[i] in to && from[i] == from[j];
      var init := seq(|from| + 1, k => k + 1);
      EntryIsLater(init, from, j);
      assert !DispatchKept(init, from, to);
    }
  }

  lemma {:induction false} EntryOfLast(init: seq<Code>, from: seq<Name>, i: nat)
    requires |from| <= |init| && i < |from| && forall j :: i < j < |from| ==> from[i] != from[j]
    ensures Entry(init, from, from[i]) == init[i]
  {
    var n := |from| - 1;
    if i < n {
      EntryOfLast(init, from[..n], i);
    }
  }

  /** The later of two slots with one name wins. */
  lemma {:induction false} EntryIsLater(init: seq<Code>, from: seq<Name>, j: nat)
    requires |from| <= |init| && j < |from| && forall k :: 0 <= k < |from| ==> init[k] == k + 1
    ensures Entry(init, from, from[j]) > j
  {
    var n := |from| - 1;
    if from[n] != from[j] {
      EntryIsLater(init, from[..n], j);
    }
  }

  /** Tables of different bundles agree on what merged slot `k` means: what either puts there is its entry for `to[k]`. */
  lemma TablesAgree(init1: seq<Code>, from1: seq<Name>, init2: seq<Code>, from2: seq<Name>, to: seq<Name>, k: nat)
    requires |init1| == |from1| + 1 && |init2| == |from2| + 1 && k < |to|
    requires MergedEntry(init1, from1, to, k) != 0 && MergedEntry(init2, from2, to, k) != 0
    ensures exists i, j ::
      && 0 <= i < |from1| && 0 <= j < |from2| && from1[i] == from2[j] == to[k] != ""
      && MergedEntry(init1, from1, to, k) == init1[i] && MergedEntry(init2, from2, to, k) == init2[j]
  {
    EntryFrom(init1, from1, to[k]);
    EntryFrom(init2, from2, to[k]);
  }

  /** From the imported layouts to a table of one of them: nothing is left out and every call still arrives. */
  lemma MergeKeepsDispatch(bundles: seq<seq<Name>>, b: nat, init: seq<Code>)
    requires b < |bundles| && |init| == |bundles[b]| + 1 && NamesDistinct(bundles[b])
    ensures var to := UnionAll([], bundles);
            && Distinct(to) && DispatchKept(init, bundles[b], to)
            && forall i :: 0 <= i < |bundles[b]| ==> bundles[b][i] in to
  {
    var to, from := UnionAll([], bundles), bundles[b];
    UnionAllIs([], bundles);
    assert from in bundles;
    forall i | 0 <= i < |from| && from[i] != "" && from[i] in to
      ensures MergedEntry(init, from, to, Find(to, from[i])) == init[i]
    {
      EntryOf(init, from, i);
    }
  }

  /** The whole path: merge, check, renumber. The check cannot fail, and every call arrives. */
  method RenumberFor(bundles: seq<seq<Name>>, b: nat, init: seq<Code>) returns (table: seq<Code>, merged: seq<Name>)
    requires b < |bundles| && |init| == |bundles[b]| + 1 && NamesDistinct(bundles[b])
    ensures Distinct(merged) && |table| == |merged| + 1 && table[|merged|] == init[|init| - 1]
    ensures forall i :: 0 <= i < |bundles[b]| && bundles[b][i] != "" ==>
      bundles[b][i] in merged && table[Find(merged, bundles[b][i])] == init[i]
  {
    merged := MergeLayouts(bundles);
    UnionAllIs([], bundles);
    MergeKeepsDispatch(bundles, b, init);
    var good := Reconciled(merged, bundles);
    assert good;
    var r := RemapVtable(init, bundles[b], merged);
    table := r.value;
  }
}
