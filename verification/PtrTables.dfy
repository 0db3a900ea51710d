/**
 The pointer set and the pointer map behind `cascade` and `cascade clone`, as the runtime
 builds them: linear probing, growth by doubling at three quarters full. 0 is the null pointer.
 */
module PtrTables {
  import opened Tally
  import opened Probing

  /** Never larger than the one doubling that the next entry may ask for. */
  predicate Sized(cap: nat, count: nat) { cap <= 64 || 3 * cap <= 8 * (count + 1) }

  /** How a table of `count` entries must stand to the slots. */
  ghost predicate Loaded(t: seq<Ptr>, count: nat)
  {
    && count == Count(t, Used)
    && (if |t| == 0 then count == 0 else IsTable(t) && |t| >= 64 && 4 * count < 3 * |t|)
    && Sized(|t|, count)
  }

  lemma FitsAfterGrowth(cap: nat, count: nat)
    requires if cap == 0 then count == 0 else cap >= 64 && 4 * count < 3 * cap
    requires Sized(cap, count) && (NeedsGrowth(count, cap) ==> cap == 0 || PowerOfTwo(cap))
    ensures NeedsGrowth(count, cap) ==> !NeedsGrowth(count, Grown(cap))
    ensures
      var c := if NeedsGrowth(count, cap) then Grown(cap) else cap;
      Sized(c, count) && Sized(c, count + 1)
  {
  }

  class PtrSet {
    var slots: array<Ptr>
    var count: nat

    ghost predicate Valid()
      reads this, slots
    {
      Loaded(slots[..], count)
    }

    /** The pointers seen so far. */
    ghost function Contents(): set<Ptr>
      reads this, slots
    {
      Members(slots[..])
    }

    constructor ()
      ensures Valid() && Contents() == {} && fresh(slots)
    {
      slots := new Ptr[0];
      count := 0;
    }

    /** Rehash everything into a table twice as large. */
    method Grow()
      requires Valid()
      modifies this`slots
      ensures fresh(slots) && slots.Length == Grown(old(slots.Length))
      ensures IsTable(slots[..]) && count == Count(slots[..], Used) && Contents() == old(Contents())
    {
      hide Distinct, Reachable, EndsAt, Members, Count;
      var ns := new Ptr[Grown(slots.Length)](i => 0);
      ghost var s := slots[..];
      NoneUsed(ns[..]);
      NoneUsed(s[..0]);
      for i := 0 to slots.Length
        invariant slots[..] == s && fresh(ns) && ns.Length == Grown(slots.Length)
        invariant IsTable(ns[..]) && Count(ns[..], Used) == Count(s[..i], Used)
        invariant Members(ns[..]) == Members(s[..i])
      {
        PrefixStep(s, i);
        if slots[i] != 0 {
          var idx := Search(ns, slots[i]);
          InsertKeepsTable(ns[..], slots[i], idx);
          ns[idx] := slots[i];
        }
      }
      assert s[..slots.Length] == s;
      slots := ns;
    }

    /** 1 the first time a pointer is seen, 0 afterwards; a null pointer counts as seen. */
    method Add(p: Ptr) returns (r: int)
      requires Valid()
      modifies this, slots
      ensures Valid() && (slots == old(slots) || fresh(slots))
      ensures r == if p != 0 && p !in old(Contents()) then 1 else 0
      ensures Contents() == old(Contents()) + (if p == 0 then {} else {p})
    {
      hide Distinct, Reachable, EndsAt, Count, Sized;
      if p == 0 {
        return 0;
      }
      FitsAfterGrowth(slots.Length, count);
      if NeedsGrowth(count, slots.Length) {
        Grow();
      }
      var idx := Search(slots, p);
      if slots[idx] == p {
        return 0;
      }
      InsertKeepsTable(slots[..], p, idx);
      slots[idx] := p;
      count := count + 1;
      return 1;
    }
  }

  /** What a map of keys and values holds. */
  ghost predicate Holds(keys: seq<Ptr>, vals: seq<Ptr>, m: map<Ptr, Ptr>)
  {
    |vals| == |keys| && m.Keys == Members(keys) && Matches(keys, vals, m)
  }

  ghost predicate Matches(keys: seq<Ptr>, vals: seq<Ptr>, m: map<Ptr, Ptr>)
    requires |vals| == |keys|
  {
    forall j :: 0 <= j < |keys| && keys[j] != 0 ==> keys[j] in m && vals[j] == m[keys[j]]
  }

  lemma SameLength(keys: seq<Ptr>, vals: seq<Ptr>, m: map<Ptr, Ptr>)
    requires Holds(keys, vals, m)
    ensures |vals| == |keys|
  {
  }

  lemma NothingMatches(keys: seq<Ptr>, vals: seq<Ptr>, m: map<Ptr, Ptr>)
    requires |vals| == |keys| && forall j :: 0 <= j < |keys| ==> keys[j] == 0
    ensures Matches(keys, vals, m)
  {
  }

  lemma MatchesAt(keys: seq<Ptr>, vals: seq<Ptr>, m: map<Ptr, Ptr>, i: nat)
    requires |vals| == |keys| && i < |keys| && Matches(keys, vals, m) && keys[i] != 0
    ensures keys[i] in m && m[keys[i] := vals[i]] == m
  {
  }

  /** Writing a value beside its key, when no other slot has that key. */
  lemma MatchesUpdate(keys: seq<Ptr>, vals: seq<Ptr>, m: map<Ptr, Ptr>, idx: nat, key: Ptr, val: Ptr)
    requires |vals| == |keys| && idx < |keys| && Matches(keys, vals, m) && key != 0
    requires Distinct(keys[idx := key])
    ensures Matches(keys[idx := key], vals[idx := val], m[key := val])
  {
    var k := keys[idx := key];
    forall j | 0 <= j < |k| && k[j] != 0
      ensures k[j] in m[key := val] && vals[idx := val][j] == m[key := val][k[j]]
    {
      assert k[idx] == key;
    }
  }

  /** Writing a key where its search ended, and its value beside it. */
  lemma PutIs(k: seq<Ptr>, v: seq<Ptr>, m: map<Ptr, Ptr>, idx: nat, key: Ptr, val: Ptr)
    requires IsTable(k) && Holds(k, v, m) && key != 0 && EndsAt(k, key, idx) && idx < |k|
    requires k[idx] == if key in Members(k) then key else 0
    ensures IsTable(k[idx := key]) && Holds(k[idx := key], v[idx := val], m[key := val])
    ensures Count(k[idx := key], Used) == Count(k, Used) + (if k[idx] == key then 0 else 1)
  {
    hide Reachable, EndsAt, Count, Matches;
    if k[idx] == key {
      assert k[idx := key] == k;
    } else {
      InsertKeepsTable(k, key, idx);
    }
    MatchesUpdate(k, v, m, idx, key, val);
  }

  class PtrMap {
    var keys: array<Ptr>
    var vals: array<Ptr>
    var count: nat
    ghost var contents: map<Ptr, Ptr>     // what each key was last put to

    ghost predicate Valid()
      reads this, keys, vals
    {
      keys != vals && Loaded(keys[..], count) && Holds(keys[..], vals[..], contents)
    }

    constructor ()
      ensures Valid() && contents == map[] && fresh(keys) && fresh(vals)
    {
      keys := new Ptr[0];
      vals := new Ptr[0];
      count, contents := 0, map[];
    }

    method Grow()
      requires Valid()
      modifies this`keys, this`vals
      ensures fresh(keys) && fresh(vals) && keys != vals && keys.Length == Grown(old(keys.Length))
      ensures IsTable(keys[..]) && count == Count(keys[..], Used) && Holds(keys[..], vals[..], contents)
    {
      hide Distinct, Reachable, EndsAt, Members, Count, Matches;
      var nk := new Ptr[Grown(keys.Length)](i => 0);
      var nv := new Ptr[Grown(keys.Length)](i => 0);
      ghost var s, v := keys[..], vals[..];
      NoneUsed(nk[..]);
      NoneUsed(s[..0]);
      NothingMatches(nk[..], nv[..], contents);
      for i := 0 to keys.Length
        invariant keys[..] == s && vals[..] == v && fresh(nk) && fresh(nv) && nk != nv
        invariant nk.Length == nv.Length == Grown(keys.Length)
        invariant IsTable(nk[..]) && Count(nk[..], Used) == Count(s[..i], Used)
        invariant Members(nk[..]) == Members(s[..i])
        invariant Matches(nk[..], nv[..], contents)
      {
        PrefixStep(s, i);
        if keys[i] != 0 {
          var idx := Search(nk, keys[i]);
          InsertKeepsTable(nk[..], keys[i], idx);
          ghost var k0, v0 := nk[..], nv[..];
          MatchesAt(s, v, contents, i);
          MatchesUpdate(k0, v0, contents, idx, keys[i], vals[i]);
          nk[idx] := keys[i];
          nv[idx] := vals[i];
          assert nk[..] == k0[idx := keys[i]] && nv[..] == v0[idx := vals[i]];
        }
      }
      assert s[..keys.Length] == s;
      keys, vals := nk, nv;
    }

    /** The latest value put under a key, 0 for a key never put. */
    method Get(key: Ptr) returns (val: Ptr)
      requires Valid()
      ensures val == if key in contents then contents[key] else 0
    {
      if key == 0 || keys.Length == 0 {
        return 0;
      }
      var idx := Search(keys, key);
      if keys[idx] == key {
        return vals[idx];
      }
      return 0;
    }

    method Put(key: Ptr, val: Ptr)
      requires Valid()
      modifies this, keys, vals
      ensures Valid() && (keys == old(keys) || fresh(keys)) && (vals == old(vals) || fresh(vals))
      ensures contents == if key == 0 then old(contents) else old(contents)[key := val]
    {
      hide Distinct, Reachable, EndsAt, Count, Holds, Members, Sized;
      if key == 0 {
        return;
      }
      FitsAfterGrowth(keys.Length, count);
      if NeedsGrowth(count, keys.Length) {
        Grow();
      }
      var idx := Search(keys, key);
      ghost var k, v := keys[..], vals[..];
      assert vals.Length == keys.Length by { SameLength(k, v, contents); }
      PutIs(k, v, contents, idx, key, val);
      contents := contents[key := val];
      if keys[idx] == key {
        vals[idx] := val;
        assert keys[..] == k[idx := key] && vals[..] == v[idx := val];
        return;
      }
      keys[idx] := key;
      vals[idx] := val;
      assert keys[..] == k[idx := key] && vals[..] == v[idx := val];
      count := count + 1;
    }
  }
}
