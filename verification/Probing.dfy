/**
 Open addressing with linear probing: what the pointer set and the pointer map behind
 `cascade` share. A table is a power-of-two run of slots, 0 is the empty slot, and a pointer
 is looked for from its home slot onwards, going round, up to the first empty slot.
 */
module Probing {
  import opened Tally

  type Ptr = nat

  // ---- the hash and the mask ----

  const FNV_PRIME: nat := 1099511628211
  const TWO64: nat := 0x1_0000_0000_0000_0000

  predicate PowerOfTwo(n: nat)
  {
    n == 1 || (n > 1 && n % 2 == 0 && PowerOfTwo(n / 2))
  }

  /** Bitwise and. */
  function And(x: nat, y: nat): nat
  {
    if x == 0 || y == 0 then 0
    else 2 * And(x / 2, y / 2) + (if x % 2 == 1 && y % 2 == 1 then 1 else 0)
  }

  /** Masking with one less than a power of two keeps the low bits. */
  lemma {:induction false} MaskStays(x: nat, cap: nat)
    requires PowerOfTwo(cap)
    ensures And(x, cap - 1) < cap
    ensures x < cap ==> And(x, cap - 1) == x
    ensures x == cap ==> And(x, cap - 1) == 0
    decreases cap
  {
    if cap > 1 {
      assert (cap - 1) / 2 == cap / 2 - 1 && (cap - 1) % 2 == 1;
      MaskStays(x / 2, cap / 2);
    }
  }

  /** The slot a pointer is looked for first. */
  function Home(p: Ptr, cap: nat): (r: nat)
    requires PowerOfTwo(cap)
    ensures r < cap
  {
    MaskStays(p * FNV_PRIME % TWO64, cap);
    And(p * FNV_PRIME % TWO64, cap - 1)
  }

  /** The slot after `i`. */
  function Next(i: nat, cap: nat): (r: nat)
    requires PowerOfTwo(cap) && i < cap
    ensures r == if i + 1 < cap then i + 1 else 0
  {
    MaskStays(i + 1, cap);
    And(i + 1, cap - 1)
  }

  // ---- tables ----

  predicate Used(p: Ptr) { p != 0 }

  /** `i` is met on the way from `from` up to, but not including, `to`. */
  predicate Between(from: nat, i: nat, to: nat)
  {
    if from <= to then from <= i < to else i >= from || i < to
  }

  /** The pointers of a run of slots, empty ones left out. */
  ghost function Members(t: seq<Ptr>): set<Ptr>
  {
    set p | p in t && p != 0
  }

  ghost predicate NoEmptyBetween(t: seq<Ptr>, from: nat, to: nat)
  {
    forall i :: 0 <= i < |t| && Between(from, i, to) ==> t[i] != 0
  }

  ghost predicate Distinct(t: seq<Ptr>)
  {
    forall i, j :: 0 <= i < j < |t| && t[i] != 0 ==> t[i] != t[j]
  }

  /** Every pointer can be reached from its home slot without crossing an empty one. */
  ghost predicate Reachable(t: seq<Ptr>)
    requires PowerOfTwo(|t|)
  {
    forall j :: 0 <= j < |t| && t[j] != 0 ==> NoEmptyBetween(t, Home(t[j], |t|), j)
  }

  ghost predicate IsTable(t: seq<Ptr>)
  {
    PowerOfTwo(|t|) && Distinct(t) && Reachable(t)
  }

  /** Where the search for `p` ends: on `p`, or on the first empty slot after its home. */
  ghost predicate EndsAt(t: seq<Ptr>, p: Ptr, idx: nat)
    requires PowerOfTwo(|t|)
  {
    && idx < |t| && (t[idx] == 0 || t[idx] == p)
    && NoEmptyBetween(t, Home(p, |t|), idx)
    && forall i :: 0 <= i < |t| && Between(Home(p, |t|), i, idx) ==> t[i] != p
  }

  /** Ending on an empty slot means the pointer is nowhere in the table. */
  lemma EndsEmptyMeansAbsent(t: seq<Ptr>, p: Ptr, idx: nat)
    requires IsTable(t) && p != 0 && EndsAt(t, p, idx)
    ensures t[idx] == 0 <==> p !in t
  {
    if t[idx] == 0 {
      forall j | 0 <= j < |t|
        ensures t[j] != p
      {
      }
    }
  }

  /** A new pointer put where its search ended leaves a table. */
  lemma InsertKeepsTable(t: seq<Ptr>, p: Ptr, idx: nat)
    requires IsTable(t) && p != 0 && p !in Members(t) && EndsAt(t, p, idx)
    ensures IsTable(t[idx := p])
    ensures Count(t[idx := p], Used) == Count(t, Used) + 1
    ensures Members(t[idx := p]) == Members(t) + {p}
  {
    var u := t[idx := p];
    CountUpdate(t, idx, p, Used);
    forall j | 0 <= j < |u| && u[j] != 0
      ensures NoEmptyBetween(u, Home(u[j], |u|), j)
    {
      if j != idx {
        assert NoEmptyBetween(t, Home(t[j], |t|), j);
      }
    }
    MembersUpdate(t, p, idx);
  }

  lemma MembersUpdate(t: seq<Ptr>, p: Ptr, idx: nat)
    requires idx < |t| && t[idx] == 0 && p != 0
    ensures Members(t[idx := p]) == Members(t) + {p}
  {
    var u := t[idx := p];
    forall q | q != 0
      ensures q in u <==> q in t || q == p
    {
      if q in t {
        var j :| 0 <= j < |t| && t[j] == q;
        assert u[j] == q;
      }
      assert u[idx] == p;
    }
  }

  /** What the first `i + 1` slots hold beyond the first `i`. */
  lemma PrefixStep(s: seq<Ptr>, i: nat)
    requires i < |s| && Distinct(s)
    ensures s[i] !in Members(s[..i])
    ensures Members(s[..i + 1]) == Members(s[..i]) + (if s[i] == 0 then {} else {s[i]})
    ensures Count(s[..i + 1], Used) == Count(s[..i], Used) + (if s[i] == 0 then 0 else 1)
    ensures Count(s[..i], Used) <= Count(s, Used)
  {
    assert s[..i + 1] == s[..i] + [s[i]];
    CountAppend(s[..i], s[i], Used);
    CountOfPart(s, i);
  }

  lemma {:induction false} CountOfPart(s: seq<Ptr>, i: nat)
    requires i <= |s|
    ensures Count(s[..i], Used) <= Count(s, Used)
  {
    if i < |s| {
      CountOfPart(s[..|s| - 1], i);
      assert s[..|s| - 1][..i] == s[..i];
    } else {
      assert s[..i] == s;
    }
  }

  /** A table that is not full has an empty slot, so every search ends. */
  lemma {:induction false} EmptySlot(t: seq<Ptr>) returns (e: nat)
    requires Count(t, Used) < |t|
    ensures e < |t| && t[e] == 0
  {
    var n := |t| - 1;
    if t[n] == 0 {
      e := n;
    } else {
      e := EmptySlot(t[..n]);
    }
  }

  lemma {:induction false} NoneUsed(t: seq<Ptr>)
    requires forall i :: 0 <= i < |t| ==> t[i] == 0
    ensures Count(t, Used) == 0 && Members(t) == {}
    ensures PowerOfTwo(|t|) ==> IsTable(t)
  {
    if t != [] {
      NoneUsed(t[..|t| - 1]);
    }
  }

  /** How far `e` is ahead of `idx`, going round. */
  function Ahead(idx: nat, e: nat, cap: nat): nat
    requires idx < cap && e < cap
  {
    if idx <= e then e - idx else e - idx + cap
  }

  /** The search: walk from the home slot until the pointer or an empty slot is met. */
  method Search(t: array<Ptr>, p: Ptr) returns (idx: nat)
    requires IsTable(t[..]) && p != 0 && Count(t[..], Used) < t.Length
    ensures EndsAt(t[..], p, idx)
    ensures idx < t.Length && t[idx] == (if p in Members(t[..]) then p else 0)
  {
    ghost var s := t[..];
    ghost var e := EmptySlot(s);
    var cap := t.Length;
    ghost var home := Home(p, cap);
    idx := Home(p, cap);
    while t[idx] != 0
      invariant idx < cap && NoEmptyBetween(s, home, idx)
      invariant forall i :: 0 <= i < cap && Between(home, i, idx) ==> s[i] != p
      decreases Ahead(idx, e, cap)
    {
      if t[idx] == p {
        EndsEmptyMeansAbsent(s, p, idx);
        return;
      }
      assert !Between(home, e, idx);
      idx := Next(idx, cap);
    }
    EndsEmptyMeansAbsent(s, p, idx);
  }

  /** Whether one more entry would fill three quarters of the table. */
  predicate NeedsGrowth(count: nat, cap: nat)
  {
    (count + 1) * 4 >= cap * 3
  }

  /** The next capacity: 64, then doubling. */
  function Grown(cap: nat): (r: nat)
    requires cap == 0 || (PowerOfTwo(cap) && cap >= 64)
    ensures PowerOfTwo(r) && r >= 64 && r >= 2 * cap
  {
    if cap != 0 then cap * 2
    else assert PowerOfTwo(8) && PowerOfTwo(32); 64
  }
}
