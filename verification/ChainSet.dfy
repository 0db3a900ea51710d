/**
 The freestanding pointer set: a chain of blocks of 62 slots, scanned from the first block and
 appended to at the last. It must answer as the hashed set of the runtime does.
 */
module ChainSets {
  import opened Probing
  import opened PtrTables

  const SLOTS: nat := 62

  class Block {
    var count: nat
    var next: Block?
    const items: array<Ptr>

    constructor ()
      ensures count == 0 && next == null && items.Length == SLOTS && fresh(items)
    {
      count, next := 0, null;
      items := new Ptr[SLOTS](i => 0);
    }
  }

  class ChainSet {
    const head: Block
    ghost var blocks: seq<Block>      // the chain, in order
    ghost var order: seq<Ptr>         // the pointers added, oldest first

    ghost function Arrays(): set<array<Ptr>>
      reads this
    {
      set b | b in blocks :: b.items
    }

    ghost predicate IsChain()
      reads this, blocks, Arrays()
    {
      && |blocks| > 0 && blocks[0] == head
      && (forall i :: 0 <= i < |blocks| ==> blocks[i].items.Length == SLOTS)
      && (forall i :: 0 <= i < |blocks| - 1 ==> blocks[i].next != null && blocks[i].next == blocks[i + 1])
      && blocks[|blocks| - 1].next == null
      && (forall i, j :: 0 <= i < j < |blocks| ==> blocks[i] != blocks[j] && blocks[i].items != blocks[j].items)
    }

    /** Block `i` holds a full run of `order`, the last one the rest. */
    ghost predicate IsFilled()
      requires IsChain()
      reads this, blocks, Arrays()
    {
      && 62 * (|blocks| - 1) <= |order| <= 62 * |blocks|
      && (forall i :: 0 <= i < |blocks| - 1 ==> blocks[i].count == SLOTS)
      && blocks[|blocks| - 1].count == |order| - 62 * (|blocks| - 1)
      && (forall i :: 0 <= i < |blocks| ==> HoldsFrom(blocks[i], 62 * i, order))
    }

    /** The items of a block are those of `all` from position `at` on. */
    static ghost predicate HoldsFrom(b: Block, at: nat, all: seq<Ptr>)
      reads b, b.items
    {
      && b.count <= b.items.Length && at + b.count <= |all|
      && forall j :: 0 <= j < b.count ==> b.items[j] == all[at + j]
    }

    ghost predicate Valid()
      reads this, blocks, Arrays()
    {
      IsChain() && IsFilled()
    }

    constructor ()
      ensures Valid() && order == []
      ensures forall b :: b in blocks ==> fresh(b) && fresh(b.items)
    {
      head := new Block();
      new;
      blocks, order := [head], [];
    }

    /** Whether the first `b.count` items of block `i` hold `p`. */
    method ScanBlock(b: Block, p: Ptr, ghost i: nat) returns (found: bool)
      requires Valid() && i < |blocks| && b == blocks[i]
      ensures found <==> p in order[62 * i..62 * i + b.count]
    {
      var j := 0;
      while j < b.count
        invariant j <= b.count && p !in order[62 * i..62 * i + j]
      {
        if b.items[j] == p {
          assert order[62 * i..62 * i + b.count][j] == p;
          return true;
        }
        j := j + 1;
      }
      return false;
    }

    /** Look through the chain; without success the walk ends on the last block. */
    method Walk(p: Ptr) returns (found: bool, last: Block)
      requires Valid()
      ensures found <==> p in order
      ensures !found ==> last == blocks[|blocks| - 1]
    {
      last := head;
      ghost var i := 0;
      while true
        invariant Valid() && i < |blocks| && last == blocks[i]
        invariant p !in order[..62 * i]
        decreases |blocks| - i
      {
        found := ScanBlock(last, p, i);
        if found {
          return;
        }
        ghost var upTo := 62 * i + last.count;
        assert order[..upTo] == order[..62 * i] + order[62 * i..upTo];
        if last.next == null {
          assert order[..upTo] == order;
          return;
        }
        assert upTo == 62 * (i + 1);
        last := last.next;
        i := i + 1;
      }
    }

    /** Store a pointer in the last block, which has room. */
    method StoreHere(last: Block, p: Ptr)
      requires Valid() && last == blocks[|blocks| - 1] && last.count < SLOTS
      modifies this`order, last`count, last.items
      ensures Valid() && order == old(order) + [p]
    {
      order := order + [p];
      last.items[last.count] := p;
      last.count := last.count + 1;
      forall i | 0 <= i < |blocks|
        ensures HoldsFrom(blocks[i], 62 * i, order)
      {
        assert old(HoldsFrom(blocks[i], 62 * i, order));
      }
    }

    /** Chain a fresh block holding the pointer after the last one, which is full. */
    method StoreInNewBlock(last: Block, p: Ptr)
      requires Valid() && last == blocks[|blocks| - 1] && last.count == SLOTS
      modifies this`order, this`blocks, last`next
      ensures Valid() && order == old(order) + [p]
      ensures |blocks| == |old(blocks)| + 1 && blocks[..|old(blocks)|] == old(blocks)
      ensures fresh(blocks[|blocks| - 1]) && fresh(blocks[|blocks| - 1].items)
    {
      var added := new Block();
      added.items[0] := p;
      added.count := 1;
      last.next := added;
      ghost var n := |blocks|;
      blocks := blocks + [added];
      order := order + [p];
      forall i | 0 <= i < |blocks|
        ensures HoldsFrom(blocks[i], 62 * i, order)
      {
        if i < n {
          assert old(HoldsFrom(blocks[i], 62 * i, order));
        }
      }
    }

    /** 1 the first time a pointer is seen, 0 afterwards. */
    method Add(p: Ptr) returns (r: int)
      requires Valid()
      modifies this, blocks, Arrays()
      ensures Valid() && forall b :: b in blocks && b !in old(blocks) ==> fresh(b) && fresh(b.items)
      ensures r == if p in old(order) then 0 else 1
      ensures order == if p in old(order) then old(order) else old(order) + [p]
    {
      hide HoldsFrom;
      var found, last := Walk(p);
      if found {
        return 0;
      }
      if last.count < SLOTS {
        StoreHere(last, p);
      } else {
        StoreInNewBlock(last, p);
      }
      return 1;
    }
  }

  // ---- the two sets side by side ----

  /** 1 at each place where a non-null pointer occurs for the first time. */
  ghost function FirstSights(adds: seq<Ptr>): (r: seq<int>)
    ensures |r| == |adds|
  {
    seq(|adds|, i requires 0 <= i < |adds| => if adds[i] != 0 && adds[i] !in adds[..i] then 1 else 0)
  }

  /** 1 at each place where any word, the null pointer included, occurs for the first time. */
  ghost function FirstWords(adds: seq<Ptr>): (r: seq<int>)
    ensures |r| == |adds|
  {
    seq(|adds|, i requires 0 <= i < |adds| => if adds[i] !in adds[..i] then 1 else 0)
  }

  /** The hashed set, driven by any sequence of adds. */
  method HashedAnswers(adds: seq<Ptr>) returns (answers: seq<int>)
    ensures answers == FirstSights(adds)
  {
    var s := new PtrSet();
    answers := [];
    for i := 0 to |adds|
      invariant fresh(s) && fresh(s.slots) && s.Valid()
      invariant s.Contents() == Members(adds[..i])
      invariant |answers| == i && forall j :: 0 <= j < i ==> answers[j] == FirstSights(adds)[j]
    {
      hide PtrSet.Valid;
      var r := s.Add(adds[i]);
      answers := answers + [r];
      assert adds[..i + 1] == adds[..i] + [adds[i]];
    }
  }

  /** The chain of blocks, driven by any sequence of adds. */
  method ChainAnswers(adds: seq<Ptr>) returns (answers: seq<int>)
    ensures answers == FirstWords(adds)
  {
    var s := new ChainSet();
    answers := [];
    for i := 0 to |adds|
      invariant fresh(s) && s.Valid() && forall b :: b in s.blocks ==> fresh(b) && fresh(b.items)
      invariant forall q :: q in s.order <==> q in adds[..i]
      invariant |answers| == i && forall j :: 0 <= j < i ==> answers[j] == FirstWords(adds)[j]
    {
      hide ChainSet.Valid;
      var r := s.Add(adds[i]);
      answers := answers + [r];
      assert adds[..i + 1] == adds[..i] + [adds[i]];
    }
  }

  /** The two sets give the same answers exactly when nobody adds the null pointer. */
  lemma SetsAgreeIff(adds: seq<Ptr>)
    ensures FirstSights(adds) == FirstWords(adds) <==> 0 !in adds
  {
    if 0 in adds {
      var i := FirstPlace(adds, 0);
      assert FirstSights(adds)[i] == 0 && FirstWords(adds)[i] == 1;
    } else {
      forall i | 0 <= i < |adds|
        ensures FirstSights(adds)[i] == FirstWords(adds)[i]
      {
        assert adds[i] != 0;
      }
    }
  }

  lemma {:induction false} FirstPlace(s: seq<Ptr>, p: Ptr) returns (i: nat)
    requires p in s
    ensures i < |s| && s[i] == p && p !in s[..i]
  {
    var n := |s| - 1;
    if p in s[..n] {
      i := FirstPlace(s[..n], p);
      assert s[..n][..i] == s[..i];
    } else {
      assert s == s[..n] + [s[n]];
      i := n;
    }
  }

  // ---- the map over a run ----

  /** The value of the last put under `key`, 0 if there is none. */
  ghost function LatestPut(puts: seq<(Ptr, Ptr)>, key: Ptr): Ptr
  {
    if puts == [] || key == 0 then 0
    else
      var last := puts[|puts| - 1];
      if last.0 == key then last.1 else LatestPut(puts[..|puts| - 1], key)
  }

  /** After any puts, across any growth, `Get` answers with the latest value put under the key. */
  method MapAnswer(puts: seq<(Ptr, Ptr)>, key: Ptr) returns (val: Ptr)
    ensures val == LatestPut(puts, key)
  {
    var m := new PtrMap();
    for i := 0 to |puts|
      invariant fresh(m) && fresh(m.keys) && fresh(m.vals) && m.Valid()
      invariant 0 !in m.contents
      invariant forall k :: LatestPut(puts[..i], k) == if k in m.contents then m.contents[k] else 0
    {
      hide PtrMap.Valid;
      m.Put(puts[i].0, puts[i].1);
      assert puts[..i + 1][..i] == puts[..i];
    }
    assert puts[..|puts|] == puts;
    val := m.Get(key);
  }
}
