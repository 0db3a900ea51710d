/** The heap as a state machine: every thread takes any step at any time, and every run keeps the invariant. */
module HeapRuns {
  import opened Heap
  import opened HeapAccounts
  import opened HeapSeparation
  import opened Totals

  datatype Action =
    | Join                                                   // a new thread
    | PopFree(t: nat, c: nat)
    | NewSlab(t: nat, c: nat, base: int)                     // none freed and no room left for a block of class c
    | LayOut(t: nat, c: nat)                                 // none freed, room left
    | Large(t: nat, size: nat, base: int)
    | Release(t: nat, b: int)                                // free, by any thread
    | Resize(b: int, size: nat, base: int, copied: map<int, Word>)
    | Store(b: int, ws: map<int, Word>)                      // the program writes a payload it owns

  ghost predicate Enabled(h: H, a: Action)
  {
    match a
    case Join => Shape(h.tls, h.stacks)
    case PopFree(t, c) => Thread(h, t) && c < NCLASSES && h.stacks[t][c] != []
    case NewSlab(t, c, base) => Thread(h, t) && c < NCLASSES && h.stacks[t][c] == [] && !Fits(h, t, c) && Fresh(h, base, SLAB_WORDS)
    case LayOut(t, c) => Thread(h, t) && c < NCLASSES && h.stacks[t][c] == [] && Fits(h, t, c)
    case Large(t, size, base) => Thread(h, t) && size > POOL_MAX && Fresh(h, base, 2 + BytesToWords(size))
    case Release(t, b) => Thread(h, t) && b in h.live && b in h.blocks
    case Resize(b, size, base, copied) =>
      && b in h.live && b in h.blocks && h.blocks[b].cls == LARGE
      && FreshFor(h.blocks - {b}, h.slabs, base, 2 + BytesToWords(size))
      && forall a :: a in copied ==> base + 2 <= a < base + 2 + BytesToWords(size)
    case Store(b, ws) => InPayload(h, b, ws)
  }

  ghost function Apply(h: H, a: Action): H
    requires Enabled(h, a)
  {
    match a
    case Join => AddThread(h)
    case PopFree(t, c) => Reuse(h, t, c)
    case NewSlab(t, _, base) => OpenSlab(h, t, base)
    case LayOut(t, c) => Carve(h, t, c)
    case Large(t, size, base) => AllocLarge(h, t, size, base)
    case Release(t, b) => if h.blocks[b].cls < NCLASSES then FreePooled(h, t, b) else FreeLarge(h, t, b)
    case Resize(b, size, base, copied) => MoveLarge(h, b, size, base, copied)
    case Store(b, ws) => Overwrite(h, ws)
  }

  lemma StepKeepsSeparation(h: H, a: Action)
    requires Separate(h) && Enabled(h, a)
    ensures Separate(Apply(h, a))
  {
    match a
    case Join => AddThreadKeeps(h);
    case PopFree(t, c) => ReuseKeeps(h, t, c);
    case NewSlab(t, _, base) => OpenSlabKeeps(h, t, base);
    case LayOut(t, c) => CarveKeeps(h, t, c);
    case Large(t, size, base) => AllocLargeKeeps(h, t, size, base);
    case Release(t, b) => if h.blocks[b].cls < NCLASSES { FreePooledKeeps(h, t, b); } else { FreeLargeKeeps(h, t, b); }
    case Resize(b, size, base, copied) => MoveLargeKeeps(h, b, size, base, copied);
    case Store(b, ws) => OverwriteKeeps(h, b, ws);
  }

  lemma LiveBlock(h: H, b: int)
    requires Separate(h) && b in h.live
    ensures b in h.blocks && BlockOk(h.slabs, b, h.blocks[b]) && StampOk(h.mem, h.live, b, h.blocks[b])
    ensures h.live[b].cls == h.blocks[b].cls && (h.blocks[b].cls < NCLASSES || h.blocks[b].cls == LARGE)
  {
    assert b in h.blocks;
    assert BlockOk(h.slabs, b, h.blocks[b]);
    assert StampOk(h.mem, h.live, b, h.blocks[b]);
  }

  lemma ReleaseKeepsAccounts(h: H, t: nat, b: int)
    requires Inv(h) && Enabled(h, Release(t, b))
    ensures Accounts(Apply(h, Release(t, b)))
  {
    LiveBlock(h, b);
    StepKeepsSeparation(h, Release(t, b));
    var r := Apply(h, Release(t, b));
    LossKeepsAccounts(h, r, t, r.tls[t], b);
  }

  lemma PopFreeKeepsAccounts(h: H, t: nat, c: nat)
    requires Inv(h) && Enabled(h, PopFree(t, c))
    ensures Accounts(Reuse(h, t, c))
  {
    hide Accounts, Layout, Tails, Stamps, Heads, Lists, StampOk, BlockOk;
    ReuseKeeps(h, t, c);
    TopNode(h, t, c);
    var x := h.tls[t].(free := h.tls[t].free[c := LoadNum(h.mem, h.tls[t].free[c])]);
    GainKeepsAccounts(h, Reuse(h, t, c), t, x, h.tls[t].free[c] - 2, Live(c, ClassBytes(c)), ClassBytes(c));
  }

  lemma NewSlabKeepsAccounts(h: H, t: nat, base: int)
    requires Accounts(h) && Thread(h, t)
    ensures Accounts(OpenSlab(h, t, base))
  {
    var r := OpenSlab(h, t, base);
    SumUpdate(h.tls, t, r.tls[t], CountOf);
    SumUpdate(h.tls, t, r.tls[t], BytesOf);
    forall k | 0 <= k <= NCLASSES ensures SumClass(r.tls, k) == SumClass(h.tls, k) {
      SumClassUpdate(h.tls, t, r.tls[t], k);
    }
  }

  lemma LayOutKeepsAccounts(h: H, t: nat, c: nat)
    requires Inv(h) && Enabled(h, LayOut(t, c))
    ensures Accounts(Carve(h, t, c))
  {
    hide Accounts, Layout, Tails, Heads, Lists, BlockOk;
    CarveKeeps(h, t, c);
    var x := h.tls[t].(cur := h.tls[t].cur + 2 + ClassWords(c));
    GainKeepsAccounts(h, Carve(h, t, c), t, x, h.tls[t].cur, Live(c, ClassBytes(c)), ClassBytes(c));
  }

  lemma LargeKeepsAccounts(h: H, t: nat, size: nat, base: int)
    requires Inv(h) && Enabled(h, Large(t, size, base))
    ensures Accounts(AllocLarge(h, t, size, base))
  {
    AllocLargeKeeps(h, t, size, base);
    GainKeepsAccounts(h, AllocLarge(h, t, size, base), t, h.tls[t], base, Live(LARGE, size % TWO32), size);
  }

  lemma ResizeKeepsAccounts(h: H, b: int, size: nat, base: int, copied: map<int, Word>)
    requires Inv(h) && Enabled(h, Resize(b, size, base, copied))
    ensures Accounts(MoveLarge(h, b, size, base, copied))
  {
    LiveBlock(h, b);
    DropKeepsLayout(h.tls, h.blocks, h.slabs, b);
    if base in h.live - {b} {
      assert base in h.blocks - {b};
      FreshIsApart(h.blocks - {b}, h.slabs, base, 2 + BytesToWords(size), base);
    }
    MoveKeepsAccounts(h, MoveLarge(h, b, size, base, copied), b, base, Live(LARGE, size % TWO32));
  }

  lemma StepKeepsInvariant(h: H, a: Action)
    requires Inv(h) && Enabled(h, a)
    ensures Inv(Apply(h, a))
  {
    StepKeepsSeparation(h, a);
    match a
    case Join => AddThreadKeepsAccounts(h);
    case PopFree(t, c) => PopFreeKeepsAccounts(h, t, c);
    case NewSlab(t, _, base) => NewSlabKeepsAccounts(h, t, base);
    case LayOut(t, c) => LayOutKeepsAccounts(h, t, c);
    case Large(t, size, base) => LargeKeepsAccounts(h, t, size, base);
    case Release(t, b) => ReleaseKeepsAccounts(h, t, b);
    case Resize(b, size, base, copied) => ResizeKeepsAccounts(h, b, size, base, copied);
    case Store(b, ws) =>
  }

  ghost predicate Runs(h: H, acts: seq<Action>)
    decreases |acts|
  {
    acts != [] ==> Enabled(h, acts[0]) && Runs(Apply(h, acts[0]), acts[1..])
  }

  ghost function After(h: H, acts: seq<Action>): H
    requires Runs(h, acts)
    decreases |acts|
  {
    if acts == [] then h else After(Apply(h, acts[0]), acts[1..])
  }

  const Empty := H(map[], [], map[], {}, [], map[], map[], 0)

  lemma {:induction false} RunKeepsInvariant(h: H, acts: seq<Action>)
    requires Inv(h) && Runs(h, acts)
    ensures Inv(After(h, acts))
    decreases |acts|
  {
    if acts != [] {
      StepKeepsInvariant(h, acts[0]);
      RunKeepsInvariant(Apply(h, acts[0]), acts[1..]);
    }
  }

  lemma EmptyHoldsInvariant()
    ensures Inv(Empty)
  {
    forall k | 0 <= k <= NCLASSES ensures InBucket(Empty.live, k) == {} {
    }
  }

  // ---- what every reachable heap promises ----

  /** Following the links from a list head, at most `fuel` of them. */
  ghost function Traverse(m: map<int, Word>, p: int, fuel: nat): seq<int>
    decreases fuel
  {
    if p == 0 || fuel == 0 then [] else [p] + Traverse(m, LoadNum(m, p), fuel - 1)
  }

  ghost function Reversed(s: seq<int>): seq<int>
  {
    if s == [] then [] else [s[|s| - 1]] + Reversed(s[..|s| - 1])
  }

  lemma {:induction false} TraverseSpellsList(h: H, t: nat, c: nat, k: nat, fuel: nat)
    requires Separate(h) && Thread(h, t) && c < NCLASSES && k <= |h.stacks[t][c]| && k <= fuel
    ensures Traverse(h.mem, Top(h.stacks[t][c][..k]), fuel) == Reversed(h.stacks[t][c][..k])
    decreases k
  {
    var st := h.stacks[t][c];
    if k > 0 {
      ListNode(h.mem, h.blocks, h.live, h.stacks, h.pos, t, c, k - 1);
      assert BlockOk(h.slabs, st[k - 1] - 2, h.blocks[st[k - 1] - 2]);
      assert st[..k][..k - 1] == st[..k - 1];
      TraverseSpellsList(h, t, c, k - 1, fuel - 1);
    }
  }

  /** A payload that is live, with its header: nothing else overlaps it, and it lies where it may. */
  ghost predicate Owned(h: H, b: int)
  {
    && b in h.live && b in h.blocks
    && (forall c :: c in h.blocks && c != b ==> End(b, h.blocks[b]) <= c || End(c, h.blocks[c]) <= b)
    && (forall t :: 0 <= t < |h.tls| && h.tls[t].cur != 0 ==> End(b, h.blocks[b]) <= h.tls[t].cur || h.tls[t].end <= b)
    && (b + 2 - h.blocks[b].slab) % 2 == 0
    && (h.blocks[b].cls < NCLASSES ==> h.blocks[b].slab <= b && End(b, h.blocks[b]) <= h.blocks[b].slab + SLAB_WORDS)
  }

  /** In every run of any threads: no two blocks overlap, live or freed, live ones lie clear of what
      is not laid out, and every free list is a finite chain that holds exactly once each
      freed-stamped block of its class, and nothing else. */
  lemma HeapIsSeparated(acts: seq<Action>)
    requires Runs(Empty, acts)
    ensures
      var h := After(Empty, acts);
      && Shape(h.tls, h.stacks)
      && (forall b, c :: b in h.blocks && c in h.blocks && b != c ==> End(b, h.blocks[b]) <= c || End(c, h.blocks[c]) <= b)
      && (forall b :: b in h.live ==> Owned(h, b))
      && (forall t, c, n :: 0 <= t < |h.tls| && 0 <= c < NCLASSES && n >= |h.stacks[t][c]| ==>
            Traverse(h.mem, h.tls[t].free[c], n) == Reversed(h.stacks[t][c]))
      && (forall b :: b in h.blocks ==>
            (Load(h.mem, b) == Num(FREED) <==> OnList(h, h.blocks[b].cls, b + 2)))
      && (forall t, c, i, u, d, j, p :: InList(h, t, c, i, p) && InList(h, u, d, j, p) ==> t == u && c == d && i == j)
  {
    hide Layout, Tails, Stamps, Lists, Accounts;
    EmptyHoldsInvariant();
    RunKeepsInvariant(Empty, acts);
    var h := After(Empty, acts);
    BlocksAreApart(h);
    forall b | b in h.live ensures Owned(h, b) {
      LiveIsOwned(h, b);
    }
    forall t, c, n | 0 <= t < |h.tls| && 0 <= c < NCLASSES && n >= |h.stacks[t][c]|
      ensures Traverse(h.mem, h.tls[t].free[c], n) == Reversed(h.stacks[t][c])
    {
      TraverseSpellsList(h, t, c, |h.stacks[t][c]|, n);
      assert h.stacks[t][c][..|h.stacks[t][c]|] == h.stacks[t][c];
    }
    forall b | b in h.blocks
      ensures Load(h.mem, b) == Num(FREED) <==> OnList(h, h.blocks[b].cls, b + 2)
    {
      FreedIsListed(h, b);
    }
    forall t, c, i, u, d, j, p | InList(h, t, c, i, p) && InList(h, u, d, j, p) ensures t == u && c == d && i == j {
      ListedOnce(h.mem, h.blocks, h.live, h.stacks, h.pos, t, c, i, u, d, j);
    }
  }

  ghost predicate InList(h: H, t: nat, c: nat, i: nat, p: int)
    requires Shape(h.tls, h.stacks)
  {
    t < |h.tls| && c < NCLASSES && i < |h.stacks[t][c]| && h.stacks[t][c][i] == p
  }

  ghost predicate OnList(h: H, c: nat, p: int)
    requires Shape(h.tls, h.stacks)
  {
    exists t, i :: InList(h, t, c, i, p)
  }

  lemma BlocksAreApart(h: H)
    requires Separate(h)
    ensures forall b, c :: b in h.blocks && c in h.blocks && b != c ==> End(b, h.blocks[b]) <= c || End(c, h.blocks[c]) <= b
  {
    forall b, c | b in h.blocks && c in h.blocks && b != c ensures End(b, h.blocks[b]) <= c || End(c, h.blocks[c]) <= b {
      Apart(h.blocks, h.slabs, b, c);
    }
  }

  lemma LiveIsOwned(h: H, b: int)
    requires Separate(h) && b in h.live
    ensures Owned(h, b)
  {
    LiveBlock(h, b);
    forall c | c in h.blocks && c != b ensures End(b, h.blocks[b]) <= c || End(c, h.blocks[c]) <= b {
      Apart(h.blocks, h.slabs, b, c);
    }
    forall t | 0 <= t < |h.tls| && h.tls[t].cur != 0
      ensures End(b, h.blocks[b]) <= h.tls[t].cur || h.tls[t].end <= b
    {
      assert TailOk(h.tls[t].cur, h.tls[t].end, h.blocks, h.slabs);
    }
  }

  lemma FreedIsListed(h: H, b: int)
    requires Separate(h) && b in h.blocks
    ensures Load(h.mem, b) == Num(FREED) <==> OnList(h, h.blocks[b].cls, b + 2)
  {
    assert StampOk(h.mem, h.live, b, h.blocks[b]);
    if b !in h.live {
      EveryListed(h.mem, h.blocks, h.live, h.stacks, h.pos, b);
      assert InList(h, h.pos[b + 2].0, h.blocks[b].cls, h.pos[b + 2].1, b + 2);
    } else {
      if OnList(h, h.blocks[b].cls, b + 2) {
        var t, i :| InList(h, t, h.blocks[b].cls, i, b + 2);
        ListNode(h.mem, h.blocks, h.live, h.stacks, h.pos, t, h.blocks[b].cls, i);
        assert false;
      }
    }
  }

  lemma UnfitTailIsSmall(h: H, t: nat, c: nat)
    requires Tails(h.tls, h.blocks, h.slabs) && Thread(h, t) && c < NCLASSES && h.tls[t].cur != 0 && !Fits(h, t, c)
    ensures 0 <= 8 * (h.tls[t].end - h.tls[t].cur) <= 512
  {
    assert TailOk(h.tls[t].cur, h.tls[t].end, h.blocks, h.slabs);
    var left := h.tls[t].end - h.tls[t].cur;
    assert left < 2 + ClassWords(c) <= 66;
    assert (h.tls[t].cur - (h.tls[t].end - SLAB_WORDS)) % 2 == 0;
    assert left % 2 == 0;
  }

  /** The bytes never laid out of each slab the run retired, in order. */
  ghost function Retired(h: H, acts: seq<Action>): seq<int>
    requires Runs(h, acts)
    decreases |acts|
  {
    if acts == [] then []
    else
      (match acts[0]
       case NewSlab(t, _, _) => if h.tls[t].cur != 0 then [8 * (h.tls[t].end - h.tls[t].cur)] else []
       case _ => []) + Retired(Apply(h, acts[0]), acts[1..])
  }

  /** Of every slab retired in any run, at most 512 bytes were never laid out. */
  lemma RetiredSlabWastesLittle(acts: seq<Action>)
    requires Runs(Empty, acts)
    ensures forall i :: 0 <= i < |Retired(Empty, acts)| ==> 0 <= Retired(Empty, acts)[i] <= 512
  {
    EmptyHoldsInvariant();
    RetiredTailsAreSmall(Empty, acts);
  }

  lemma {:induction false} RetiredTailsAreSmall(h: H, acts: seq<Action>)
    requires Inv(h) && Runs(h, acts)
    ensures forall i :: 0 <= i < |Retired(h, acts)| ==> 0 <= Retired(h, acts)[i] <= 512
    decreases |acts|
  {
    hide Layout, Stamps, Heads, Lists, Accounts, Apply;
    if acts != [] {
      StepKeepsInvariant(h, acts[0]);
      RetiredTailsAreSmall(Apply(h, acts[0]), acts[1..]);
      match acts[0]
      case NewSlab(t, c, _) => if h.tls[t].cur != 0 { UnfitTailIsSmall(h, t, c); }
      case _ =>
    }
  }

  // ---- what the byte counters say ----

  /** What the 32-bit size field cuts off: summed over the large allocations and resizes of a run. */
  function Cut(acts: seq<Action>): int
  {
    if acts == [] then 0
    else
      (match acts[0]
       case Large(_, size, _) => size - size % TWO32
       case Resize(_, size, _, _) => size - size % TWO32
       case _ => 0) + Cut(acts[1..])
  }

  /** What resizes add to the sizes of their blocks, unheard by the counters: new size less recorded size. */
  ghost function Unheard(h: H, acts: seq<Action>): int
    requires Runs(h, acts)
    decreases |acts|
  {
    if acts == [] then 0
    else
      (match acts[0]
       case Resize(b, size, _, _) => size - h.live[b].bytes
       case _ => 0) + Unheard(Apply(h, acts[0]), acts[1..])
  }

  lemma {:induction false} DriftIs(h: H, acts: seq<Action>)
    requires Runs(h, acts)
    ensures After(h, acts).drift == h.drift + Cut(acts) - Unheard(h, acts)
    decreases |acts|
  {
    if acts != [] {
      DriftIs(Apply(h, acts[0]), acts[1..]);
    }
  }

  /** Summed over all threads the counters describe the live blocks, whoever freed what. The byte
      counters and what resizes kept from them make up the recorded sizes and what 32 bits cut off. */
  lemma AccountingIsConserved(acts: seq<Action>)
    requires Runs(Empty, acts)
    ensures
      var h := After(Empty, acts);
      && Shape(h.tls, h.stacks)
      && Sum(h.tls, CountOf) == |h.live|
      && (forall k :: 0 <= k <= NCLASSES ==> SumClass(h.tls, k) == |InBucket(h.live, k)|)
      && Sum(h.tls, BytesOf) + Unheard(Empty, acts) == TotalBytes(h.live) + Cut(acts)
  {
    EmptyHoldsInvariant();
    RunKeepsInvariant(Empty, acts);
    DriftIs(Empty, acts);
  }

  /** The byte counters are the recorded sizes in every run that resizes nothing large and asks for nothing of 2^32 bytes. */
  lemma BytesAreExact(acts: seq<Action>)
    requires Runs(Empty, acts)
    requires forall i :: 0 <= i < |acts| ==> !acts[i].Resize? && (acts[i].Large? ==> acts[i].size < TWO32)
    ensures Sum(After(Empty, acts).tls, BytesOf) == TotalBytes(After(Empty, acts).live)
  {
    AccountingIsConserved(acts);
    NothingCutOrUnheard(Empty, acts);
  }

  lemma {:induction false} NothingCutOrUnheard(h: H, acts: seq<Action>)
    requires Runs(h, acts)
    requires forall i :: 0 <= i < |acts| ==> !acts[i].Resize? && (acts[i].Large? ==> acts[i].size < TWO32)
    ensures Cut(acts) == 0 && Unheard(h, acts) == 0
    decreases |acts|
  {
    if acts != [] {
      assert !acts[0].Resize? && (acts[0].Large? ==> acts[0].size < TWO32);
      assert forall i :: 0 <= i < |acts[1..]| ==> acts[1..][i] == acts[i + 1];
      NothingCutOrUnheard(Apply(h, acts[0]), acts[1..]);
    }
  }

  /** Allocating and freeing one large block restores the byte counter exactly when its size fits
      the 32 bits the header keeps. */
  lemma LargeBytesReturnIff(h: H, t: nat, size: nat, base: int)
    requires Inv(h) && Enabled(h, Large(t, size, base))
    ensures
      var r := FreeLarge(AllocLarge(h, t, size, base), t, base);
      r.tls[t].bytes == h.tls[t].bytes <==> size < TWO32
  {
    hide Inv, Layout, Tails, Stamps, Heads, Lists, Accounts, Fresh;
    var r := FreeLarge(AllocLarge(h, t, size, base), t, base);
    assert r.tls[t].bytes == h.tls[t].bytes + size - size % TWO32;
    if size >= TWO32 {
      assert size % TWO32 < TWO32;
    }
  }
}
