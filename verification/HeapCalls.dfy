/** What the entry points answer with: allocating, freeing and resizing on any heap the invariant holds of. */
module HeapCalls {
  import opened Heap
  import opened HeapRuns
  import opened HeapSeparation

  datatype FreeResult = Done | Ignored | Panic(message: string)

  /** What a call to allocate answers with: a new live block, 16 bytes aligned within its slab or
      its own allocation and big enough, with no byte of any payload that was live disturbed. */
  ghost predicate Allocated(h: H, r: H, p: int, size: nat)
  {
    && Inv(r) && p - 2 !in h.live && p - 2 in r.blocks && r.live.Keys == h.live.Keys + {p - 2}
    && (forall b :: b in h.live ==> r.live[b] == h.live[b] && b in h.blocks && b in r.blocks && r.blocks[b] == h.blocks[b])
    && Owned(r, p - 2) && size <= 8 * r.blocks[p - 2].words
    && forall b, a :: b in h.live && b + 2 <= a < End(b, h.blocks[b]) ==> Load(r.mem, a) == Load(h.mem, a)
  }

  /** A step that makes `p - 2` a live block, writes only its header, and moves no other block. */
  ghost predicate MakesLive(h: H, r: H, p: int, size: nat)
  {
    && p - 2 !in h.live && r.live.Keys == h.live.Keys + {p - 2}
    && p - 2 in r.blocks && size <= 8 * r.blocks[p - 2].words
    && (forall b :: b in h.live && b in h.blocks ==> r.live[b] == h.live[b] && b in r.blocks && r.blocks[b] == h.blocks[b])
    && (forall a :: a != p - 2 && a != p - 1 ==> Load(r.mem, a) == Load(h.mem, a))
  }

  lemma AllocationAnswer(h: H, r: H, p: int, size: nat)
    requires h.live.Keys <= h.blocks.Keys && Inv(r) && MakesLive(h, r, p, size)
    ensures Allocated(h, r, p, size)
  {
    LiveIsOwned(r, p - 2);
    forall b, a | b in h.live && b + 2 <= a < End(b, h.blocks[b])
      ensures Load(r.mem, a) == Load(h.mem, a)
    {
      Apart(r.blocks, r.slabs, b, p - 2);
    }
  }

  lemma LargeMakesLive(h: H, t: nat, size: nat, base: int)
    requires Thread(h, t) && base !in h.live
    ensures MakesLive(h, AllocLarge(h, t, size, base), base + 2, size)
  {
  }

  lemma ReuseMakesLive(h: H, t: nat, c: nat)
    requires Thread(h, t) && c < NCLASSES && h.stacks[t][c] != []
    requires h.tls[t].free[c] - 2 !in h.live && h.tls[t].free[c] - 2 in h.blocks
    requires h.blocks[h.tls[t].free[c] - 2].words == ClassWords(c)
    ensures MakesLive(h, Reuse(h, t, c), h.tls[t].free[c], ClassBytes(c))
  {
  }

  lemma CarveMakesLive(h: H, t: nat, c: nat)
    requires Thread(h, t) && c < NCLASSES && h.tls[t].cur !in h.live && h.tls[t].cur !in h.blocks
    ensures MakesLive(h, Carve(h, t, c), h.tls[t].cur + 2, ClassBytes(c))
  {
  }

  lemma LargeAnswer(h: H, t: nat, size: nat, base: int)
    requires Inv(h) && Enabled(h, Large(t, size, base))
    ensures Allocated(h, AllocLarge(h, t, size, base), base + 2, size)
  {
    AllocLargeKeeps(h, t, size, base);
    StepKeepsInvariant(h, Large(t, size, base));
    LiveAreBlocks(h);
    LargeMakesLive(h, t, size, base);
    AllocationAnswer(h, AllocLarge(h, t, size, base), base + 2, size);
  }

  lemma ReuseAnswer(h: H, t: nat, c: nat)
    requires Inv(h) && Enabled(h, PopFree(t, c))
    ensures Allocated(h, Reuse(h, t, c), h.tls[t].free[c], ClassBytes(c))
  {
    TopNode(h, t, c);
    StepKeepsInvariant(h, PopFree(t, c));
    LiveAreBlocks(h);
    ReuseMakesLive(h, t, c);
    AllocationAnswer(h, Reuse(h, t, c), h.tls[t].free[c], ClassBytes(c));
  }

  lemma CarveAnswer(h: H, t: nat, c: nat)
    requires Inv(h) && Enabled(h, LayOut(t, c))
    ensures Allocated(h, Carve(h, t, c), h.tls[t].cur + 2, ClassBytes(c))
  {
    CarveKeeps(h, t, c);
    StepKeepsInvariant(h, LayOut(t, c));
    LiveAreBlocks(h);
    CarveMakesLive(h, t, c);
    AllocationAnswer(h, Carve(h, t, c), h.tls[t].cur + 2, ClassBytes(c));
  }

  lemma SmallerAnswer(h: H, r: H, p: int, size: nat, request: nat)
    requires Allocated(h, r, p, size) && request <= size
    ensures Allocated(h, r, p, request)
  {
  }

  lemma LiveAreBlocks(h: H)
    requires Inv(h)
    ensures h.live.Keys <= h.blocks.Keys
  {
  }

  /** A slab just opened holds at least one block of any class. */
  lemma OpenedSlabFits(h: H, t: nat, base: int, c: nat)
    requires Inv(h) && Enabled(h, NewSlab(t, c, base))
    ensures Inv(OpenSlab(h, t, base)) && Thread(OpenSlab(h, t, base), t) && Fits(OpenSlab(h, t, base), t, c)
  {
    StepKeepsInvariant(h, NewSlab(t, c, base));
  }

  /** An allocation that follows the opening of a slab answers for the heap before it. */
  lemma AnswerAfterSlab(h: H, t: nat, base: int, r: H, p: int, size: nat)
    requires Thread(h, t) && Allocated(OpenSlab(h, t, base), r, p, size)
    ensures Allocated(h, r, p, size)
  {
  }

  lemma BumpAnswer(h: H, t: nat, c: nat, base: int)
    requires Inv(h) && Thread(h, t) && c < NCLASSES && h.stacks[t][c] == [] && Fresh(h, base, SLAB_WORDS)
    ensures
      var g := if Fits(h, t, c) then h else OpenSlab(h, t, base);
      Thread(g, t) && Allocated(h, Carve(g, t, c), g.tls[t].cur + 2, ClassBytes(c))
  {
    if Fits(h, t, c) {
      CarveAnswer(h, t, c);
    } else {
      OpenedSlabFits(h, t, base, c);
      var g := OpenSlab(h, t, base);
      CarveAnswer(g, t, c);
      AnswerAfterSlab(h, t, base, Carve(g, t, c), g.tls[t].cur + 2, ClassBytes(c));
    }
  }

  /** What a call to allocate does, and the payload it answers with. */
  ghost function Allocate(h: H, t: nat, request: nat, base: int): (H, int)
    requires Thread(h, t) && Heads(h.tls, h.stacks)
  {
    var size := if request == 0 then 1 else request;
    if size > POOL_MAX then (AllocLarge(h, t, size, base), base + 2)
    else
      var c := ClassOf(size);
      if h.tls[t].free[c] != 0 then (Reuse(h, t, c), h.tls[t].free[c])
      else
        var g := if Fits(h, t, c) then h else OpenSlab(h, t, base);
        (Carve(g, t, c), g.tls[t].cur + 2)
  }

  /** Every allocation answers with a new live block, big enough, and disturbs nothing live. */
  lemma AllocateAnswers(h: H, t: nat, request: nat, base: int)
    requires Inv(h) && Thread(h, t)
    requires Fresh(h, base, if request > POOL_MAX then 2 + BytesToWords(request) else SLAB_WORDS)
    ensures Allocated(h, Allocate(h, t, request, base).0, Allocate(h, t, request, base).1, request)
  {
    hide Layout, Tails, Stamps, Heads, Lists, Accounts, Allocated, Carve, AllocLarge;
    var size := if request == 0 then 1 else request;
    if size > POOL_MAX {
      LargeAnswer(h, t, size, base);
    } else {
      var c := ClassOf(size);
      EmptyListHasNoHead(h, t, c);
      if h.tls[t].free[c] != 0 {
        ReuseAnswer(h, t, c);
      } else {
        BumpAnswer(h, t, c, base);
      }
      SmallerAnswer(h, Allocate(h, t, request, base).0, Allocate(h, t, request, base).1, ClassBytes(c), request);
    }
  }

  function Min(a: nat, b: nat): nat { if a < b then a else b }

  /** The word at offset `i` of a payload. */
  function PayloadWord(m: map<int, Word>, p: int, i: int): Word { Load(m, p + i) }

  function WordFor(m: map<int, Word>, from: int, to: int, a: int): Word { PayloadWord(m, from, a - to) }

  /** `n` words from one payload, at the addresses of another. */
  function Copied(m: map<int, Word>, from: int, to: int, n: nat): (r: map<int, Word>)
    ensures forall a :: a in r <==> to <= a < to + n
    ensures forall a :: a in r ==> r[a] == WordFor(m, from, to, a)
  {
    map a | to <= a < to + n :: WordFor(m, from, to, a)
  }

  /** What resizing a live block does: a large one moves, a pooled one stays while it still fits
      its class and is otherwise allocated again, copied and freed. */
  ghost function Reallocate(h: H, t: nat, p: int, request: nat, base: int): (H, int)
    requires Inv(h) && Thread(h, t) && p - 2 in h.live
    requires FreshForResize(h, p - 2, request, base)
  {
    var b := p - 2;
    LiveBlock(h, b);
    var words := h.blocks[b].words;
    if h.blocks[b].cls == LARGE then
      var copied := Copied(h.mem, p, base + 2, Min(words, BytesToWords(request)));
      (MoveLarge(h, b, request, base, copied), base + 2)
    else if request <= ClassBytes(h.blocks[b].cls) then (h, p)
    else
      AllocateAnswers(h, t, request, base);
      var (g, q) := Allocate(h, t, request, base);
      (FreePooled(Overwrite(g, Copied(g.mem, p, q, words)), t, b), q)
  }

  /** Resizing in place may reuse the block's own memory. */
  ghost predicate FreshForResize(h: H, b: int, request: nat, base: int)
    requires b in h.blocks
  {
    if h.blocks[b].cls == LARGE then
      FreshFor(h.blocks - {b}, h.slabs, base, 2 + BytesToWords(request))
    else
      Fresh(h, base, if request > POOL_MAX then 2 + BytesToWords(request) else SLAB_WORDS)
  }

  /** The block answered with holds what the old one held, as far as both reach, and every other
      live block stays as it was. */
  ghost predicate Resized(h: H, r: H, p: int, q: int, request: nat)
    requires p - 2 in h.blocks
  {
    && Inv(r) && q - 2 in r.live && q - 2 in r.blocks && request <= 8 * r.blocks[q - 2].words
    && (q != p ==> p - 2 !in r.live)
    && (forall i :: 0 <= i < h.blocks[p - 2].words && i < r.blocks[q - 2].words ==>
          PayloadWord(r.mem, q, i) == PayloadWord(h.mem, p, i))
    && (forall b :: b in h.live && b != p - 2 ==> KeptBlock(h, r, b))
  }

  ghost predicate KeptBlock(h: H, r: H, b: int)
  {
    && b in h.live && b in h.blocks && b in r.live && b in r.blocks
    && r.live[b] == h.live[b] && r.blocks[b] == h.blocks[b]
    && forall a :: b + 2 <= a < End(b, h.blocks[b]) ==> Load(r.mem, a) == Load(h.mem, a)
  }

  lemma MoveKeepsContents(h: H, p: int, request: nat, base: int)
    requires p - 2 in h.live && p - 2 in h.blocks
    ensures
      var words := Min(h.blocks[p - 2].words, BytesToWords(request));
      var r := MoveLarge(h, p - 2, request, base, Copied(h.mem, p, base + 2, words));
      forall i :: 0 <= i < words ==> PayloadWord(r.mem, base + 2, i) == PayloadWord(h.mem, p, i)
  {
    var words := Min(h.blocks[p - 2].words, BytesToWords(request));
    var copied := Copied(h.mem, p, base + 2, words);
    forall i | 0 <= i < words
      ensures PayloadWord(MoveLarge(h, p - 2, request, base, copied).mem, base + 2, i) == PayloadWord(h.mem, p, i)
    {
      assert copied[base + 2 + i] == WordFor(h.mem, p, base + 2, base + 2 + i);
    }
  }

  lemma MoveKeepsOthers(h: H, b: int, request: nat, base: int, copied: map<int, Word>, x: int)
    requires Inv(h) && Enabled(h, Resize(b, request, base, copied)) && x in h.live && x != b
    ensures KeptBlock(h, MoveLarge(h, b, request, base, copied), x)
  {
    LiveBlock(h, x);
    DropKeepsLayout(h.tls, h.blocks, h.slabs, b);
    FreshIsApart(h.blocks - {b}, h.slabs, base, 2 + BytesToWords(request), x);
  }

  lemma MoveLargeAnswer(h: H, p: int, request: nat, base: int)
    requires Inv(h) && p - 2 in h.live && p - 2 in h.blocks && h.blocks[p - 2].cls == LARGE
    requires FreshFor(h.blocks - {p - 2}, h.slabs, base, 2 + BytesToWords(request))
    ensures
      var copied := Copied(h.mem, p, base + 2, Min(h.blocks[p - 2].words, BytesToWords(request)));
      Resized(h, MoveLarge(h, p - 2, request, base, copied), p, base + 2, request)
  {
    var b := p - 2;
    var copied := Copied(h.mem, p, base + 2, Min(h.blocks[b].words, BytesToWords(request)));
    var r := MoveLarge(h, b, request, base, copied);
    StepKeepsInvariant(h, Resize(b, request, base, copied));
    MoveKeepsContents(h, p, request, base);
    forall x | x in h.live && x != b ensures KeptBlock(h, r, x) {
      MoveKeepsOthers(h, b, request, base, copied, x);
    }
  }

  lemma ReleaseKeepsOthers(h: H, t: nat, b: int, x: int)
    requires Inv(h) && Thread(h, t) && b in h.live && b in h.blocks && h.blocks[b].cls < NCLASSES
    requires x in h.live && x in h.blocks && x != b
    ensures KeptBlock(h, FreePooled(h, t, b), x)
  {
    LiveBlock(h, b);
    LiveBlock(h, x);
    Apart(h.blocks, h.slabs, b, x);
  }

  lemma OverwriteKeepsOthers(h: H, b: int, ws: map<int, Word>, x: int)
    requires Inv(h) && InPayload(h, b, ws) && x in h.live && x in h.blocks && x != b
    ensures KeptBlock(h, Overwrite(h, ws), x)
  {
    Apart(h.blocks, h.slabs, b, x);
  }

  lemma AllocationKeepsOthers(h: H, r: H, q: int, size: nat, x: int)
    requires Allocated(h, r, q, size) && x in h.live
    ensures KeptBlock(h, r, x)
  {
  }

  lemma KeptTwice(h: H, g: H, r: H, x: int)
    requires KeptBlock(h, g, x) && KeptBlock(g, r, x)
    ensures KeptBlock(h, r, x)
  {
  }

  lemma AllocationKeepsThreads(h: H, t: nat, request: nat, base: int)
    requires Inv(h) && Thread(h, t)
    ensures |Allocate(h, t, request, base).0.tls| == |h.tls|
  {
  }

  /** Copying an old payload `p` into a newly allocated one and freeing the old. */
  ghost predicate CopyAndFree(h: H, g: H, f: H, r: H, t: nat, p: int, q: int, request: nat)
  {
    && Inv(h) && Allocated(h, g, q, request) && Thread(g, t)
    && p - 2 in h.live && p - 2 in h.blocks && h.blocks[p - 2].cls < NCLASSES
    && ClassBytes(h.blocks[p - 2].cls) < request
    && f == Overwrite(g, Copied(g.mem, p, q, h.blocks[p - 2].words))
    && Thread(f, t) && p - 2 in f.blocks && f.blocks[p - 2].cls < NCLASSES && r == FreePooled(f, t, p - 2)
  }

  lemma StoreKeepsInvariant(h: H, b: int, ws: map<int, Word>)
    requires Inv(h) && InPayload(h, b, ws)
    ensures Inv(Overwrite(h, ws))
  {
    StepKeepsInvariant(h, Store(b, ws));
  }

  lemma ReleaseKeepsInvariant(h: H, t: nat, b: int)
    requires Inv(h) && Thread(h, t) && b in h.live && b in h.blocks && h.blocks[b].cls < NCLASSES
    ensures Inv(FreePooled(h, t, b))
  {
    StepKeepsInvariant(h, Release(t, b));
  }

  lemma PooledHasRoom(h: H, b: int)
    requires Inv(h) && b in h.blocks && h.blocks[b].cls < NCLASSES
    ensures h.blocks[b].words == ClassWords(h.blocks[b].cls)
  {
    assert BlockOk(h.slabs, b, h.blocks[b]);
  }

  lemma AllocatedIsLive(h: H, g: H, q: int, size: nat)
    requires Allocated(h, g, q, size)
    ensures Inv(g) && q - 2 in g.live && q - 2 in g.blocks && q - 2 !in h.live && size <= 8 * g.blocks[q - 2].words
  {
  }

  lemma CopyFits(h: H, g: H, p: int, q: int, request: nat)
    requires p - 2 in h.blocks && h.blocks[p - 2].cls < NCLASSES && h.blocks[p - 2].words == ClassWords(h.blocks[p - 2].cls)
    requires ClassBytes(h.blocks[p - 2].cls) < request && q - 2 in g.live && q - 2 in g.blocks && request <= 8 * g.blocks[q - 2].words
    ensures InPayload(g, q - 2, Copied(g.mem, p, q, h.blocks[p - 2].words))
  {
  }

  lemma OldStaysLive(h: H, g: H, p: int, ws: map<int, Word>)
    requires KeptBlock(h, g, p - 2)
    ensures p - 2 in Overwrite(g, ws).live && p - 2 in Overwrite(g, ws).blocks
  {
  }

  lemma CopyIsStore(h: H, g: H, f: H, r: H, t: nat, p: int, q: int, request: nat)
    requires CopyAndFree(h, g, f, r, t, p, q, request)
    ensures p != q && KeptBlock(h, g, p - 2) && q - 2 in g.live && q - 2 in g.blocks
    ensures InPayload(g, q - 2, Copied(g.mem, p, q, h.blocks[p - 2].words))
    ensures Inv(g) && Inv(f) && Inv(r)
  {
    hide Inv, FreePooled, Overwrite, KeptBlock, Allocated, Shape;
    PooledHasRoom(h, p - 2);
    AllocationKeepsOthers(h, g, q, request, p - 2);
    AllocatedIsLive(h, g, q, request);
    CopyFits(h, g, p, q, request);
    StoreKeepsInvariant(g, q - 2, Copied(g.mem, p, q, h.blocks[p - 2].words));
    OldStaysLive(h, g, p, Copied(g.mem, p, q, h.blocks[p - 2].words));
    ReleaseKeepsInvariant(f, t, p - 2);
  }

  lemma StoreThenReleaseKeepsOthers(g: H, t: nat, b: int, c: int, ws: map<int, Word>, x: int)
    requires Inv(g) && InPayload(g, c, ws) && Thread(Overwrite(g, ws), t)
    requires b in g.live && b in g.blocks && g.blocks[b].cls < NCLASSES
    requires x in g.live && x in g.blocks && x != b && x != c
    ensures KeptBlock(g, FreePooled(Overwrite(g, ws), t, b), x)
  {
    var f := Overwrite(g, ws);
    StoreKeepsInvariant(g, c, ws);
    OverwriteKeepsOthers(g, c, ws, x);
    ReleaseKeepsOthers(f, t, b, x);
    KeptTwice(g, f, FreePooled(f, t, b), x);
  }

  lemma CopyKeepsOthers(h: H, g: H, f: H, r: H, t: nat, p: int, q: int, request: nat, x: int)
    requires CopyAndFree(h, g, f, r, t, p, q, request) && x in h.live && x != p - 2
    ensures KeptBlock(h, r, x)
  {
    CopyIsStore(h, g, f, r, t, p, q, request);
    AllocationKeepsOthers(h, g, q, request, x);
    AllocatedIsLive(h, g, q, request);
    StoreThenReleaseKeepsOthers(g, t, p - 2, q - 2, Copied(g.mem, p, q, h.blocks[p - 2].words), x);
    KeptTwice(h, g, r, x);
  }

  lemma CopyKeepsContents(h: H, g: H, f: H, r: H, t: nat, p: int, q: int, request: nat)
    requires CopyAndFree(h, g, f, r, t, p, q, request)
    ensures q - 2 in r.live && q - 2 in r.blocks && r.blocks[q - 2] == g.blocks[q - 2] && p - 2 !in r.live
    ensures forall i :: 0 <= i < h.blocks[p - 2].words ==> PayloadWord(r.mem, q, i) == PayloadWord(h.mem, p, i)
  {
    hide Inv, Allocated, Shape;
    CopyIsStore(h, g, f, r, t, p, q, request);
    ReleaseKeepsOthers(f, t, p - 2, q - 2);
    var ws := Copied(g.mem, p, q, h.blocks[p - 2].words);
    forall i | 0 <= i < h.blocks[p - 2].words
      ensures PayloadWord(r.mem, q, i) == PayloadWord(h.mem, p, i)
    {
      assert ws[q + i] == WordFor(g.mem, p, q, q + i);
      assert PayloadWord(g.mem, p, i) == PayloadWord(h.mem, p, i);
      assert Load(f.mem, q + i) == ws[q + i];
    }
  }

  lemma CopyAnswer(h: H, g: H, f: H, r: H, t: nat, p: int, q: int, request: nat)
    requires CopyAndFree(h, g, f, r, t, p, q, request)
    ensures Resized(h, r, p, q, request)
  {
    CopyIsStore(h, g, f, r, t, p, q, request);
    CopyKeepsContents(h, g, f, r, t, p, q, request);
    AllocatedIsLive(h, g, q, request);
    forall x | x in h.live && x != p - 2 ensures KeptBlock(h, r, x) {
      CopyKeepsOthers(h, g, f, r, t, p, q, request, x);
    }
  }

  lemma GrowAnswer(h: H, t: nat, p: int, request: nat, base: int)
    requires Inv(h) && Thread(h, t) && p - 2 in h.live && p - 2 in h.blocks && h.blocks[p - 2].cls < NCLASSES
    requires ClassBytes(h.blocks[p - 2].cls) < request
    requires Allocated(h, Allocate(h, t, request, base).0, Allocate(h, t, request, base).1, request)
    ensures
      var (g, q) := Allocate(h, t, request, base);
      var f := Overwrite(g, Copied(g.mem, p, q, h.blocks[p - 2].words));
      && Thread(f, t) && p - 2 in f.blocks && f.blocks[p - 2].cls < NCLASSES
      && Resized(h, FreePooled(f, t, p - 2), p, q, request)
  {
    var (g, q) := Allocate(h, t, request, base);
    var f := Overwrite(g, Copied(g.mem, p, q, h.blocks[p - 2].words));
    AllocationKeepsThreads(h, t, request, base);
    AllocatedIsLive(h, g, q, request);
    AllocationKeepsOthers(h, g, q, request, p - 2);
    CopyAnswer(h, g, f, FreePooled(f, t, p - 2), t, p, q, request);
  }

  /** Resizing keeps the contents, on any heap the invariant holds of. */
  lemma ReallocateAnswers(h: H, t: nat, p: int, request: nat, base: int)
    requires Inv(h) && Thread(h, t) && p - 2 in h.live && FreshForResize(h, p - 2, request, base)
    ensures Resized(h, Reallocate(h, t, p, request, base).0, p, Reallocate(h, t, p, request, base).1, request)
  {
    LiveBlock(h, p - 2);
    if h.blocks[p - 2].cls == LARGE {
      MoveLargeAnswer(h, p, request, base);
    } else if request <= ClassBytes(h.blocks[p - 2].cls) {
      forall x | x in h.live && x != p - 2 ensures KeptBlock(h, h, x) {
        LiveBlock(h, x);
      }
    } else {
      AllocateAnswers(h, t, request, base);
      GrowAnswer(h, t, p, request, base);
    }
  }

  lemma GrowFacts(h: H, t: nat, p: int, request: nat, base: int)
    requires Inv(h) && Thread(h, t) && p - 2 in h.live && p - 2 in h.blocks && h.blocks[p - 2].cls < NCLASSES
    requires ClassBytes(h.blocks[p - 2].cls) < request && FreshForResize(h, p - 2, request, base)
    ensures
      var (g, q) := Allocate(h, t, request, base);
      && Thread(g, t) && p - 2 in g.blocks && g.blocks[p - 2].cls == h.blocks[p - 2].cls
      && Thread(Overwrite(g, Copied(g.mem, p, q, h.blocks[p - 2].words)), t)
      && Reallocate(h, t, p, request, base)
         == (FreePooled(Overwrite(g, Copied(g.mem, p, q, h.blocks[p - 2].words)), t, p - 2), q)
  {
    AllocateAnswers(h, t, request, base);
    GrowAnswer(h, t, p, request, base);
    AllocationKeepsThreads(h, t, request, base);
    AllocationKeepsOthers(h, Allocate(h, t, request, base).0, Allocate(h, t, request, base).1, request, p - 2);
  }

  /** What the header words of an address say about it. */
  lemma HeaderAt(h: H, b: int)
    requires Inv(h)
    requires b in h.blocks || (Load(h.mem, b) != Num(MAGIC) && Load(h.mem, b) != Num(FREED))
    ensures b in h.live ==> b in h.blocks
    ensures Load(h.mem, b) == Num(FREED) <==> b in h.blocks && b !in h.live
    ensures Load(h.mem, b) == Num(MAGIC) <==> b in h.live
    ensures b in h.blocks ==>
      Load(h.mem, b + 1).Meta? && Load(h.mem, b + 1).cls == h.blocks[b].cls && (h.blocks[b].cls < NCLASSES || h.blocks[b].cls == LARGE)
  {
    if b in h.blocks {
      assert StampOk(h.mem, h.live, b, h.blocks[b]);
      assert BlockOk(h.slabs, b, h.blocks[b]);
    }
  }

  lemma EmptyListHasNoHead(h: H, t: nat, c: nat)
    requires Inv(h) && Thread(h, t) && c < NCLASSES
    ensures h.tls[t].free[c] == 0 <==> h.stacks[t][c] == []
  {
    if h.stacks[t][c] != [] {
      TopNode(h, t, c);
    }
  }
}
