/** The allocator as the runtime has it: one object that updates memory and thread-local state in place. */
module HeapAllocator {
  import opened Heap
  import opened HeapCalls
  import opened HeapRuns
  import opened HeapSeparation

  class Allocator {
    var mem: map<int, Word>
    var tls: seq<Tls>
    ghost var blocks: map<int, Block>
    ghost var slabs: set<int>
    ghost var stacks: seq<seq<seq<int>>>
    ghost var pos: map<int, (nat, nat)>
    ghost var live: map<int, Live>
    ghost var drift: int

    ghost function View(): H
      reads this
    {
      H(mem, tls, blocks, slabs, stacks, pos, live, drift)
    }

    constructor ()
      ensures View() == Empty && Inv(View())
    {
      mem, tls := map[], [];
      blocks, slabs, stacks, pos, live, drift := map[], {}, [], map[], map[], 0;
      EmptyHoldsInvariant();
    }

    ghost method Become(h: H)
      modifies this`blocks, this`slabs, this`stacks, this`pos, this`live, this`drift
      ensures View() == h.(mem := mem, tls := tls)
    {
      blocks, slabs, stacks, pos, live, drift := h.blocks, h.slabs, h.stacks, h.pos, h.live, h.drift;
    }

    method OwnBlock(t: nat, size: nat, base: int) returns (p: int)
      requires Thread(View(), t)
      modifies this
      ensures View() == AllocLarge(old(View()), t, size, base) && p == base + 2
    {
      ghost var h := View();
      mem := mem[base := Num(MAGIC)];
      mem := mem[base + 1 := Meta(LARGE, size % TWO32)];
      tls := tls[t := Gain(tls[t], NCLASSES, size)];
      Become(AllocLarge(h, t, size, base));
      p := base + 2;
    }

    method PopFreeBlock(t: nat, c: nat) returns (p: int)
      requires Thread(View(), t) && c < NCLASSES && stacks[t][c] != []
      modifies this
      ensures View() == Reuse(old(View()), t, c) && p == old(tls[t].free[c])
    {
      ghost var h := View();
      p := tls[t].free[c];
      tls := tls[t := tls[t].(free := tls[t].free[c := LoadNum(mem, p)])];
      mem := mem[p - 2 := Num(MAGIC)];
      tls := tls[t := Gain(tls[t], c, ClassBytes(c))];
      Become(Reuse(h, t, c));
    }

    method TakeSlab(t: nat, base: int)
      requires Thread(View(), t)
      modifies this
      ensures View() == OpenSlab(old(View()), t, base)
    {
      ghost var h := View();
      tls := tls[t := tls[t].(cur := base, end := base + SLAB_WORDS)];
      Become(OpenSlab(h, t, base));
    }

    method BumpBlock(t: nat, c: nat) returns (p: int)
      requires Thread(View(), t) && c < NCLASSES
      modifies this
      ensures View() == Carve(old(View()), t, c) && p == old(tls[t].cur) + 2
    {
      ghost var h := View();
      var b := tls[t].cur;
      tls := tls[t := tls[t].(cur := b + 2 + ClassWords(c))];
      mem := mem[b := Num(MAGIC)];
      mem := mem[b + 1 := Meta(c, PadAt(mem, b + 1))];
      tls := tls[t := Gain(tls[t], c, ClassBytes(c))];
      Become(Carve(h, t, c));
      p := b + 2;
    }

    method Malloc(t: nat, request: nat, base: int) returns (p: int)
      requires Thread(View(), t) && Heads(tls, stacks)
      modifies this
      ensures (View(), p) == Allocate(old(View()), t, request, base)
    {
      var size := if request == 0 then 1 else request;
      if size > POOL_MAX {
        p := OwnBlock(t, size, base);
        return;
      }
      var c := ClassOf(size);
      if tls[t].free[c] != 0 {
        p := PopFreeBlock(t, c);
        return;
      }
      if tls[t].cur == 0 || tls[t].cur + 2 + ClassWords(c) > tls[t].end {
        TakeSlab(t, base);
      }
      p := BumpBlock(t, c);
    }

    method ReleaseOwn(t: nat, p: int)
      requires Thread(View(), t)
      modifies this
      ensures View() == FreeLarge(old(View()), t, p - 2)
    {
      ghost var h := View();
      var pad := PadAt(mem, p - 1);
      mem := mem[p - 2 := Num(FREED)];
      tls := tls[t := Loss(tls[t], NCLASSES, pad)];
      Become(FreeLarge(h, t, p - 2));
    }

    method PushFreeBlock(t: nat, p: int, c: nat)
      requires Thread(View(), t) && p - 2 in blocks && blocks[p - 2].cls == c < NCLASSES
      modifies this
      ensures View() == FreePooled(old(View()), t, p - 2)
    {
      ghost var h := View();
      tls := tls[t := Loss(tls[t], c, ClassBytes(c))];
      mem := mem[p - 2 := Num(FREED)];
      mem := mem[p := Num(tls[t].free[c])];
      tls := tls[t := tls[t].(free := tls[t].free[c := p])];
      Become(FreePooled(h, t, p - 2));
    }

    /** The pointer is null, one the allocator handed out, or one whose header words carry none of
        the heap's own stamps. */
    method Free(t: nat, p: int) returns (r: FreeResult)
      requires Inv(View()) && Thread(View(), t)
      requires p - 2 in blocks || (Load(mem, p - 2) != Num(MAGIC) && Load(mem, p - 2) != Num(FREED))
      modifies this
      ensures Inv(View())
      ensures r == Done <==> p != 0 && p - 2 in old(live)
      ensures r == Done ==> Enabled(old(View()), Release(t, p - 2)) && View() == Apply(old(View()), Release(t, p - 2))
      ensures r != Done ==> View() == old(View())
      ensures p != 0 && p - 2 in old(blocks) && p - 2 !in old(live) ==> r == Panic("double free of a heap block")
      ensures r == Ignored ==> p == 0 || p - 2 !in old(blocks)
    {
      if p == 0 {
        return Ignored;
      }
      HeaderAt(View(), p - 2);
      if Load(mem, p - 2) == Num(FREED) {
        return Panic("double free of a heap block");
      }
      if Load(mem, p - 2) == Num(REGION_LIVE) || Load(mem, p - 2) == Num(REGION_FREED) {
        return Panic("delete of a region object");
      }
      if Load(mem, p - 2) != Num(MAGIC) {
        return Ignored;
      }
      StepKeepsInvariant(View(), Release(t, p - 2));
      var c := Load(mem, p - 1).cls;
      if c == LARGE {
        ReleaseOwn(t, p);
      } else {
        PushFreeBlock(t, p, c);
      }
      r := Done;
    }

    /** The C library moves a block it knows to hold `held` words, and the header is rewritten. */
    method MoveOwn(p: int, held: nat, request: nat, base: int) returns (q: int)
      requires p - 2 in live && p - 2 in blocks && held == blocks[p - 2].words
      modifies this
      ensures q == base + 2
      ensures
        var copied := Copied(old(mem), p, base + 2, Min(held, BytesToWords(request)));
        View() == MoveLarge(old(View()), p - 2, request, base, copied)
    {
      ghost var h := View();
      var copied := Copied(mem, p, base + 2, Min(held, BytesToWords(request)));
      mem := mem + copied;
      mem := mem[base := Num(MAGIC)];
      mem := mem[base + 1 := Meta(LARGE, request % TWO32)];
      Become(MoveLarge(h, p - 2, request, base, copied));
      q := base + 2;
    }

    method Realloc(t: nat, p: int, held: nat, request: nat, base: int) returns (q: int)
      requires Inv(View()) && Thread(View(), t)
      requires p != 0 ==> p - 2 in live && p - 2 in blocks && held == blocks[p - 2].words && FreshForResize(View(), p - 2, request, base)
      modifies this
      ensures p == 0 ==> (View(), q) == Allocate(old(View()), t, request, base)
      ensures p != 0 ==> (View(), q) == Reallocate(old(View()), t, p, request, base)
    {
      if p == 0 {
        q := Malloc(t, request, base);
        return;
      }
      HeaderAt(View(), p - 2);
      var c := Load(mem, p - 1).cls;
      if c == LARGE {
        q := MoveOwn(p, held, request, base);
      } else if request <= ClassBytes(c) {
        q := p;
      } else {
        q := Regrow(t, p, held, request, base, c);
      }
    }

    method CopyAndRelease(t: nat, p: int, q: int, held: nat, c: nat)
      requires Thread(View(), t) && p - 2 in blocks && blocks[p - 2].cls == c < NCLASSES
      modifies this
      ensures View() == FreePooled(Overwrite(old(View()), Copied(old(mem), p, q, held)), t, p - 2)
    {
      mem := mem + Copied(mem, p, q, held);
      PushFreeBlock(t, p, c);
    }

    method Regrow(t: nat, p: int, held: nat, request: nat, base: int, c: nat) returns (q: int)
      requires Inv(View()) && Thread(View(), t)
      requires p - 2 in live && p - 2 in blocks && held == blocks[p - 2].words && blocks[p - 2].cls == c < NCLASSES
      requires ClassBytes(c) < request && FreshForResize(View(), p - 2, request, base)
      modifies this
      ensures (View(), q) == Reallocate(old(View()), t, p, request, base)
    {
      GrowFacts(View(), t, p, request, base);
      q := Malloc(t, request, base);
      CopyAndRelease(t, p, q, held, c);
    }
  }
}
