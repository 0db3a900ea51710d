/**
 Where an allocation comes from: freed memory is handed out again before anything is laid out,
 last freed first, and a slab is opened only when the current one has no room.
 */
module HeapReuse {
  import opened Heap
  import opened HeapCalls
  import opened HeapRuns
  import opened HeapSeparation

  function Wanted(request: nat): nat { if request == 0 then 1 else request }

  predicate Pooled(request: nat) { Wanted(request) <= POOL_MAX }

  /** What an allocation takes: the block freed last, or room in the slab, or a new slab, or a block of its own. */
  lemma AllocationSource(h: H, t: nat, request: nat, base: int)
    requires Inv(h) && Thread(h, t)
    ensures
      var (r, p) := Allocate(h, t, request, base);
      if !Pooled(request) then
        p == base + 2 && r.blocks.Keys == h.blocks.Keys + {base} && r.blocks[base].cls == LARGE && r.slabs == h.slabs
      else
        var c := ClassOf(Wanted(request));
        var st := h.stacks[t][c];
        if st != [] then
          p == Top(st) && r.blocks == h.blocks && r.slabs == h.slabs && r.stacks[t][c] == st[..|st| - 1]
        else
          && r.blocks.Keys == h.blocks.Keys + {p - 2} && r.blocks[p - 2].cls == c && r.stacks[t][c] == []
          && (if Fits(h, t, c) then p == h.tls[t].cur + 2 && r.slabs == h.slabs else p == base + 2 && r.slabs == h.slabs + {base})
  {
    hide Layout, Tails, Stamps, Lists, Accounts, LoadNum, PadAt;
    if Pooled(request) {
      var c := ClassOf(Wanted(request));
      EmptyListHasNoHead(h, t, c);
      if h.stacks[t][c] != [] { TopNode(h, t, c); }
    }
  }

  /** The steps of a run that an allocation is. */
  ghost function StepsOf(h: H, t: nat, request: nat, base: int): seq<Action>
    requires Thread(h, t)
  {
    if !Pooled(request) then [Large(t, Wanted(request), base)]
    else
      var c := ClassOf(Wanted(request));
      if h.stacks[t][c] != [] then [PopFree(t, c)]
      else if Fits(h, t, c) then [LayOut(t, c)]
      else [NewSlab(t, c, base), LayOut(t, c)]
  }

  /** An allocation is a run of the heap's steps. */
  lemma AllocationIsARun(h: H, t: nat, request: nat, base: int)
    requires Inv(h) && Thread(h, t)
    requires Fresh(h, base, if request > POOL_MAX then 2 + BytesToWords(request) else SLAB_WORDS)
    ensures Runs(h, StepsOf(h, t, request, base)) && After(h, StepsOf(h, t, request, base)) == Allocate(h, t, request, base).0
  {
    hide Layout, Tails, Stamps, Heads, Lists, Accounts, Fresh;
    if !Pooled(request) {
      OneStep(h, Large(t, Wanted(request), base));
    } else {
      var c := ClassOf(Wanted(request));
      EmptyListHasNoHead(h, t, c);
      if h.stacks[t][c] != [] {
        OneStep(h, PopFree(t, c));
      } else if Fits(h, t, c) {
        OneStep(h, LayOut(t, c));
      } else {
        OpenedSlabFits(h, t, base, c);
        var g := OpenSlab(h, t, base);
        OneStep(g, LayOut(t, c));
        assert [NewSlab(t, c, base), LayOut(t, c)][1..] == [LayOut(t, c)];
      }
    }
  }

  lemma OneStep(h: H, a: Action)
    requires Enabled(h, a)
    ensures Runs(h, [a]) && After(h, [a]) == Apply(h, a)
  {
    hide Enabled, Apply;
    assert [a][1..] == [];
  }

  // ---- what is freed comes back ----

  /** A step of this thread. Joining, resizing and writing touch no thread's lists. */
  predicate By(a: Action, t: nat)
  {
    match a
    case PopFree(u, _) => u == t
    case NewSlab(u, _, _) => u == t
    case LayOut(u, _) => u == t
    case Large(u, _, _) => u == t
    case Release(u, _) => u == t
    case _ => false
  }

  lemma OthersLeaveLists(h: H, a: Action, t: nat)
    requires Enabled(h, a) && Thread(h, t) && !By(a, t)
    ensures Thread(Apply(h, a), t) && Apply(h, a).stacks[t] == h.stacks[t]
  {
    hide Layout, Tails, Stamps, Heads, Lists, Accounts, Fits, Fresh, FreshFor;
  }

  lemma {:induction false} OthersLeaveListsRun(h: H, acts: seq<Action>, t: nat)
    requires Runs(h, acts) && Thread(h, t) && forall i :: 0 <= i < |acts| ==> !By(acts[i], t)
    ensures Thread(After(h, acts), t) && After(h, acts).stacks[t] == h.stacks[t]
    decreases |acts|
  {
    hide Apply, Enabled, Thread;
    if acts != [] {
      assert !By(acts[0], t);
      OthersLeaveLists(h, acts[0], t);
      assert forall i :: 0 <= i < |acts[1..]| ==> acts[1..][i] == acts[i + 1];
      OthersLeaveListsRun(Apply(h, acts[0]), acts[1..], t);
    }
  }

  /** After a thread frees a pooled block, whatever the other threads do, its next request of that
      class answers with that very payload, and nothing is laid out for it. */
  lemma FreedComesBack(h: H, t: nat, b: int, acts: seq<Action>, request: nat, base: int)
    requires Inv(h) && Enabled(h, Release(t, b)) && h.blocks[b].cls < NCLASSES
    requires Runs(Apply(h, Release(t, b)), acts) && forall i :: 0 <= i < |acts| ==> !By(acts[i], t)
    requires Pooled(request) && ClassOf(Wanted(request)) == h.blocks[b].cls
    ensures
      var f := After(Apply(h, Release(t, b)), acts);
      && Inv(f) && Thread(f, t)
      && var (r, p) := Allocate(f, t, request, base);
         p == b + 2 && r.blocks == f.blocks && r.slabs == f.slabs && r.stacks[t] == h.stacks[t]
  {
    hide Layout, Tails, Stamps, Heads, Lists, Accounts, Apply, Allocate, By, LoadNum, ClassOf;
    var c := h.blocks[b].cls;
    var g := Apply(h, Release(t, b));
    FreedIsOnTop(h, t, b);
    StepKeepsInvariant(h, Release(t, b));
    RunKeepsInvariant(g, acts);
    OthersLeaveListsRun(g, acts, t);
    var f := After(g, acts);
    AllocationSource(f, t, request, base);
    var st := f.stacks[t][c];
    assert st[..|st| - 1] == h.stacks[t][c];
    OnlyThatListMoves(f, t, request, base);
  }

  lemma FreedIsOnTop(h: H, t: nat, b: int)
    requires Enabled(h, Release(t, b)) && h.blocks[b].cls < NCLASSES
    ensures
      var g := Apply(h, Release(t, b));
      Thread(g, t) && g.stacks[t] == h.stacks[t][h.blocks[b].cls := h.stacks[t][h.blocks[b].cls] + [b + 2]]
  {
  }

  lemma OnlyThatListMoves(f: H, t: nat, request: nat, base: int)
    requires Inv(f) && Thread(f, t) && Pooled(request)
    ensures
      var r, c := Allocate(f, t, request, base).0, ClassOf(Wanted(request));
      |r.stacks| == |f.stacks| && |r.stacks[t]| == NCLASSES && r.stacks[t] == f.stacks[t][c := r.stacks[t][c]]
  {
    hide Layout, Tails, Stamps, Lists, Accounts, LoadNum, PadAt;
    EmptyListHasNoHead(f, t, ClassOf(Wanted(request)));
  }

  /** Freeing and asking again restores the heap's blocks, live blocks and lists. */
  lemma FreeThenAllocateRestores(h: H, t: nat, b: int, request: nat, base: int)
    requires Inv(h) && Enabled(h, Release(t, b)) && h.blocks[b].cls < NCLASSES
    requires Pooled(request) && ClassOf(Wanted(request)) == h.blocks[b].cls
    ensures
      var (r, p) := Allocate(After(Apply(h, Release(t, b)), []), t, request, base);
      p == b + 2 && r.blocks == h.blocks && r.slabs == h.slabs && r.stacks == h.stacks && r.live == h.live
  {
    hide Layout, Tails, Heads, Lists, Accounts;
    var g := Apply(h, Release(t, b));
    FreedComesBack(h, t, b, [], request, base);
    LiveBlock(h, b);
    EmptyListHasNoHead(g, t, h.blocks[b].cls);
    var r := Allocate(g, t, request, base).0;
    assert r.stacks == h.stacks;
    assert r.live == h.live;
  }

  // ---- memory is bounded by what was in use ----

  ghost function BlocksOf(h: H, c: nat): set<int> { set b | b in h.blocks && h.blocks[b].cls == c }

  function Max(a: nat, b: nat): nat { if a < b then b else a }

  /** The most blocks of a class that were live at once. */
  ghost function PeakLive(h: H, acts: seq<Action>, c: nat): nat
    requires Runs(h, acts)
    decreases |acts|
  {
    if acts == [] then |InBucket(h.live, c)| else Max(|InBucket(h.live, c)|, PeakLive(Apply(h, acts[0]), acts[1..], c))
  }

  lemma LoneThreadLists(h: H, b: int)
    requires Separate(h) && |h.tls| == 1 && b in h.blocks && b !in h.live && h.blocks[b].cls < NCLASSES
    ensures h.stacks[0][h.blocks[b].cls] != []
  {
    assert Listed(h.stacks, h.pos, b, h.blocks[b].cls);
  }

  /** A lone thread lays a block out only when all of its class are live. */
  lemma LoneThreadUsesAll(h: H, c: nat)
    requires Separate(h) && |h.tls| == 1 && c < NCLASSES && h.stacks[0][c] == []
    ensures BlocksOf(h, c) == InBucket(h.live, c)
  {
    forall b ensures b in BlocksOf(h, c) <==> b in InBucket(h.live, c) {
      if b in h.blocks && h.blocks[b].cls == c && b !in h.live {
        LoneThreadLists(h, b);
        assert false;
      }
      if b in h.live { LiveBlock(h, b); }
    }
  }

  lemma StepKeepsPeak(h: H, a: Action, c: nat)
    requires Inv(h) && Enabled(h, a) && c < NCLASSES && |h.tls| <= 1
    ensures |BlocksOf(Apply(h, a), c)| <= Max(|BlocksOf(h, c)|, |InBucket(Apply(h, a).live, c)|)
  {
    if a.LayOut? && a.c == c {
      LayOutKeepsPeak(h, a.t, c);
    } else {
      hide Inv, Enabled, Apply, BlocksOf, InBucket;
      BlocksOnlyLeave(h, a, c);
      Fewer(BlocksOf(Apply(h, a), c), BlocksOf(h, c));
    }
  }

  lemma LayOutKeepsPeak(h: H, t: nat, c: nat)
    requires Inv(h) && Enabled(h, LayOut(t, c)) && |h.tls| <= 1
    ensures |BlocksOf(Apply(h, LayOut(t, c)), c)| <= |InBucket(Apply(h, LayOut(t, c)).live, c)|
  {
    hide Layout, Tails, Stamps, Heads, Lists, Accounts, PadAt, Gain;
    LoneThreadUsesAll(h, c);
    CarvedIsNew(h, t, c);
    var r := Apply(h, LayOut(t, c));
    var b := h.tls[t].cur;
    assert BlocksOf(r, c) == BlocksOf(h, c) + {b};
    assert InBucket(r.live, c) == InBucket(h.live, c) + {b};
  }

  lemma Fewer(a: set<int>, b: set<int>)
    requires a <= b
    ensures |a| <= |b|
  {
    assert b == a + (b - a);
  }

  lemma CarvedIsNew(h: H, t: nat, c: nat)
    requires Separate(h) && Thread(h, t) && c < NCLASSES && Fits(h, t, c)
    ensures h.tls[t].cur !in h.blocks && h.tls[t].cur !in h.live
  {
    assert TailOk(h.tls[t].cur, h.tls[t].end, h.blocks, h.slabs);
    forall b | b in h.blocks ensures b != h.tls[t].cur {
    }
  }

  lemma BlocksOnlyLeave(h: H, a: Action, c: nat)
    requires Inv(h) && Enabled(h, a) && c < NCLASSES && !(a.LayOut? && a.c == c)
    ensures BlocksOf(Apply(h, a), c) <= BlocksOf(h, c)
  {
    hide Layout, Tails, Stamps, Heads, Lists, Accounts, Fresh, FreshFor;
    match a
    case LayOut(t, d) => CarvedIsNew(h, t, d);
    case _ =>
  }

  lemma {:induction false} RunKeepsPeak(h: H, acts: seq<Action>, c: nat)
    requires Inv(h) && Runs(h, acts) && c < NCLASSES && |After(h, acts).tls| <= 1
    ensures |BlocksOf(After(h, acts), c)| <= Max(|BlocksOf(h, c)|, PeakLive(h, acts, c)) && |h.tls| <= 1
    decreases |acts|
  {
    hide Apply, Enabled, Inv, BlocksOf, InBucket;
    if acts != [] {
      var g := Apply(h, acts[0]);
      StepKeepsInvariant(h, acts[0]);
      ThreadsStay(h, acts[0]);
      RunKeepsPeak(g, acts[1..], c);
      StepKeepsPeak(h, acts[0], c);
      PeakIsAtLeast(g, acts[1..], c);
    }
  }

  lemma ThreadsStay(h: H, a: Action)
    requires Enabled(h, a)
    ensures |h.tls| <= |Apply(h, a).tls|
  {
    hide Fits, Fresh, FreshFor;
  }

  lemma PeakIsAtLeast(h: H, acts: seq<Action>, c: nat)
    requires Runs(h, acts)
    ensures PeakLive(h, acts, c) >= |InBucket(h.live, c)|
  {
    hide Apply, Enabled;
  }

  /** In every run of one thread, however long, no more blocks of a class are ever laid out than were
      live at once: allocating and freeing in turn does not grow the heap. */
  lemma NoGrowthBeyondPeak(acts: seq<Action>, c: nat)
    requires Runs(Empty, acts) && c < NCLASSES && |After(Empty, acts).tls| <= 1
    ensures |BlocksOf(After(Empty, acts), c)| <= PeakLive(Empty, acts, c)
  {
    EmptyHoldsInvariant();
    RunKeepsPeak(Empty, acts, c);
    assert BlocksOf(Empty, c) == {};
  }

  // ---- resizing ----

  /** A pooled block that still fits its class stays where it is and nothing changes. */
  lemma FittingResizeStays(h: H, t: nat, p: int, request: nat, base: int)
    requires Inv(h) && Thread(h, t) && p - 2 in h.live && FreshForResize(h, p - 2, request, base)
    ensures
      var b := h.blocks[p - 2];
      var (r, q) := Reallocate(h, t, p, request, base);
      && (b.cls < NCLASSES && request <= 8 * b.words ==> r == h && q == p)
      && (b.cls < NCLASSES && request > 8 * b.words ==> q == Allocate(h, t, request, base).1)
      && (b.cls == LARGE ==> r.stacks == h.stacks && r.slabs == h.slabs)
  {
    LiveBlock(h, p - 2);
    assert BlockOk(h.slabs, p - 2, h.blocks[p - 2]);
  }
}
