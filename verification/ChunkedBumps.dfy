/**
 The region allocators that never lock: a shared cursor moved by one atomic add, a run of slots
 kept by each thread, and a free list of each thread's own. A run of 64 slots is the chunked
 allocator; a run of one slot is the plain atomic bump.

 Slots are counted from the start of the slab. Each step of the state machine touches shared
 state at most once, so every interleaving of threads is a sequence of steps.
 */
module ChunkedBumps {
  import opened Arithmetic

  const SLOT_BYTES: nat := 48
  const HEADER_BYTES: nat := 16
  const RUN: nat := 64
  const WINDOW: nat := 64

  datatype Local = Local(free: seq<nat>, cursor: nat, remaining: nat)

  /** What became of a slot below the shared cursor, and the thread that has it. */
  datatype Whereabouts = Live(thread: nat) | Free(thread: nat) | Tail(thread: nat)

  datatype State = State(used: nat, locals: seq<Local>, slots: seq<Whereabouts>)

  datatype Action =
    | PopFree(t: nat)                 // allocate, from the thread's own free list
    | TakeRun(t: nat)                 // allocate, first half: the atomic add
    | Bump(t: nat)                    // allocate, second half: the next slot of the thread's run
    | Release(t: nat, slot: nat)

  predicate Enabled(s: State, a: Action)
  {
    && a.t < |s.locals|
    && var me := s.locals[a.t];
       match a
       case PopFree(_) => me.free != []
       case TakeRun(_) => me.free == [] && me.remaining == 0
       case Bump(_) => me.free == [] && me.remaining > 0
       case Release(_, slot) => slot < |s.slots| && s.slots[slot].Live?
  }

  function Runs(t: nat, run: nat): seq<Whereabouts> { seq(run, i => Tail(t)) }

  ghost function Apply(s: State, a: Action, run: nat): State
    requires Enabled(s, a) && Inv(s)
  {
    var me := s.locals[a.t];
    match a
    case PopFree(t) =>
      assert me.free[0] in me.free && Holds(me, t, s.slots);
      s.(locals := s.locals[t := me.(free := me.free[1..])], slots := s.slots[me.free[0] := Live(t)])
    case TakeRun(t) =>
      s.(used := s.used + run, locals := s.locals[t := me.(cursor := s.used, remaining := run)], slots := s.slots + Runs(t, run))
    case Bump(t) =>
      assert Holds(me, t, s.slots) && InTail(me, me.cursor);
      s.(locals := s.locals[t := me.(cursor := me.cursor + 1, remaining := me.remaining - 1)], slots := s.slots[me.cursor := Live(t)])
    case Release(t, slot) =>
      s.(locals := s.locals[t := me.(free := [slot] + me.free)], slots := s.slots[slot := Free(t)])
  }

  // ---- the partition ----

  predicate InTail(me: Local, k: nat) { me.cursor <= k < me.cursor + me.remaining }

  ghost predicate NoRepeats(free: seq<nat>)
  {
    forall i, j :: 0 <= i < j < |free| ==> free[i] != free[j]
  }

  /** A thread's free list and the rest of its run are exactly the slots that say so. */
  ghost predicate Holds(me: Local, t: nat, slots: seq<Whereabouts>)
  {
    && NoRepeats(me.free)
    && (forall k: nat :: k in me.free <==> k < |slots| && slots[k] == Free(t))
    && (forall k: nat :: InTail(me, k) <==> k < |slots| && slots[k] == Tail(t))
  }

  ghost predicate Inv(s: State)
  {
    && s.used == |s.slots|
    && (forall k :: 0 <= k < |s.slots| ==> s.slots[k].thread < |s.locals|)
    && (forall t :: 0 <= t < |s.locals| ==> Holds(s.locals[t], t, s.slots))
  }

  function Start(threads: nat): (s: State)
    ensures Inv(s)
  {
    State(0, seq(threads, t => Local([], 0, 0)), [])
  }

  lemma PopKeeps(me: Local, t: nat, slots: seq<Whereabouts>)
    requires Holds(me, t, slots) && me.free != []
    ensures me.free[0] in me.free && Holds(me.(free := me.free[1..]), t, slots[me.free[0] := Live(t)])
  {
    var rest := me.free[1..];
    assert me.free[0] in me.free && me.free[0] < |slots|;
    assert me.free == [me.free[0]] + rest;
    assert me.free[0] !in rest by {
      assert forall j :: 0 <= j < |rest| ==> rest[j] == me.free[j + 1];
    }
    var after := slots[me.free[0] := Live(t)];
    assert NoRepeats(rest) by {
      assert forall j :: 0 <= j < |rest| ==> rest[j] == me.free[j + 1];
    }
    forall k: nat
      ensures k in rest <==> k < |slots| && after[k] == Free(t)
      ensures InTail(me, k) <==> k < |slots| && after[k] == Tail(t)
    {
      assert k in me.free <==> k == me.free[0] || k in rest;
    }
    assert forall k: nat :: InTail(me.(free := rest), k) <==> InTail(me, k);
  }

  lemma TakeKeeps(me: Local, t: nat, slots: seq<Whereabouts>, run: nat)
    requires Holds(me, t, slots) && me.free == [] && me.remaining == 0
    ensures Holds(me.(cursor := |slots|, remaining := run), t, slots + Runs(t, run))
  {
    var after, now := slots + Runs(t, run), me.(cursor := |slots|, remaining := run);
    forall k: nat
      ensures InTail(now, k) <==> k < |after| && after[k] == Tail(t)
    {
      assert !InTail(me, k);
    }
    forall k: nat
      ensures k in now.free <==> k < |after| && after[k] == Free(t)
    {
      assert k !in me.free;
    }
  }

  lemma BumpKeeps(me: Local, t: nat, slots: seq<Whereabouts>)
    requires Holds(me, t, slots) && me.remaining > 0
    ensures InTail(me, me.cursor) && me.cursor < |slots|
    ensures Holds(me.(cursor := me.cursor + 1, remaining := me.remaining - 1), t, slots[me.cursor := Live(t)])
  {
    assert InTail(me, me.cursor);
    var after, now := slots[me.cursor := Live(t)], me.(cursor := me.cursor + 1, remaining := me.remaining - 1);
    forall k: nat
      ensures InTail(now, k) <==> k < |after| && after[k] == Tail(t)
    {
      assert InTail(now, k) <==> InTail(me, k) && k != me.cursor;
    }
  }

  lemma ReleaseKeeps(me: Local, t: nat, slots: seq<Whereabouts>, slot: nat)
    requires Holds(me, t, slots) && slot < |slots| && slots[slot].Live?
    ensures Holds(me.(free := [slot] + me.free), t, slots[slot := Free(t)])
  {
    var now, after := [slot] + me.free, slots[slot := Free(t)];
    assert slot !in me.free;
    assert NoRepeats(now) by {
      assert forall j :: 1 <= j < |now| ==> now[j] == me.free[j - 1];
    }
    forall k: nat
      ensures k in now <==> k < |slots| && after[k] == Free(t)
      ensures InTail(me, k) <==> k < |slots| && after[k] == Tail(t)
    {
      assert k in now <==> k == slot || k in me.free;
    }
    assert forall k: nat :: InTail(me.(free := now), k) <==> InTail(me, k);
  }

  /** A change at slots that are not, and do not become, this thread's free or tail slots. */
  lemma OthersKeep(me: Local, t: nat, slots: seq<Whereabouts>, after: seq<Whereabouts>)
    requires Holds(me, t, slots) && |slots| <= |after|
    requires forall k :: 0 <= k < |slots| ==> after[k] == slots[k] || ((slots[k].Live? || slots[k].thread != t) && (after[k].Live? || after[k].thread != t))
    requires forall k :: |slots| <= k < |after| ==> after[k].thread != t
    ensures Holds(me, t, after)
  {
  }

  /** Every step of every thread keeps the partition. */
  lemma StepKeepsInvariant(s: State, a: Action, run: nat)
    requires Inv(s) && Enabled(s, a)
    ensures Inv(Apply(s, a, run))
  {
    var r := Apply(s, a, run);
    var me := s.locals[a.t];
    assert Holds(me, a.t, s.slots);
    match a {
      case PopFree(t) => PopKeeps(me, t, s.slots);
      case TakeRun(t) => TakeKeeps(me, t, s.slots, run);
      case Bump(t) => BumpKeeps(me, t, s.slots);
      case Release(t, slot) => ReleaseKeeps(me, t, s.slots, slot);
    }
    forall u | 0 <= u < |r.locals|
      ensures Holds(r.locals[u], u, r.slots)
    {
      if u != a.t {
        assert Holds(s.locals[u], u, s.slots);
        OthersKeep(s.locals[u], u, s.slots, r.slots);
      }
    }
  }

  /** The slot an allocating step hands out. */
  function Handed(s: State, a: Action): nat
    requires Enabled(s, a) && (a.PopFree? || a.Bump?)
  {
    if a.PopFree? then s.locals[a.t].free[0] else s.locals[a.t].cursor
  }

  /** A slot is handed out only when nobody holds it, and from then on its new owner does. */
  lemma HandedWasNotLive(s: State, a: Action, run: nat)
    requires Inv(s) && Enabled(s, a) && (a.PopFree? || a.Bump?)
    ensures var k := Handed(s, a);
            && k < s.used && !s.slots[k].Live?
            && Apply(s, a, run).slots == s.slots[k := Live(a.t)]
  {
    var me := s.locals[a.t];
    assert Holds(me, a.t, s.slots);
    if a.Bump? {
      assert InTail(me, me.cursor);
    } else {
      assert me.free[0] in me.free;
    }
  }

  /** The region below the cursor is live slots, free lists and run tails: all of it, and nothing twice. */
  lemma RegionIsPartitioned(s: State)
    requires Inv(s)
    ensures forall t, u, k: nat :: 0 <= t < |s.locals| && 0 <= u < |s.locals| ==>
      !(k in s.locals[t].free && InTail(s.locals[u], k))
      && (k in s.locals[t].free && k in s.locals[u].free ==> t == u)
      && (InTail(s.locals[t], k) && InTail(s.locals[u], k) ==> t == u)
    ensures forall t, k: nat :: 0 <= t < |s.locals| && (k in s.locals[t].free || InTail(s.locals[t], k)) ==>
      k < s.used && !s.slots[k].Live?
    ensures forall k: nat :: k < s.used && !s.slots[k].Live? ==>
      exists t :: 0 <= t < |s.locals| && (k in s.locals[t].free || InTail(s.locals[t], k))
    ensures forall t :: 0 <= t < |s.locals| ==> NoRepeats(s.locals[t].free)
  {
    forall t, u, k: nat | 0 <= t < |s.locals| && 0 <= u < |s.locals|
      ensures !(k in s.locals[t].free && InTail(s.locals[u], k))
      ensures k in s.locals[t].free && k in s.locals[u].free ==> t == u
      ensures InTail(s.locals[t], k) && InTail(s.locals[u], k) ==> t == u
      ensures k in s.locals[t].free || InTail(s.locals[t], k) ==> k < s.used && !s.slots[k].Live?
    {
      assert Holds(s.locals[t], t, s.slots) && Holds(s.locals[u], u, s.slots);
    }
    forall k: nat | k < s.used && !s.slots[k].Live?
      ensures exists t :: 0 <= t < |s.locals| && (k in s.locals[t].free || InTail(s.locals[t], k))
    {
      var t := s.slots[k].thread;
      assert Holds(s.locals[t], t, s.slots);
      assert k in s.locals[t].free || InTail(s.locals[t], k);
    }
  }

  /** Payloads of different slots do not overlap. */
  lemma PayloadsAreDisjoint(j: nat, k: nat)
    requires j != k
    ensures SLOT_BYTES * j + SLOT_BYTES <= SLOT_BYTES * k + HEADER_BYTES || SLOT_BYTES * k + SLOT_BYTES <= SLOT_BYTES * j + HEADER_BYTES
  {
  }

  // ---- runs of the machine ----

  /** `acts` can be taken from `s`, one after another. */
  ghost predicate Possible(s: State, acts: seq<Action>, run: nat)
    requires Inv(s)
    decreases |acts|
  {
    acts != [] ==> Enabled(s, acts[0]) && (StepKeepsInvariant(s, acts[0], run); Possible(Apply(s, acts[0], run), acts[1..], run))
  }

  ghost function After(s: State, acts: seq<Action>, run: nat): (r: State)
    requires Inv(s) && Possible(s, acts, run)
    ensures Inv(r)
    decreases |acts|
  {
    if acts == [] then s
    else
      StepKeepsInvariant(s, acts[0], run);
      After(Apply(s, acts[0], run), acts[1..], run)
  }

  // ---- the size of the slab ----

  ghost function CountLive(slots: seq<Whereabouts>, t: nat): nat
  {
    if slots == [] then 0 else CountLive(slots[..|slots| - 1], t) + (if slots[|slots| - 1] == Live(t) then 1 else 0)
  }

  /** How many slots a thread ever took off the shared cursor, when every thread frees only its own. */
  ghost function CountOwned(slots: seq<Whereabouts>, t: nat): nat
  {
    if slots == [] then 0 else CountOwned(slots[..|slots| - 1], t) + (if slots[|slots| - 1].thread == t then 1 else 0)
  }

  /** A step in which a thread frees only its own slots and allocates only below its peak. */
  ghost predicate Disciplined(s: State, a: Action, peak: nat)
  {
    && Enabled(s, a)
    && if a.Release? then s.slots[a.slot] == Live(a.t) else CountLive(s.slots, a.t) < peak
  }

  ghost predicate Bounded(s: State, run: nat, peak: nat)
  {
    forall t :: 0 <= t < |s.locals| ==> CountOwned(s.slots, t) < peak + run
  }

  lemma {:induction false} OwnedUpdate(slots: seq<Whereabouts>, i: nat, x: Whereabouts, t: nat)
    requires i < |slots| && slots[i].thread == x.thread
    ensures CountOwned(slots[i := x], t) == CountOwned(slots, t)
  {
    var n := |slots| - 1;
    if i < n {
      OwnedUpdate(slots[..n], i, x, t);
      assert slots[i := x][..n] == slots[..n][i := x];
    } else {
      assert slots[i := x][..n] == slots[..n];
    }
  }

  lemma {:induction false} OwnedRun(slots: seq<Whereabouts>, u: nat, run: nat, t: nat)
    ensures CountOwned(slots + Runs(u, run), t) == CountOwned(slots, t) + (if t == u then run else 0)
    decreases run
  {
    var after := slots + Runs(u, run);
    if run == 0 {
      assert after == slots;
    } else {
      OwnedRun(slots, u, run - 1, t);
      assert after[..|after| - 1] == slots + Runs(u, run - 1);
    }
  }

  /** A thread with an empty free list and no run left owns live slots only. */
  lemma {:induction false} AllOwnedAreLive(slots: seq<Whereabouts>, t: nat)
    requires forall k :: 0 <= k < |slots| ==> slots[k] != Free(t) && slots[k] != Tail(t)
    ensures CountOwned(slots, t) == CountLive(slots, t)
  {
    if slots != [] {
      AllOwnedAreLive(slots[..|slots| - 1], t);
    }
  }

  lemma DisciplinedStepKeepsBound(s: State, a: Action, run: nat, peak: nat)
    requires Inv(s) && Bounded(s, run, peak) && Disciplined(s, a, peak)
    ensures Bounded(Apply(s, a, run), run, peak)
  {
    var r := Apply(s, a, run);
    var me := s.locals[a.t];
    assert Holds(me, a.t, s.slots);
    forall u | 0 <= u < |r.locals|
      ensures CountOwned(r.slots, u) < peak + run
    {
      assert CountOwned(s.slots, u) < peak + run;
      match a {
        case PopFree(t) =>
          assert me.free[0] in me.free;
          OwnedUpdate(s.slots, me.free[0], Live(t), u);
        case TakeRun(t) =>
          OwnedRun(s.slots, t, run, u);
          if u == t {
            forall k | 0 <= k < |s.slots|
              ensures s.slots[k] != Free(t) && s.slots[k] != Tail(t)
            {
              assert k !in me.free && !InTail(me, k);
            }
            AllOwnedAreLive(s.slots, t);
          }
        case Bump(t) =>
          assert InTail(me, me.cursor);
          OwnedUpdate(s.slots, me.cursor, Live(t), u);
        case Release(t, slot) => OwnedUpdate(s.slots, slot, Free(t), u);
      }
    }
  }

  ghost function OwnedByFirst(slots: seq<Whereabouts>, threads: nat): nat
  {
    if threads == 0 then 0 else OwnedByFirst(slots, threads - 1) + CountOwned(slots, threads - 1)
  }

  /** Every slot is owned by one thread. */
  lemma {:induction false} OwnersShareAll(slots: seq<Whereabouts>, threads: nat)
    ensures OwnedByFirst(slots, threads) == |slots| <== forall k :: 0 <= k < |slots| ==> slots[k].thread < threads
  {
    if forall k :: 0 <= k < |slots| ==> slots[k].thread < threads {
      if slots == [] {
        NoneOwned(threads);
      } else {
        var n := |slots| - 1;
        OwnersShareAll(slots[..n], threads);
        OneMoreOwned(slots, threads);
      }
    }
  }

  lemma {:induction false} NoneOwned(threads: nat)
    ensures OwnedByFirst([], threads) == 0
  {
    if threads > 0 {
      NoneOwned(threads - 1);
    }
  }

  lemma {:induction false} OneMoreOwned(slots: seq<Whereabouts>, threads: nat)
    requires slots != []
    ensures var n := |slots| - 1;
            OwnedByFirst(slots, threads) == OwnedByFirst(slots[..n], threads) + (if slots[n].thread < threads then 1 else 0)
  {
    if threads > 0 {
      OneMoreOwned(slots, threads - 1);
    }
  }

  lemma {:induction false} OwnedByFirstBelow(slots: seq<Whereabouts>, threads: nat, most: nat)
    requires forall t :: 0 <= t < threads ==> CountOwned(slots, t) <= most
    ensures OwnedByFirst(slots, threads) <= most * threads
  {
    if threads > 0 {
      OwnedByFirstBelow(slots, threads - 1, most);
      assert most * threads == most * (threads - 1) + most;
    }
  }

  /** Every step of `acts` is disciplined. */
  ghost predicate DisciplinedRun(s: State, acts: seq<Action>, run: nat, peak: nat)
    requires Inv(s) && Possible(s, acts, run)
    decreases |acts|
  {
    acts != [] ==>
      && Disciplined(s, acts[0], peak)
      && (StepKeepsInvariant(s, acts[0], run); DisciplinedRun(Apply(s, acts[0], run), acts[1..], run, peak))
  }

  lemma {:induction false} RunKeepsBound(s: State, acts: seq<Action>, run: nat, peak: nat)
    requires Inv(s) && Bounded(s, run, peak) && Possible(s, acts, run) && DisciplinedRun(s, acts, run, peak)
    ensures Bounded(After(s, acts, run), run, peak) && |After(s, acts, run).locals| == |s.locals|
    decreases |acts|
  {
    if acts != [] {
      StepKeepsInvariant(s, acts[0], run);
      DisciplinedStepKeepsBound(s, acts[0], run, peak);
      RunKeepsBound(Apply(s, acts[0], run), acts[1..], run, peak);
    }
  }

  /** The slots the harness allocates for a region. */
  function SlabSlots(slotsPerThread: nat, threads: nat): nat
  {
    slotsPerThread * threads + WINDOW * threads + 64
  }

  /** The cursor never passes the end of the slab, whatever the interleaving, for runs of up to 64 slots. */
  lemma SlabIsLargeEnough(threads: nat, acts: seq<Action>, run: nat, slotsPerThread: nat)
    requires 0 < run <= RUN
    requires Possible(Start(threads), acts, run) && DisciplinedRun(Start(threads), acts, run, slotsPerThread)
    ensures After(Start(threads), acts, run).used <= SlabSlots(slotsPerThread, threads)
  {
    hide After, Possible, DisciplinedRun, OwnedByFirst, CountOwned;
    var s := Start(threads);
    StartIsBounded(threads, run, slotsPerThread);
    RunKeepsBound(s, acts, run, slotsPerThread);
    var r := After(s, acts, run);
    OwnersShareAll(r.slots, threads);
    OwnedByFirstBelow(r.slots, threads, slotsPerThread + run - 1);
    EnoughSlots(slotsPerThread, threads, run);
  }

  lemma StartIsBounded(threads: nat, run: nat, peak: nat)
    requires run > 0
    ensures Bounded(Start(threads), run, peak)
  {
  }

  lemma EnoughSlots(slotsPerThread: nat, threads: nat, run: nat)
    requires 0 < run <= RUN
    ensures (slotsPerThread + run - 1) * threads <= SlabSlots(slotsPerThread, threads)
  {
    assert (slotsPerThread + run - 1) * threads == slotsPerThread * threads + (run - 1) * threads;
    Scale(run - 1, WINDOW, threads);
  }

  // ---- the allocator itself ----

  /** Taking a run first, when the free list is empty and the old run is spent. */
  ghost function WithRun(s: State, t: nat, run: nat): (r: State)
    requires Inv(s) && t < |s.locals| && run > 0 && s.locals[t].free == []
    ensures Inv(r) && Enabled(r, Bump(t))
  {
    if s.locals[t].remaining > 0 then s
    else
      StepKeepsInvariant(s, TakeRun(t), run);
      Apply(s, TakeRun(t), run)
  }

  /** One whole allocation with nobody in between: the state it leaves and the slot it hands out. */
  ghost function Allocated(s: State, t: nat, run: nat): (State, nat)
    requires Inv(s) && t < |s.locals| && run > 0
  {
    if s.locals[t].free != [] then (Apply(s, PopFree(t), run), Handed(s, PopFree(t)))
    else
      var w := WithRun(s, t, run);
      (Apply(w, Bump(t), run), Handed(w, Bump(t)))
  }

  /** An allocation keeps the partition and hands out a slot nobody holds; the other slots are as they were. */
  lemma AllocatedKeeps(s: State, t: nat, run: nat)
    requires Inv(s) && t < |s.locals| && run > 0
    ensures var (r, slot) := Allocated(s, t, run);
            && Inv(r) && slot < |r.slots| && r.slots[slot] == Live(t)
            && (slot < |s.slots| ==> !s.slots[slot].Live?)
            && forall k :: 0 <= k < |s.slots| && k != slot ==> r.slots[k] == s.slots[k]
  {
    if s.locals[t].free != [] {
      StepKeepsInvariant(s, PopFree(t), run);
      HandedWasNotLive(s, PopFree(t), run);
    } else {
      var w := WithRun(s, t, run);
      StepKeepsInvariant(w, Bump(t), run);
      HandedWasNotLive(w, Bump(t), run);
    }
  }

  /** The chunked allocator of one region; what each thread keeps for itself stands at its own index. */
  class Bump {
    const run: nat
    const locals: array<Local>
    var used: nat
    ghost var slots: seq<Whereabouts>

    ghost function View(): State
      reads this, locals
    {
      State(used, locals[..], slots)
    }

    constructor (threads: nat, run: nat)
      requires run > 0
      ensures View() == Start(threads) && this.run == run && fresh(locals)
    {
      locals := new Local[threads](i => Local([], 0, 0));
      used, slots := 0, [];
      this.run := run;
    }

    /** From the free list, else from the run, taking a new run when the old one is spent. */
    method Allocate(t: nat) returns (slot: nat)
      requires t < locals.Length && run > 0 && Inv(View())
      modifies this`used, this`slots, locals
      ensures (View(), slot) == Allocated(old(View()), t, run) && Inv(View())
    {
      hide Holds;
      AllocatedKeeps(View(), t, run);
      var me := locals[t];
      if me.free != [] {
        slot := me.free[0];
        locals[t] := me.(free := me.free[1..]);
        HandedWasNotLive(old(View()), PopFree(t), run);
        slots := slots[slot := Live(t)];
        return;
      }
      if me.remaining == 0 {
        me := me.(cursor := used, remaining := run);
        locals[t] := me;
        used := used + run;
        slots := slots + Runs(t, run);
      }
      slot := me.cursor;
      HandedWasNotLive(View(), Bump(t), run);
      locals[t] := me.(cursor := me.cursor + 1, remaining := me.remaining - 1);
      slots := slots[slot := Live(t)];
    }

    /** The slot goes to the free list of the thread that frees it. */
    method Free(t: nat, slot: nat)
      requires t < locals.Length && Inv(View()) && slot < |slots| && slots[slot].Live?
      modifies this`slots, locals
      ensures View() == Apply(old(View()), Release(t, slot), run) && Inv(View())
    {
      StepKeepsInvariant(View(), Release(t, slot), run);
      locals[t] := locals[t].(free := [slot] + locals[t].free);
      slots := slots[slot := Whereabouts.Free(t)];
    }
  }
}
