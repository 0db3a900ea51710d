/**
 What a caller of a channel gets: the outcome of each call, step by step and over whole runs.
 Every statement is about the queue before the step and the list of calls, not about the ring.
 */
module ChannelCalls {
  import opened Channels
  import opened Tally

  // ---- one step ----

  /** Every thread but these stands where it stood. */
  ghost predicate OthersStay(s: State, t: State, i: nat, j: nat)
  {
    |t.threads| == |s.threads| && forall k :: 0 <= k < |s.threads| && k != i && k != j ==> t.threads[k] == s.threads[k]
  }

  /** A send sleeps exactly when the queue is full, keeping its value, and otherwise has stored it. */
  lemma SendOutcome(s: State, i: nat)
    requires Inv(s) && Enabled(s, Send(i))
    ensures
      var t := Apply(s, Send(i));
      && OthersStay(s, t, i, i)
      && (if |Contents(s.chan)| == |s.chan.buf|
          then t.threads[i] == SendAsleep(s.threads[i].v) && Contents(t.chan) == Contents(s.chan)
          else t.threads[i] == Sent && Contents(t.chan) == Contents(s.chan) + [s.threads[i].v])
  {
    StepRefinesQueue(s, Send(i));
    if s.chan.count < |s.chan.buf| { PutAppendsToContents(s.chan, s.threads[i].v); }
  }

  /** A receive sleeps exactly when the queue is empty, and otherwise has its oldest value. */
  lemma ReceiveOutcome(s: State, i: nat)
    requires Inv(s) && Enabled(s, Receive(i))
    ensures
      var t := Apply(s, Receive(i));
      && OthersStay(s, t, i, i)
      && (if Contents(s.chan) == []
          then t.threads[i] == ReceiveAsleep && t.chan == s.chan
          else t.threads[i] == Took(Contents(s.chan)[0]) && Contents(t.chan) == Contents(s.chan)[1..])
  {
    if s.chan.count > 0 { TakeRemovesOldest(s.chan); }
  }

  /** A non-blocking receive answers at once: the oldest value when there is one, nothing otherwise. */
  lemma TryReceiveOutcome(s: State, i: nat)
    requires Inv(s) && Enabled(s, TryReceive(i))
    ensures
      var t := Apply(s, TryReceive(i));
      && OthersStay(s, t, i, i)
      && (if Contents(s.chan) == []
          then t.threads[i] == Idle && t.chan == s.chan
          else t.threads[i] == Took(Contents(s.chan)[0]) && Contents(t.chan) == Contents(s.chan)[1..])
  {
    if s.chan.count > 0 { TakeRemovesOldest(s.chan); }
  }

  /** A signal is spent by the thread that owed it and wakes exactly one sleeper of its kind, if there is one. */
  lemma SignalOutcome(s: State, a: Action)
    requires Inv(s) && Enabled(s, a) && (a.SignalNotEmpty? || a.SignalNotFull?)
    ensures
      var t := Apply(s, a);
      && OthersStay(s, t, a.i, a.j) && t.threads[a.i] == Idle && t.chan == s.chan
      && (a.SignalNotEmpty? ==>
            Count(t.threads, IsReceiveAsleep) == if Sleepers(s, IsReceiveAsleep) then Count(s.threads, IsReceiveAsleep) - 1 else 0)
      && (a.SignalNotFull? ==>
            Count(t.threads, IsSendAsleep) == if Sleepers(s, IsSendAsleep) then Count(s.threads, IsSendAsleep) - 1 else 0)
      && (a.j != a.i ==> t.threads[a.j] == WakeUp(s.threads[a.j]) != s.threads[a.j])
  {
    Moves(s.threads, a.i, Idle);
    if a.j != a.i {
      var mid := s.threads[a.i := Idle];
      assert mid[a.j] == s.threads[a.j];
      Moves(mid, a.j, WakeUp(mid[a.j]));
    }
  }

  // ---- a thread and its last call ----

  /** The last call thread `i` made in a run, `was` before it. */
  function LastCall(acts: seq<Action>, i: nat, was: Pc): Pc
  {
    if acts == [] then was
    else LastCall(acts[1..], i, if acts[0].Call? && acts[0].i == i then acts[0].entry else was)
  }

  /** Where a thread may stand after a call; before any it is idle. */
  ghost predicate OnCourse(pc: Pc, call: Pc)
  {
    match call
    case WantSend(v) => pc in {WantSend(v), SendAsleep(v), SendWoken(v), Sent, Idle}
    case WantReceive => pc in {WantReceive, ReceiveAsleep, ReceiveWoken, Idle} || pc.Took?
    case WantTry => pc in {WantTry, Idle} || pc.Took?
    case _ => pc == Idle
  }

  ghost predicate ThreadOnCourse(s: State, i: nat, call: Pc)
  {
    if i < |s.threads| then OnCourse(s.threads[i], call) else call == Idle
  }

  lemma StepOnCourse(s: State, a: Action, i: nat, call: Pc)
    requires ValidChan(s.chan) && Enabled(s, a) && ThreadOnCourse(s, i, call)
    ensures ThreadOnCourse(Apply(s, a), i, if a.Call? && a.i == i then a.entry else call)
  {
  }

  lemma {:induction false} RunOnCourse(s: State, acts: seq<Action>, i: nat, call: Pc)
    requires ValidChan(s.chan) && Runs(s, acts) && ThreadOnCourse(s, i, call)
    ensures ThreadOnCourse(After(s, acts), i, LastCall(acts, i, call))
    decreases |acts|
  {
    if acts != [] {
      StepOnCourse(s, acts[0], i, call);
      RunOnCourse(Apply(s, acts[0]), acts[1..], i, if acts[0].Call? && acts[0].i == i then acts[0].entry else call);
    }
  }

  /** In every run a thread stands inside the operation it called last: a sender sleeps with the very
      value it was called with, only a receiver sleeps for an item, and a non-blocking receive never sleeps. */
  lemma ThreadsFollowTheirCalls(s: State, cap: int, acts: seq<Action>, i: nat)
    requires Init(s, cap) && Runs(s, acts) && i < |After(s, acts).threads|
    ensures
      var pc := After(s, acts).threads[i];
      var call := LastCall(acts, i, Idle);
      && OnCourse(pc, call)
      && (call.WantTry? ==> !pc.ReceiveAsleep? && !pc.SendAsleep?)
      && (pc.SendAsleep? ==> call == WantSend(pc.v))
      && (pc.ReceiveAsleep? ==> call == WantReceive)
  {
    RunOnCourse(s, acts, i, Idle);
  }

  // ---- every send stores once ----

  /** The thread has still to store `v`. */
  predicate Offers(p: Pc, v: int) { p in {WantSend(v), SendAsleep(v), SendWoken(v)} }

  /** How many threads have still to store `v`. */
  ghost function Offering(threads: seq<Pc>, v: int): nat
  {
    if threads == [] then 0 else Offering(threads[..|threads| - 1], v) + Bit(Offers(threads[|threads| - 1], v))
  }

  /** How many send calls of a run were given `v`. */
  ghost function Offered(acts: seq<Action>, v: int): nat
  {
    if acts == [] then 0 else Bit(acts[0].Call? && acts[0].entry == WantSend(v)) + Offered(acts[1..], v)
  }

  lemma {:induction false} OfferMoves(threads: seq<Pc>, i: nat, p: Pc, v: int)
    requires i < |threads|
    ensures Offering(threads[i := p], v) + Bit(Offers(threads[i], v)) == Offering(threads, v) + Bit(Offers(p, v))
  {
    var n := |threads| - 1;
    if i == n {
      assert threads[i := p][..n] == threads[..n];
    } else {
      OfferMoves(threads[..n], i, p, v);
      assert threads[i := p][..n] == threads[..n][i := p];
    }
  }

  lemma StepKeepsOffers(s: State, a: Action, v: int)
    requires ValidChan(s.chan) && Enabled(s, a)
    ensures
      var t := Apply(s, a);
      multiset(t.sent)[v] + Offering(t.threads, v) ==
        multiset(s.sent)[v] + Offering(s.threads, v) + Bit(a.Call? && a.entry == WantSend(v))
  {
    hide Offering, Contents, Count;
    var t := Apply(s, a);
    match a
    case Spawn => OfferAppends(s.threads, v);
    case SignalNotEmpty(i, j) => SignalKeepsOffers(s, a, v);
    case SignalNotFull(i, j) => SignalKeepsOffers(s, a, v);
    case Spurious(j) => OfferMoves(s.threads, j, t.threads[j], v);
    case Call(i, e) => OfferMoves(s.threads, i, e, v);
    case Send(i) => OfferMoves(s.threads, i, t.threads[i], v);
    case Receive(i) => OfferMoves(s.threads, i, t.threads[i], v);
    case TryReceive(i) => OfferMoves(s.threads, i, t.threads[i], v);
  }

  lemma OfferAppends(threads: seq<Pc>, v: int)
    ensures Offering(threads + [Idle], v) == Offering(threads, v)
  {
    assert (threads + [Idle])[..|threads|] == threads;
  }

  lemma SignalKeepsOffers(s: State, a: Action, v: int)
    requires ValidChan(s.chan) && Enabled(s, a) && (a.SignalNotEmpty? || a.SignalNotFull?)
    ensures Offering(Apply(s, a).threads, v) == Offering(s.threads, v) && Apply(s, a).sent == s.sent
  {
    hide Offering, Contents, Count;
    OfferMoves(s.threads, a.i, Idle, v);
    if a.j != a.i {
      var mid := s.threads[a.i := Idle];
      OfferMoves(mid, a.j, WakeUp(mid[a.j]), v);
    }
  }

  lemma {:induction false} RunKeepsOffers(s: State, acts: seq<Action>, v: int)
    requires ValidChan(s.chan) && Runs(s, acts)
    ensures multiset(After(s, acts).sent)[v] + Offering(After(s, acts).threads, v) ==
      multiset(s.sent)[v] + Offering(s.threads, v) + Offered(acts, v)
    decreases |acts|
  {
    hide Offering, Apply;
    if acts != [] {
      StepKeepsOffers(s, acts[0], v);
      RunKeepsOffers(Apply(s, acts[0]), acts[1..], v);
    }
  }

  /** In every run and for every value: as often as send calls were given it, it was stored or a
      caller still holds it. No value is lost, doubled or made up. */
  lemma EverySendStoresOnce(s: State, cap: int, acts: seq<Action>, v: int)
    requires Init(s, cap) && Runs(s, acts)
    ensures multiset(After(s, acts).sent)[v] + Offering(After(s, acts).threads, v) == Offered(acts, v)
  {
    RunKeepsOffers(s, acts, v);
  }
}
