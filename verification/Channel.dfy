/**
 Channels: a bounded blocking queue guarded by one lock and two condition variables.

 Every section that holds the lock is one atomic action; the wake-up that follows the
 unlock is a separate, later action, so other threads may run in between. Any number of
 senders, receivers and try-receivers take part.
 */
module Channels {
  import opened Tally
  import opened Rings

  /** The fields the lock protects. The capacity is the length of the buffer. */
  datatype Chan = Chan(buf: seq<int>, count: nat, head: nat, tail: nat)

  ghost predicate ValidChan(c: Chan)
  {
    && c.count <= |c.buf| && c.head < |c.buf|
    && c.tail == Pos(c.head, c.count, |c.buf|)
  }

  ghost function Contents(c: Chan): seq<int>
    requires ValidChan(c)
  {
    Slots(c.buf, c.head, c.count)
  }

  function Put(c: Chan, v: int): Chan
    requires c.tail < |c.buf|
  {
    Chan(c.buf[c.tail := v], c.count + 1, c.head, Pos(c.tail, 1, |c.buf|))
  }

  function Take(c: Chan): Chan
    requires c.head < |c.buf| && c.count > 0
  {
    Chan(c.buf, c.count - 1, Pos(c.head, 1, |c.buf|), c.tail)
  }

  lemma PutAppendsToContents(c: Chan, v: int)
    requires ValidChan(c) && c.count < |c.buf|
    ensures ValidChan(Put(c, v)) && Contents(Put(c, v)) == Contents(c) + [v]
  {
    PutAppends(c.buf, c.head, c.count, v);
  }

  lemma TakeRemovesOldest(c: Chan)
    requires ValidChan(c) && c.count > 0
    ensures ValidChan(Take(c)) && Contents(Take(c)) == Contents(c)[1..] && Contents(c)[0] == c.buf[c.head]
  {
    TakeDrops(c.buf, c.head, c.count);
  }

  /** The channel object itself. Each method is what one thread does while it holds the lock. */
  class Channel {
    const buf: array<int>
    const cap: nat
    var count: nat
    var head: nat
    var tail: nat

    ghost function View(): Chan
      reads this, buf
    {
      Chan(buf[..], count, head, tail)
    }

    ghost predicate Valid()
      reads this, buf
    {
      cap == buf.Length && ValidChan(View())
    }

    /** A capacity below one is raised to one. */
    constructor (capacity: int)
      ensures Valid() && fresh(buf) && Contents(View()) == []
      ensures cap == if capacity < 1 then 1 else capacity
    {
      var n := if capacity < 1 then 1 else capacity;
      buf := new int[n];
      cap := n;
      count, head, tail := 0, 0, 0;
    }

    /** One pass of the sender's loop: false means it must sleep. */
    method SendLocked(value: int) returns (done: bool)
      requires Valid()
      modifies this, buf
      ensures Valid() && done == (|Contents(old(View()))| < cap)
      ensures View() == if done then Put(old(View()), value) else old(View())
      ensures Contents(View()) == Contents(old(View())) + (if done then [value] else [])
    {
      if count == cap {
        return false;
      }
      ghost var before := View();
      PutAppendsToContents(before, value);
      Wraps(tail, 1, cap);
      buf[tail] := value;
      tail := (tail + 1) % cap;
      count := count + 1;
      assert View() == Put(before, value);
      done := true;
    }

    /** One pass of a receiver's loop, and the whole of a non-blocking receive. */
    method ReceiveLocked() returns (done: bool, value: int)
      requires Valid()
      modifies this
      ensures Valid() && done == (Contents(old(View())) != [])
      ensures View() == if done then Take(old(View())) else old(View())
      ensures done ==> Contents(old(View())) == [value] + Contents(View())
    {
      if count == 0 {
        return false, 0;
      }
      ghost var before := View();
      TakeRemovesOldest(before);
      Wraps(head, 1, cap);
      value := buf[head];
      head := (head + 1) % cap;
      count := count - 1;
      assert View() == Take(before);
      done := true;
    }
  }

  /** The tail index is the remainder the source computes it as. */
  lemma TailIsRemainder(c: Chan)
    requires ValidChan(c)
    ensures c.tail == (c.head + c.count) % |c.buf|
  {
    Wraps(c.head, c.count, |c.buf|);
  }

  // ---- the protocol ----

  /** Where a thread stands between two locked sections. */
  datatype Pc =
    | Idle
    | WantSend(v: int)          // called send, has not tested the channel yet
    | SendAsleep(v: int)
    | SendWoken(v: int)         // woken, has not tested the channel again
    | Sent                      // stored its value, still owes the not-empty signal
    | WantReceive
    | ReceiveAsleep
    | ReceiveWoken
    | WantTry
    | Took(v: int)              // removed `v`, still owes the not-full signal

  ghost predicate IsSendAsleep(p: Pc) { p.SendAsleep? }
  ghost predicate IsSendWoken(p: Pc) { p.SendWoken? }
  ghost predicate IsSent(p: Pc) { p.Sent? }
  ghost predicate IsReceiveAsleep(p: Pc) { p.ReceiveAsleep? }
  ghost predicate IsReceiveWoken(p: Pc) { p.ReceiveWoken? }
  ghost predicate IsTook(p: Pc) { p.Took? }

  /** `sent` and `taken` record every value stored and removed, in order. */
  datatype State = State(chan: Chan, threads: seq<Pc>, sent: seq<int>, taken: seq<int>)

  datatype Action =
    | Spawn                                     // one more thread joins
    | Call(i: nat, entry: Pc)                   // an idle thread enters an operation
    | Send(i: nat)                              // lock, test, store or sleep
    | Receive(i: nat)                           // lock, test, remove or sleep
    | TryReceive(i: nat)                        // lock, test, remove or give up
    | SignalNotEmpty(i: nat, j: nat)            // wake sleeping receiver `j`, if any sleeps
    | SignalNotFull(i: nat, j: nat)             // wake sleeping sender `j`, if any sleeps
    | Spurious(j: nat)                          // a sleeper wakes with no signal

  ghost predicate Sleepers(s: State, p: Pc -> bool)
  {
    Count(s.threads, p) > 0
  }

  ghost predicate Enabled(s: State, a: Action)
  {
    match a
    case Spawn => true
    case Call(i, e) => i < |s.threads| && s.threads[i].Idle? && (e.WantSend? || e.WantReceive? || e.WantTry?)
    case Send(i) => i < |s.threads| && (s.threads[i].WantSend? || s.threads[i].SendWoken?)
    case Receive(i) => i < |s.threads| && (s.threads[i].WantReceive? || s.threads[i].ReceiveWoken?)
    case TryReceive(i) => i < |s.threads| && s.threads[i].WantTry?
    case SignalNotEmpty(i, j) =>
      && i < |s.threads| && j < |s.threads| && s.threads[i].Sent?
      && (if Sleepers(s, IsReceiveAsleep) then s.threads[j].ReceiveAsleep? else j == i)
    case SignalNotFull(i, j) =>
      && i < |s.threads| && j < |s.threads| && s.threads[i].Took?
      && (if Sleepers(s, IsSendAsleep) then s.threads[j].SendAsleep? else j == i)
    case Spurious(j) => j < |s.threads| && (s.threads[j].SendAsleep? || s.threads[j].ReceiveAsleep?)
  }

  ghost function WakeUp(p: Pc): Pc
  {
    match p
    case SendAsleep(v) => SendWoken(v)
    case ReceiveAsleep => ReceiveWoken
    case _ => p
  }

  ghost function At(s: State, i: nat, p: Pc): State
    requires i < |s.threads|
  {
    s.(threads := s.threads[i := p])
  }

  ghost function TakeBy(s: State, i: nat): State
    requires i < |s.threads| && s.chan.head < |s.chan.buf| && s.chan.count > 0
  {
    var v := s.chan.buf[s.chan.head];
    State(Take(s.chan), s.threads[i := Took(v)], s.sent, s.taken + [v])
  }

  ghost function Apply(s: State, a: Action): State
    requires Enabled(s, a) && ValidChan(s.chan)
  {
    match a
    case Spawn => s.(threads := s.threads + [Idle])
    case Call(i, e) => At(s, i, e)
    case Send(i) =>
      var v := s.threads[i].v;
      if s.chan.count == |s.chan.buf| then At(s, i, SendAsleep(v))
      else
        State(Put(s.chan, v), s.threads[i := Sent], s.sent + [v], s.taken)
    case Receive(i) => if s.chan.count == 0 then At(s, i, ReceiveAsleep) else TakeBy(s, i)
    case TryReceive(i) => if s.chan.count == 0 then At(s, i, Idle) else TakeBy(s, i)
    case SignalNotEmpty(i, j) =>
      var t := At(s, i, Idle);
      if Sleepers(s, IsReceiveAsleep) then At(t, j, ReceiveWoken) else t
    case SignalNotFull(i, j) =>
      var t := At(s, i, Idle);
      if Sleepers(s, IsSendAsleep) then At(t, j, WakeUp(s.threads[j])) else t
    case Spurious(j) => At(s, j, WakeUp(s.threads[j]))
  }

  ghost predicate Init(s: State, cap: int)
  {
    && s.chan.buf != [] && |s.chan.buf| == (if cap < 1 then 1 else cap)
    && s.chan.count == s.chan.head == s.chan.tail == 0
    && s.threads == [] && s.sent == [] && s.taken == []
  }

  /** Everything a receiver may still be woken or served by, and the same for a sender. */
  ghost function ReceiverHelp(s: State): nat { Count(s.threads, IsSent) + Count(s.threads, IsReceiveWoken) }
  ghost function SenderHelp(s: State): nat { Count(s.threads, IsTook) + Count(s.threads, IsSendWoken) }

  /** No wake-up is lost: every item a sleeping receiver could take is matched by a signal still
      to be sent or by a woken receiver that has not tested again; mirrored for senders and space. */
  ghost predicate NoLostWakeUp(s: State)
  {
    && (Sleepers(s, IsReceiveAsleep) ==> s.chan.count <= ReceiverHelp(s))
    && (Sleepers(s, IsSendAsleep) ==> |s.chan.buf| - s.chan.count <= SenderHelp(s))
  }

  ghost predicate Inv(s: State)
  {
    && ValidChan(s.chan)
    && s.sent == s.taken + Contents(s.chan)
    && NoLostWakeUp(s)
  }

  /** How every count the invariant uses moves when thread `i` goes to `p`. */
  lemma Moves(s: seq<Pc>, i: nat, p: Pc)
    requires i < |s|
    ensures Count(s[i := p], IsSendAsleep) + Bit(s[i].SendAsleep?) == Count(s, IsSendAsleep) + Bit(p.SendAsleep?)
    ensures Count(s[i := p], IsSendWoken) + Bit(s[i].SendWoken?) == Count(s, IsSendWoken) + Bit(p.SendWoken?)
    ensures Count(s[i := p], IsSent) + Bit(s[i].Sent?) == Count(s, IsSent) + Bit(p.Sent?)
    ensures Count(s[i := p], IsReceiveAsleep) + Bit(s[i].ReceiveAsleep?) == Count(s, IsReceiveAsleep) + Bit(p.ReceiveAsleep?)
    ensures Count(s[i := p], IsReceiveWoken) + Bit(s[i].ReceiveWoken?) == Count(s, IsReceiveWoken) + Bit(p.ReceiveWoken?)
    ensures Count(s[i := p], IsTook) + Bit(s[i].Took?) == Count(s, IsTook) + Bit(p.Took?)
  {
    CountUpdate(s, i, p, IsSendAsleep);
    CountUpdate(s, i, p, IsSendWoken);
    CountUpdate(s, i, p, IsSent);
    CountUpdate(s, i, p, IsReceiveAsleep);
    CountUpdate(s, i, p, IsReceiveWoken);
    CountUpdate(s, i, p, IsTook);
  }

  ghost function Bit(b: bool): nat { if b then 1 else 0 }

  /** Every locked section keeps the channel a queue: it stores at the back, removes from the
      front, or leaves it alone, and the recorded histories say which. */
  lemma StepRefinesQueue(s: State, a: Action)
    requires Inv(s) && Enabled(s, a)
    ensures
      var t := Apply(s, a);
      && ValidChan(t.chan) && |t.chan.buf| == |s.chan.buf|
      && t.sent == t.taken + Contents(t.chan)
      && (|| (t.chan == s.chan && t.sent == s.sent && t.taken == s.taken)
          || (|Contents(s.chan)| < |s.chan.buf| && a.Send?
              && Contents(t.chan) == Contents(s.chan) + [s.threads[a.i].v] && t.taken == s.taken)
          || (Contents(s.chan) != [] && (a.Receive? || a.TryReceive?)
              && t.threads[a.i] == Took(Contents(s.chan)[0])
              && Contents(t.chan) == Contents(s.chan)[1..] && t.sent == s.sent))
  {
    if a.Send? && s.chan.count < |s.chan.buf| {
      PutAppendsToContents(s.chan, s.threads[a.i].v);
    } else if (a.Receive? || a.TryReceive?) && s.chan.count > 0 {
      TakeRemovesOldest(s.chan);
    }
  }

  lemma StepKeepsWakeUps(s: State, a: Action)
    requires Inv(s) && Enabled(s, a)
    ensures NoLostWakeUp(Apply(s, a))
  {
    match a
    case Spawn => SpawnKeepsWakeUps(s);
    case SignalNotEmpty(i, j) => SignalKeepsWakeUps(s, a, i, j);
    case SignalNotFull(i, j) => SignalKeepsWakeUps(s, a, i, j);
    case Spurious(j) => LocalStepKeepsWakeUps(s, a, j);
    case Call(i, _) => LocalStepKeepsWakeUps(s, a, i);
    case Send(i) => LocalStepKeepsWakeUps(s, a, i);
    case Receive(i) => LocalStepKeepsWakeUps(s, a, i);
    case TryReceive(i) => LocalStepKeepsWakeUps(s, a, i);
  }

  lemma SpawnKeepsWakeUps(s: State)
    requires Inv(s)
    ensures NoLostWakeUp(Apply(s, Spawn))
  {
    CountAppend(s.threads, Idle, IsSendAsleep);
    CountAppend(s.threads, Idle, IsSendWoken);
    CountAppend(s.threads, Idle, IsSent);
    CountAppend(s.threads, Idle, IsReceiveAsleep);
    CountAppend(s.threads, Idle, IsReceiveWoken);
    CountAppend(s.threads, Idle, IsTook);
  }

  /** A signal spends itself on a sleeper, or finds none. */
  lemma SignalKeepsWakeUps(s: State, a: Action, i: nat, j: nat)
    requires Inv(s) && Enabled(s, a) && (a == SignalNotEmpty(i, j) || a == SignalNotFull(i, j))
    ensures NoLostWakeUp(Apply(s, a))
  {
    Moves(s.threads, i, Idle);
    if j != i {
      var mid := s.threads[i := Idle];
      assert mid[j] == s.threads[j];
      Moves(mid, j, WakeUp(mid[j]));
    }
  }

  lemma LocalStepKeepsWakeUps(s: State, a: Action, i: nat)
    requires Inv(s) && Enabled(s, a) && i < |s.threads|
    requires a.Call? || a.Send? || a.Receive? || a.TryReceive? || a.Spurious?
    requires i == if a.Spurious? then a.j else a.i
    ensures NoLostWakeUp(Apply(s, a))
  {
    var p := Apply(s, a).threads[i];
    assert Apply(s, a).threads == s.threads[i := p];
    Moves(s.threads, i, p);
  }

  // ---- whole runs ----

  ghost predicate Runs(s: State, acts: seq<Action>)
    requires ValidChan(s.chan)
    decreases |acts|
  {
    acts != [] ==> Enabled(s, acts[0]) && ValidChan(Apply(s, acts[0]).chan) && Runs(Apply(s, acts[0]), acts[1..])
  }

  ghost function After(s: State, acts: seq<Action>): State
    requires ValidChan(s.chan) && Runs(s, acts)
    decreases |acts|
  {
    if acts == [] then s else After(Apply(s, acts[0]), acts[1..])
  }

  lemma {:induction false} RunKeepsInvariant(s: State, acts: seq<Action>)
    requires Inv(s) && Runs(s, acts)
    ensures Inv(After(s, acts)) && |After(s, acts).chan.buf| == |s.chan.buf|
    decreases |acts|
  {
    if acts != [] {
      StepRefinesQueue(s, acts[0]);
      StepKeepsWakeUps(s, acts[0]);
      RunKeepsInvariant(Apply(s, acts[0]), acts[1..]);
    }
  }

  /** In every interleaving: what was taken is a prefix of what was sent, the rest is in the
      channel in order and fits it, and a thread never sleeps while nothing is left to wake it. */
  lemma ChannelIsSafe(s: State, cap: int, acts: seq<Action>)
    requires Init(s, cap) && Runs(s, acts)
    ensures
      var t := After(s, acts);
      && ValidChan(t.chan) && t.taken <= t.sent && t.sent[|t.taken|..] == Contents(t.chan)
      && t.chan.count <= |t.chan.buf| && |t.chan.buf| == (if cap < 1 then 1 else cap)
      && t.chan.tail == (t.chan.head + t.chan.count) % |t.chan.buf|
      && ((exists j :: 0 <= j < |t.threads| && IsReceiveAsleep(t.threads[j])) && Contents(t.chan) != [] ==>
            exists i :: 0 <= i < |t.threads| && (IsSent(t.threads[i]) || IsReceiveWoken(t.threads[i])))
      && ((exists j :: 0 <= j < |t.threads| && IsSendAsleep(t.threads[j])) && t.chan.count < |t.chan.buf| ==>
            exists i :: 0 <= i < |t.threads| && (IsTook(t.threads[i]) || IsSendWoken(t.threads[i])))
  {
    InitHoldsInvariant(s, cap);
    RunKeepsInvariant(s, acts);
    var t := After(s, acts);
    TailIsRemainder(t.chan);
    Helpers(t);
  }

  lemma InitHoldsInvariant(s: State, cap: int)
    requires Init(s, cap)
    ensures Inv(s)
  {
  }

  lemma Helpers(t: State)
    ensures Sleepers(t, IsReceiveAsleep) <==> exists j :: 0 <= j < |t.threads| && IsReceiveAsleep(t.threads[j])
    ensures Sleepers(t, IsSendAsleep) <==> exists j :: 0 <= j < |t.threads| && IsSendAsleep(t.threads[j])
    ensures ReceiverHelp(t) > 0 ==> exists i :: 0 <= i < |t.threads| && (IsSent(t.threads[i]) || IsReceiveWoken(t.threads[i]))
    ensures SenderHelp(t) > 0 ==> exists i :: 0 <= i < |t.threads| && (IsTook(t.threads[i]) || IsSendWoken(t.threads[i]))
  {
    CountPositive(t.threads, IsReceiveAsleep);
    CountPositive(t.threads, IsSendAsleep);
    CountPositive(t.threads, IsSent);
    CountPositive(t.threads, IsReceiveWoken);
    CountPositive(t.threads, IsTook);
    CountPositive(t.threads, IsSendWoken);
  }

  /** A sender and a receiver can never both be left sleeping with nobody to wake either. */
  lemma NeverBothStranded(s: State, cap: int, acts: seq<Action>)
    requires Init(s, cap) && Runs(s, acts)
    ensures
      var t := After(s, acts);
      ReceiverHelp(t) == 0 && SenderHelp(t) == 0 ==>
        !(Sleepers(t, IsReceiveAsleep) && Sleepers(t, IsSendAsleep))
  {
    InitHoldsInvariant(s, cap);
    RunKeepsInvariant(s, acts);
  }
}
