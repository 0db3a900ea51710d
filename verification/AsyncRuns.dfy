/** Every step of the worker pool keeps the invariant, and what every run therefore promises. */
module AsyncRuns {
  import opened Async
  import opened Tally

  lemma ReadyStaysValid(s: State, a: Action)
    requires Shaped(s) && Enabled(s, a)
    ensures ValidReady(Apply(s, a).ready) && |Apply(s, a).ready.buf| == |s.ready.buf|
  {
    hide InRange, WakeAllDone, Register, Store, Finish;
  }

  lemma GoKeepsShape(s: State, a: Action)
    requires Shaped(s) && Enabled(s, a)
    ensures Shaped(Apply(s, a)) && |Apply(s, a).ready.buf| == |s.ready.buf|
    ensures |s.tasks| <= |Apply(s, a).tasks| && |s.threads| <= |Apply(s, a).threads|
  {
    hide ValidReady, Push, Pop, NewTask, Register, Store, Finish;
    ReadyStaysValid(s, a);
  }

  lemma KeepsFifo(s: State, a: Action)
    requires Inv(s) && Enabled(s, a)
    ensures Shaped(Apply(s, a)) && QueueIsFifo(Apply(s, a))
  {
    hide NothingLost, TasksConsistent, ThreadsConsistent, PushedOnlyWhenDone, NoWorkerStranded, NoWaiterStranded;
    hide InRange, WakeAllDone, Register, Store, Finish, Push, Pop, Entries;
    GoKeepsShape(s, a);
    match a
    case ScheduleNext(i) => PushAppendsIffRoom(s.ready, s.threads[i].pc.rest[0]);
    case CallSchedule(i, code, st) => PushAppendsIffRoom(s.ready, Work(code, st, |s.submitted|, Direct));
    case WorkerTest(i) => if s.ready.head != s.ready.tail { PopTakesOldest(s.ready); }
    case _ =>
  }

  lemma StoreKeepsTask(t: nat, task: Task, o: Outcome)
    requires TaskOk(t, task)
    ensures TaskOk(t, Store(task, o))
  {
    assert (task.stores + [o])[..|task.stores|] == task.stores;
  }

  /** Only these four things ever happen to a task. */
  lemma TaskChanges(s: State, a: Action, t: nat)
    requires Shaped(s) && Enabled(s, a) && t < |Apply(s, a).tasks|
    ensures
      var task := Apply(s, a).tasks[t];
      || (t < |s.tasks| && task == s.tasks[t])
      || (t == |s.tasks| && a.Create? && task == NewTask)
      || (t < |s.tasks| && a.CallComplete? && a.task == t && task == Store(s.tasks[t], a.outcome))
      || (t < |s.tasks| && a.AwaitLock? && s.threads[a.i].pc.t == t && !s.tasks[t].done
          && exists w: Work :: w.origin == Awaited(t) && task == Register(s.tasks[t], w))
      || (t < |s.tasks| && a.WakeLock? && s.threads[a.i].pc.t == t && task == Finish(s.tasks[t]))
  {
    if a.AwaitLock? && s.threads[a.i].pc.t == t && !s.tasks[t].done {
      var p := s.threads[a.i].pc;
      var w := Work(p.code, p.state, |s.submitted|, Awaited(p.t));
      assert w.origin == Awaited(t) && Apply(s, a).tasks[t] == Register(s.tasks[t], w);
    }
  }

  lemma KeepsTasks(s: State, a: Action)
    requires Inv(s) && Enabled(s, a)
    ensures TasksConsistent(Apply(s, a))
  {
    forall t | 0 <= t < |Apply(s, a).tasks|
      ensures TaskOk(t, Apply(s, a).tasks[t])
    {
      TaskChanges(s, a, t);
      if t < |s.tasks| {
        assert TaskOk(t, s.tasks[t]);
        if a.CallComplete? {
          StoreKeepsTask(t, s.tasks[t], a.outcome);
        } else if a.WakeLock? {
          assert ThreadOk(s.tasks, s.threads[a.i].pc);
        }
      }
    }
  }

  lemma DoneIsStable(s: State, a: Action, t: nat)
    requires Shaped(s) && Enabled(s, a) && t < |s.tasks|
    ensures s.tasks[t].done ==> Apply(s, a).tasks[t].done
    ensures s.tasks[t].stores <= Apply(s, a).tasks[t].stores
    ensures forall v :: StoredValue(s.tasks[t].stores, v) ==> StoredValue(Apply(s, a).tasks[t].stores, v)
  {
    if a.CallComplete? && a.task == t {
      forall v | StoredValue(s.tasks[t].stores, v)
        ensures StoredValue(Apply(s, a).tasks[t].stores, v)
      {
        StoreKeepsStoredValue(s.tasks[t].stores, a.outcome, v);
      }
    }
  }

  lemma ThreadOkIsStable(s: State, a: Action, pc: Pc)
    requires Inv(s) && Enabled(s, a) && ThreadOk(s.tasks, pc)
    ensures ThreadOk(Apply(s, a).tasks, pc)
  {
    hide Apply, ValidReady, QueueIsFifo, NothingLost, PushedOnlyWhenDone, NoWorkerStranded, NoWaiterStranded, TasksConsistent;
    if !pc.Running? && !pc.OwesSignal? && !pc.AtTop? && !pc.QueueAsleep? && !pc.QueueWoken? {
      DoneIsStable(s, a, pc.t);
      GoKeepsShape(s, a);
    }
  }

  /** A thread that reads a result reads a stored one. */
  lemma ReaderIsOk(s: State, i: nat)
    requires Inv(s) && Enabled(s, ReadResult(i))
    ensures ThreadOk(s.tasks, WaitReturned(s.threads[i].pc.t, s.tasks[s.threads[i].pc.t].result))
  {
    hide Shaped, QueueIsFifo, NothingLost, PushedOnlyWhenDone, NoWorkerStranded, NoWaiterStranded;
    assert ThreadOk(s.tasks, s.threads[i].pc);
    var task := s.tasks[s.threads[i].pc.t];
    assert task.stores[..|task.stores|] == task.stores;
    assert StoredValue(task.stores, task.result);
  }

  /** A thread that completes a task takes over its own waiters. */
  lemma WakerIsOk(s: State, i: nat)
    requires Inv(s) && Enabled(s, WakeLock(i))
    ensures
      var t := s.threads[i].pc.t;
      ThreadOk(s.tasks[t := Finish(s.tasks[t])], Waking(t, s.tasks[t].waiters))
  {
    hide Shaped, QueueIsFifo, NothingLost, PushedOnlyWhenDone, NoWorkerStranded, NoWaiterStranded;
    assert ThreadOk(s.tasks, s.threads[i].pc);
    assert TaskOk(s.threads[i].pc.t, s.tasks[s.threads[i].pc.t]);
  }

  /** Where the thread that acts stands afterwards. */
  lemma ActorIsOk(s: State, a: Action, i: nat)
    requires Inv(s) && Enabled(s, a) && At(s, i) && Apply(s, a).threads[i] != s.threads[i]
    ensures ThreadOk(Apply(s, a).tasks, Apply(s, a).threads[i].pc)
  {
    hide ValidReady, InRange, Push, Pop, Register, TasksConsistent, StoredValue;
    hide QueueIsFifo, NothingLost, PushedOnlyWhenDone, NoWorkerStranded, NoWaiterStranded;
    assert ThreadOk(s.tasks, s.threads[i].pc);
    if a.ReadResult? {
      ReaderIsOk(s, a.i);
    } else if a.WakeLock? {
      WakerIsOk(s, a.i);
    }
  }

  lemma KeepsThreads(s: State, a: Action)
    requires Inv(s) && Enabled(s, a)
    ensures ThreadsConsistent(Apply(s, a))
  {
    var r := Apply(s, a);
    forall i | 0 <= i < |r.threads|
      ensures ThreadOk(r.tasks, r.threads[i].pc)
    {
      if i < |s.threads| {
        if r.threads[i] == s.threads[i] {
          ThreadOkIsStable(s, a, s.threads[i].pc);
        } else {
          ActorIsOk(s, a, i);
        }
      }
    }
  }

  lemma KeepsPushed(s: State, a: Action)
    requires Inv(s) && Enabled(s, a)
    ensures PushedOnlyWhenDone(Apply(s, a))
  {
    hide NothingLost, TasksConsistent, QueueIsFifo, NoWorkerStranded, NoWaiterStranded, ValidReady, InRange, WakeAllDone, Push, Pop;
    forall t: nat | t < |s.tasks|
      ensures s.tasks[t].done ==> Apply(s, a).tasks[t].done
    {
      DoneIsStable(s, a, t);
    }
    GoKeepsShape(s, a);
    if a.ScheduleNext? {
      assert s.threads[a.i].pc.rest[0] in s.threads[a.i].pc.rest;
    }
  }

  lemma WakerRemains(s: State, a: Action, j: nat, t: nat)
    requires Shaped(s) && Enabled(s, a) && j < |s.threads| && IsWakerOf(s.threads[j], t) && !a.WakeAll?
    ensures j < |Apply(s, a).threads| && IsWakerOf(Apply(s, a).threads[j], t)
  {
  }

  lemma OnlyWakeLockFinishes(s: State, a: Action, t: nat)
    requires Shaped(s) && Enabled(s, a) && t < |s.tasks| && !s.tasks[t].done && Apply(s, a).tasks[t].done
    ensures a.WakeLock? && IsWakerOf(Apply(s, a).threads[a.i], t)
  {
    TaskChanges(s, a, t);
  }

  /** A thread found asleep after a step was asleep before it, or has just seen an unfinished task. */
  lemma SleeperWas(s: State, a: Action, i: nat)
    requires Shaped(s) && Enabled(s, a) && i < |Apply(s, a).threads| && Apply(s, a).threads[i].pc.DoneAsleep?
    ensures !a.WakeAll? && i < |s.threads|
    ensures
      var t := Apply(s, a).threads[i].pc.t;
      || s.threads[i].pc == DoneAsleep(t)
      || (t < |s.tasks| && !s.tasks[t].done && Apply(s, a).tasks == s.tasks)
  {
  }

  lemma KeepsWaiters(s: State, a: Action)
    requires Inv(s) && Enabled(s, a)
    ensures Shaped(Apply(s, a)) && NoWaiterStranded(Apply(s, a))
  {
    GoKeepsShape(s, a);
    KeepsThreads(s, a);
    var r := Apply(s, a);
    forall i | 0 <= i < |r.threads| && r.threads[i].pc.DoneAsleep? && r.tasks[r.threads[i].pc.t].done
      ensures exists j :: 0 <= j < |r.threads| && IsWakerOf(r.threads[j], r.threads[i].pc.t)
    {
      var t := r.threads[i].pc.t;
      SleeperWas(s, a, i);
      assert ThreadOk(s.tasks, s.threads[i].pc);
      if s.tasks[t].done {
        var j :| 0 <= j < |s.threads| && IsWakerOf(s.threads[j], t);
        WakerRemains(s, a, j, t);
      } else {
        OnlyWakeLockFinishes(s, a, t);
      }
    }
  }

  // ---- counting ----

  ghost function Bit(b: bool): nat { if b then 1 else 0 }

  lemma Moves(xs: seq<Thread>, i: nat, x: Thread)
    requires i < |xs|
    ensures Count(xs[i := x], IsQueueAsleep) + Bit(xs[i].pc.QueueAsleep?) == Count(xs, IsQueueAsleep) + Bit(x.pc.QueueAsleep?)
    ensures Count(xs[i := x], IsQueueWoken) + Bit(xs[i].pc.QueueWoken?) == Count(xs, IsQueueWoken) + Bit(x.pc.QueueWoken?)
    ensures Count(xs[i := x], OwesQueueSignal) + Bit(OwesQueueSignal(xs[i])) == Count(xs, OwesQueueSignal) + Bit(OwesQueueSignal(x))
    ensures Union(xs[i := x], Held) + Held(xs[i]) == Union(xs, Held) + Held(x)
    ensures Held(x) == Held(xs[i]) ==> Union(xs[i := x], Held) == Union(xs, Held)
  {
    CountUpdate(xs, i, x, IsQueueAsleep);
    CountUpdate(xs, i, x, IsQueueWoken);
    CountUpdate(xs, i, x, OwesQueueSignal);
    UnionUpdate(xs, i, x, Held);
    if Held(x) == Held(xs[i]) {
      UnionKept(xs, i, x, Held);
    }
  }

  lemma WakingAllMovesNothing(xs: seq<Thread>)
    ensures Count(WakeAllDone(xs), IsQueueAsleep) == Count(xs, IsQueueAsleep)
    ensures Count(WakeAllDone(xs), IsQueueWoken) == Count(xs, IsQueueWoken)
    ensures Count(WakeAllDone(xs), OwesQueueSignal) == Count(xs, OwesQueueSignal)
    ensures Union(WakeAllDone(xs), Held) == Union(xs, Held)
  {
    CountSame(WakeAllDone(xs), xs, IsQueueAsleep);
    CountSame(WakeAllDone(xs), xs, IsQueueWoken);
    CountSame(WakeAllDone(xs), xs, OwesQueueSignal);
    UnionSame(WakeAllDone(xs), xs, Held);
  }

  /** The thread whose place in the protocol the action changes. */
  ghost function Actor(a: Action): nat
    requires !a.Spawn? && !a.Create?
  {
    match a
    case Spurious(j) => j
    case CallAwait(i, _, _, _) => i
    case AwaitLock(i) => i
    case CallComplete(i, _, _) => i
    case WakeLock(i) => i
    case ScheduleNext(i) => i
    case WakeAll(i) => i
    case CallSchedule(i, _, _) => i
    case Signal(i, _) => i
    case WorkerTest(i) => i
    case WorkerLoop(i) => i
    case CallWait(i, _) => i
    case WaitTest(i) => i
    case ReadResult(i) => i
    case Resume(i) => i
  }

  /** Apart from a new thread, a wake-all and a signal's target, only the actor moves. */
  lemma OnlyActorMoves(s: State, a: Action)
    requires Shaped(s) && Enabled(s, a)
    ensures a.Create? ==> Apply(s, a).threads == s.threads
    ensures !a.Spawn? && !a.Create? && !a.WakeAll? && !a.Signal? ==>
      Actor(a) < |s.threads| && Apply(s, a).threads == s.threads[Actor(a) := Apply(s, a).threads[Actor(a)]]
  {
  }

  /** What an owed signal leaves behind. */
  ghost function Paid(x: Thread): Thread
    requires OwesQueueSignal(x)
  {
    Thread(x.worker, if x.pc.OwesSignal? then Running else Waking(x.pc.t, x.pc.rest))
  }

  /** Paying a signal to a sleeping worker moves it from owed to woken. */
  lemma SignalMoves(xs: seq<Thread>, i: nat, j: nat)
    requires i < |xs| && j < |xs| && OwesQueueSignal(xs[i]) && xs[j].pc.QueueAsleep?
    ensures
      var ys := xs[i := Paid(xs[i])][j := Thread(xs[j].worker, QueueWoken)];
      && Count(ys, OwesQueueSignal) + 1 == Count(xs, OwesQueueSignal)
      && Count(ys, IsQueueWoken) == Count(xs, IsQueueWoken) + 1
      && Union(ys, Held) == Union(xs, Held)
  {
    Moves(xs, i, Paid(xs[i]));
    Moves(xs[i := Paid(xs[i])], j, Thread(xs[j].worker, QueueWoken));
  }

  lemma SignalKeepsWorkers(s: State, i: nat, j: nat)
    requires Shaped(s) && NoWorkerStranded(s) && Enabled(s, Signal(i, j))
    ensures Shaped(Apply(s, Signal(i, j))) && NoWorkerStranded(Apply(s, Signal(i, j)))
    ensures Union(Apply(s, Signal(i, j)).threads, Held) == Union(s.threads, Held)
  {
    GoKeepsShape(s, Signal(i, j));
    if Count(s.threads, IsQueueAsleep) > 0 {
      SignalMoves(s.threads, i, j);
    } else {
      Moves(s.threads, i, Paid(s.threads[i]));
    }
  }

  lemma WakeAllMoves(xs: seq<Thread>, i: nat)
    requires i < |xs| && xs[i].pc.Waking? && xs[i].pc.rest == []
    ensures
      var ys := WakeAllDone(xs[i := Thread(xs[i].worker, Running)]);
      && Count(ys, IsQueueAsleep) == Count(xs, IsQueueAsleep)
      && Count(ys, OwesQueueSignal) == Count(xs, OwesQueueSignal)
      && Count(ys, IsQueueWoken) == Count(xs, IsQueueWoken)
      && Union(ys, Held) == Union(xs, Held)
  {
    Moves(xs, i, Thread(xs[i].worker, Running));
    WakingAllMovesNothing(xs[i := Thread(xs[i].worker, Running)]);
  }

  lemma WakeAllKeepsWorkers(s: State, i: nat)
    requires Shaped(s) && NoWorkerStranded(s) && Enabled(s, WakeAll(i))
    ensures Shaped(Apply(s, WakeAll(i))) && NoWorkerStranded(Apply(s, WakeAll(i)))
    ensures Union(Apply(s, WakeAll(i)).threads, Held) == Union(s.threads, Held)
  {
    GoKeepsShape(s, WakeAll(i));
    WakeAllMoves(s.threads, i);
  }

  lemma SpawnKeepsWorkers(s: State, worker: bool)
    requires Shaped(s) && NoWorkerStranded(s)
    ensures Shaped(Apply(s, Spawn(worker))) && NoWorkerStranded(Apply(s, Spawn(worker)))
    ensures Union(Apply(s, Spawn(worker)).threads, Held) == Union(s.threads, Held)
  {
    var x := Thread(worker, if worker then AtTop else Running);
    GoKeepsShape(s, Spawn(worker));
    CountAppend(s.threads, x, IsQueueAsleep);
    CountAppend(s.threads, x, IsQueueWoken);
    CountAppend(s.threads, x, OwesQueueSignal);
    UnionAppend(s.threads, x, Held);
  }

  /** What the actor's own entry does to the counts, for the steps that move nobody else. */
  lemma ActorBits(s: State, a: Action)
    requires Shaped(s) && Enabled(s, a) && !a.Spawn? && !a.Create? && !a.WakeAll? && !a.Signal?
    ensures At(s, Actor(a)) && At(Apply(s, a), Actor(a))
    ensures
      var x, y := s.threads[Actor(a)], Apply(s, a).threads[Actor(a)];
      && Bit(OwesQueueSignal(y)) == Bit(OwesQueueSignal(x)) + Bit(a.ScheduleNext? || a.CallSchedule?)
      && (y.pc.QueueAsleep? <==> a.WorkerTest? && s.ready.head == s.ready.tail)
      && (x.pc.QueueAsleep? ==> a.Spurious? && y.pc.QueueWoken?)
      && (x.pc.QueueWoken? ==> a.WorkerTest?)
      && (a.WakeLock? || a.ScheduleNext? || Held(x) == Held(y))
  {
  }

  lemma OtherStepKeepsWorkers(s: State, a: Action)
    requires Shaped(s) && NoWorkerStranded(s) && Enabled(s, a)
    requires !a.Spawn? && !a.Create? && !a.WakeAll? && !a.Signal?
    ensures Shaped(Apply(s, a)) && NoWorkerStranded(Apply(s, a))
  {
    GoKeepsShape(s, a);
    OnlyActorMoves(s, a);
    ActorBits(s, a);
    QueueMoves(s, a);
    var y := Apply(s, a).threads[Actor(a)];
    var p, p' := Pending(s.ready), Pending(Apply(s, a).ready);
    Moves(s.threads, Actor(a), y);
    if y.pc.QueueAsleep? {
      assert p' == 0;
    } else if p' > p {
      assert !a.WorkerTest?;
    }
  }

  lemma KeepsWorkers(s: State, a: Action)
    requires Shaped(s) && NoWorkerStranded(s) && Enabled(s, a)
    ensures Shaped(Apply(s, a)) && NoWorkerStranded(Apply(s, a))
  {
    match a
    case Signal(i, j) => SignalKeepsWorkers(s, i, j);
    case WakeAll(i) => WakeAllKeepsWorkers(s, i);
    case Spawn(worker) => SpawnKeepsWorkers(s, worker);
    case Create => GoKeepsShape(s, a);
    case _ => OtherStepKeepsWorkers(s, a);
  }

  /** The number of queued entries grows only together with an owed signal. */
  lemma QueueMoves(s: State, a: Action)
    requires Shaped(s) && Enabled(s, a)
    ensures ValidReady(Apply(s, a).ready)
    ensures Pending(Apply(s, a).ready) == Pending(s.ready)
      + Bit(a.ScheduleNext? || a.CallSchedule?) - Bit(a.WorkerTest? && s.ready.head != s.ready.tail)
  {
  }

  // ---- nothing lost ----

  /** How the waiting continuations change when task `t` becomes `task`. */
  lemma TaskMoves(tasks: seq<Task>, t: nat, task: Task)
    requires t < |tasks|
    ensures Union(tasks[t := task], Suspended) + multiset(tasks[t].waiters) == Union(tasks, Suspended) + multiset(task.waiters)
  {
    UnionUpdate(tasks, t, task, Suspended);
  }

  lemma RegisterMoves(tasks: seq<Task>, t: nat, w: Work)
    requires t < |tasks| && !tasks[t].done
    ensures Union(tasks[t := Register(tasks[t], w)], Suspended) == Union(tasks, Suspended) + multiset{w}
  {
    TaskMoves(tasks, t, Register(tasks[t], w));
    assert multiset([w] + tasks[t].waiters) == multiset{w} + multiset(tasks[t].waiters);
    Cancel(Union(tasks[t := Register(tasks[t], w)], Suspended), Union(tasks, Suspended) + multiset{w}, multiset(tasks[t].waiters));
  }

  lemma Cancel(a: multiset<Work>, b: multiset<Work>, c: multiset<Work>)
    requires a + c == b + c
    ensures a == b
  {
    assert a == (a + c) - c;
    assert b == (b + c) - c;
  }

  lemma DetachMoves(tasks: seq<Task>, t: nat, xs: seq<Thread>, i: nat)
    requires t < |tasks| && i < |xs| && xs[i].pc.Stored?
    ensures
      var ts := tasks[t := Finish(tasks[t])];
      var ys := xs[i := Thread(xs[i].worker, Waking(t, tasks[t].waiters))];
      Union(ts, Suspended) + Union(ys, Held) == Union(tasks, Suspended) + Union(xs, Held)
  {
    var x := Thread(xs[i].worker, Waking(t, tasks[t].waiters));
    TaskMoves(tasks, t, Finish(tasks[t]));
    Moves(xs, i, x);
    var n, u := multiset(tasks[t].waiters), Union(tasks[t := Finish(tasks[t])], Suspended);
    assert Union(xs[i := x], Held) == Union(xs, Held) + n;
    assert u + n == Union(tasks, Suspended);
    assert u + (Union(xs, Held) + n) == (u + n) + Union(xs, Held);
  }

  lemma HandOutMoves(xs: seq<Thread>, i: nat)
    requires i < |xs| && xs[i].pc.Waking? && xs[i].pc.rest != []
    ensures
      var p := xs[i].pc;
      Union(xs[i := Thread(xs[i].worker, WakingSignal(p.t, p.rest[1..]))], Held) + multiset{p.rest[0]} == Union(xs, Held)
  {
    hide Union;
    var p := xs[i].pc;
    var x := Thread(xs[i].worker, WakingSignal(p.t, p.rest[1..]));
    Moves(xs, i, x);
    assert p.rest == [p.rest[0]] + p.rest[1..];
    assert Held(xs[i]) == multiset{p.rest[0]} + multiset(p.rest[1..]);
    Cancel(Union(xs[i := x], Held) + multiset{p.rest[0]}, Union(xs, Held), multiset(p.rest[1..]));
  }

  lemma AwaitingHoldsNothing(x: Thread, y: Thread)
    requires x.pc.Awaiting? && y.pc.Returned?
    ensures Held(x) == Held(y)
  {
  }

  lemma AwaitLosesNothing(s: State, i: nat)
    requires Shaped(s) && NothingLost(s) && Enabled(s, AwaitLock(i))
    ensures NothingLost(Apply(s, AwaitLock(i)))
  {
    hide ValidReady, Push, Pop, WakeAllDone, Union, Held, Suspended, Register;
    var p := s.threads[i].pc;
    var r := Apply(s, AwaitLock(i));
    AwaitingHoldsNothing(s.threads[i], r.threads[i]);
    Moves(s.threads, i, r.threads[i]);
    assert Union(r.threads, Held) == Union(s.threads, Held);
    if !s.tasks[p.t].done {
      var w := Work(p.code, p.state, |s.submitted|, Awaited(p.t));
      RegisterMoves(s.tasks, p.t, w);
      assert multiset(r.submitted) == multiset(s.submitted) + multiset{w};
    }
  }

  lemma ScheduleLosesNothing(s: State, i: nat)
    requires Shaped(s) && NothingLost(s) && Enabled(s, ScheduleNext(i))
    ensures NothingLost(Apply(s, ScheduleNext(i)))
  {
    hide ValidReady, InRange, Push, Pop, Union, Held, Suspended;
    HandOutMoves(s.threads, i);
  }

  /** Steps that move nothing a continuation is kept in. */
  lemma OtherStepLosesNothing(s: State, a: Action)
    requires Shaped(s) && NothingLost(s) && Enabled(s, a)
    requires a.CallAwait? || a.WorkerTest? || a.WorkerLoop? || a.CallWait? || a.WaitTest? || a.ReadResult? || a.Resume? || a.Spurious? || a.CallSchedule?
    ensures NothingLost(Apply(s, a))
  {
    hide Apply, Shaped, Enabled, Held, Suspended, Union;
    OnlyActorMoves(s, a);
    ActorBits(s, a);
    UnionKept(s.threads, Actor(a), Apply(s, a).threads[Actor(a)], Held);
    SubmittedMoves(s, a);
    TasksUntouched(s, a);
    if a.CallSchedule? {
      var w := Work(a.code, a.state, |s.submitted|, Direct);
      assert multiset(s.submitted + [w]) == multiset(s.submitted) + multiset{w};
      assert multiset(s.pushed + [w]) == multiset(s.pushed) + multiset{w};
    }
  }

  lemma TasksUntouched(s: State, a: Action)
    requires Shaped(s) && Enabled(s, a) && !a.Create? && !a.AwaitLock? && !a.CallComplete? && !a.WakeLock?
    ensures Apply(s, a).tasks == s.tasks
  {
    hide ValidReady, InRange, Push, Pop, WakeAllDone;
  }

  lemma SubmittedMoves(s: State, a: Action)
    requires Shaped(s) && Enabled(s, a) && !a.AwaitLock? && !a.ScheduleNext?
    ensures
      var r := Apply(s, a);
      if a.CallSchedule? then
        var w := Work(a.code, a.state, |s.submitted|, Direct);
        r.submitted == s.submitted + [w] && r.pushed == s.pushed + [w]
      else r.submitted == s.submitted && r.pushed == s.pushed
  {
  }

  lemma StoreLosesNothing(s: State, i: nat, t: nat, o: Outcome)
    requires Shaped(s) && NothingLost(s) && Enabled(s, CallComplete(i, t, o))
    ensures NothingLost(Apply(s, CallComplete(i, t, o)))
  {
    Moves(s.threads, i, Thread(s.threads[i].worker, Stored(t)));
    UnionKept(s.tasks, t, Store(s.tasks[t], o), Suspended);
  }

  lemma KeepsNothingLost(s: State, a: Action)
    requires Shaped(s) && NothingLost(s) && NoWorkerStranded(s) && Enabled(s, a)
    ensures NothingLost(Apply(s, a))
  {
    match a
    case AwaitLock(i) => AwaitLosesNothing(s, i);
    case WakeLock(i) => DetachMoves(s.tasks, s.threads[i].pc.t, s.threads, i);
    case ScheduleNext(i) => ScheduleLosesNothing(s, i);
    case Signal(i, j) => SignalKeepsWorkers(s, i, j);
    case WakeAll(i) => WakeAllKeepsWorkers(s, i);
    case Spawn(worker) => SpawnKeepsWorkers(s, worker);
    case Create => UnionAppend(s.tasks, NewTask, Suspended);
    case CallComplete(i, t, o) => StoreLosesNothing(s, i, t, o);
    case _ => OtherStepLosesNothing(s, a);
  }

  // ---- whole runs ----

  lemma StepKeepsInvariant(s: State, a: Action)
    requires Inv(s) && Enabled(s, a)
    ensures Inv(Apply(s, a))
  {
    KeepsFifo(s, a);
    KeepsNothingLost(s, a);
    KeepsTasks(s, a);
    KeepsThreads(s, a);
    KeepsPushed(s, a);
    KeepsWorkers(s, a);
    KeepsWaiters(s, a);
  }

  ghost predicate Runs(s: State, acts: seq<Action>)
    requires Shaped(s)
    decreases |acts|
  {
    acts != [] ==> Enabled(s, acts[0]) && Shaped(Apply(s, acts[0])) && Runs(Apply(s, acts[0]), acts[1..])
  }

  ghost function After(s: State, acts: seq<Action>): (r: State)
    requires Shaped(s) && Runs(s, acts)
    ensures Shaped(r)
    decreases |acts|
  {
    if acts == [] then s else After(Apply(s, acts[0]), acts[1..])
  }

  lemma {:induction false} RunKeepsInvariant(s: State, acts: seq<Action>)
    requires Inv(s) && Runs(s, acts)
    ensures Inv(After(s, acts))
    decreases |acts|
  {
    if acts != [] {
      StepKeepsInvariant(s, acts[0]);
      RunKeepsInvariant(Apply(s, acts[0]), acts[1..]);
    }
  }

  lemma InitHoldsInvariant(s: State)
    requires Init(s)
    ensures Inv(s)
  {
  }

  /** The places a continuation can be, each with how often it is there. */
  ghost function Places(s: State): multiset<Work>
    requires Shaped(s)
  {
    Union(s.tasks, Suspended) + Union(s.threads, Held) + multiset(Entries(s.ready)) + multiset(s.taken)
  }

  lemma {:induction false} TicketsAreUnique(s: seq<Work>, w: Work)
    requires forall k :: 0 <= k < |s| ==> s[k].ticket == k
    ensures multiset(s)[w] == Bit(w in s)
  {
    if s != [] {
      var n := |s| - 1;
      TicketsAreUnique(s[..n], w);
      assert s == s[..n] + [s[n]];
    }
  }

  /** The task a continuation waited on has its outcome stored. */
  ghost predicate HasOutcome(s: State, o: Origin)
  {
    o.Awaited? ==> o.task < |s.tasks| && s.tasks[o.task].stores != []
  }

  /** In every interleaving in which scheduling always finds room: each registered continuation
      is in exactly one place and is scheduled at most once, never before its task is done and has
      an outcome stored. */
  lemma ContinuationsRunExactlyOnce(s: State, acts: seq<Action>, w: Work)
    requires Init(s) && Runs(s, acts) && w in After(s, acts).submitted
    ensures
      var r := After(s, acts);
      && Places(r)[w] == 1
      && multiset(r.pushed)[w] <= 1
      && (w in r.pushed ==> Finished(r, w.origin) && HasOutcome(r, w.origin))
      && r.pushed == r.taken + Entries(r.ready)
  {
    InitHoldsInvariant(s);
    RunKeepsInvariant(s, acts);
    var r := After(s, acts);
    TicketsAreUnique(r.submitted, w);
    assert multiset(r.pushed) == multiset(r.taken) + multiset(Entries(r.ready));
    if w in r.pushed && w.origin.Awaited? {
      assert TaskOk(w.origin.task, r.tasks[w.origin.task]);
    }
  }

  /** An await that did not suspend, a blocking wait that returned, and a stored outcome. */
  lemma DoneMeansStored(s: State, acts: seq<Action>, i: nat)
    requires Init(s) && Runs(s, acts) && At(After(s, acts), i)
    ensures
      var r := After(s, acts);
      match r.threads[i].pc
      case Returned(t, suspended) => !suspended ==> t < |r.tasks| && r.tasks[t].done && r.tasks[t].stores != []
      case WaitReturned(t, v) => t < |r.tasks| && r.tasks[t].done && (|r.tasks[t].stores| == 1 && r.tasks[t].stores[0].Value? ==> v == r.tasks[t].stores[0].v)
      case _ => true
  {
    InitHoldsInvariant(s);
    RunKeepsInvariant(s, acts);
    var r := After(s, acts);
    assert ThreadOk(r.tasks, r.threads[i].pc);
    if r.threads[i].pc.Returned? && !r.threads[i].pc.suspended {
      assert TaskOk(r.threads[i].pc.t, r.tasks[r.threads[i].pc.t]);
    }
  }

  /** No sleeper is stranded: whatever it sleeps on, some thread has still to act on it. */
  lemma NobodyIsStranded(s: State, acts: seq<Action>, i: nat)
    requires Init(s) && Runs(s, acts) && At(After(s, acts), i)
    ensures
      var r := After(s, acts);
      && (r.threads[i].pc.QueueAsleep? && Entries(r.ready) != [] ==>
            exists j :: 0 <= j < |r.threads| && (OwesQueueSignal(r.threads[j]) || IsQueueWoken(r.threads[j])))
      && (r.threads[i].pc.DoneAsleep? && r.tasks[r.threads[i].pc.t].done ==>
            exists j :: 0 <= j < |r.threads| && IsWakerOf(r.threads[j], r.threads[i].pc.t))
  {
    InitHoldsInvariant(s);
    RunKeepsInvariant(s, acts);
    var r := After(s, acts);
    CountPositive(r.threads, IsQueueAsleep);
    CountPositive(r.threads, IsQueueWoken);
    CountPositive(r.threads, OwesQueueSignal);
    assert r.threads[i].pc.QueueAsleep? ==> IsQueueAsleep(r.threads[i]);
  }

  /** Once nobody is handing continuations out and the queue is empty, every continuation of a
      done task has been taken by a worker. */
  lemma QuietMeansAllTaken(s: State, acts: seq<Action>, w: Work)
    requires Init(s) && Runs(s, acts) && w in After(s, acts).submitted
    requires Finished(After(s, acts), w.origin) && Entries(After(s, acts).ready) == []
    requires forall j :: 0 <= j < |After(s, acts).threads| ==> Held(After(s, acts).threads[j]) == multiset{}
    ensures w in After(s, acts).taken
  {
    InitHoldsInvariant(s);
    RunKeepsInvariant(s, acts);
    var r := After(s, acts);
    NothingHeld(r.threads);
    assert multiset(r.submitted)[w] > 0;
    if w in Union(r.tasks, Suspended) {
      var t := SuspendedSomewhere(r.tasks, w);
      WaitersOfUnfinished(r, t, w);
    }
  }

  lemma WaitersOfUnfinished(s: State, t: nat, w: Work)
    requires TasksConsistent(s) && t < |s.tasks| && w in s.tasks[t].waiters
    ensures w.origin == Awaited(t) && !Finished(s, w.origin)
  {
    assert TaskOk(t, s.tasks[t]);
  }

  lemma {:induction false} NothingHeld(xs: seq<Thread>)
    requires forall j :: 0 <= j < |xs| ==> Held(xs[j]) == multiset{}
    ensures Union(xs, Held) == multiset{}
  {
    if xs != [] {
      var n := |xs| - 1;
      assert forall j :: 0 <= j < n ==> xs[..n][j] == xs[j];
      NothingHeld(xs[..n]);
    }
  }

  lemma {:induction false} SuspendedSomewhere(tasks: seq<Task>, w: Work) returns (t: nat)
    requires w in Union(tasks, Suspended)
    ensures t < |tasks| && w in tasks[t].waiters
  {
    var n := |tasks| - 1;
    if w in tasks[n].waiters {
      t := n;
    } else {
      t := SuspendedSomewhere(tasks[..n], w);
    }
  }
}
