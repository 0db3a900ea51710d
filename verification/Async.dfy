/**
 Tasks, their continuations and the worker pool.

 A continuation suspended on a task is handed from the task's waiter list to the thread that
 completes the task, from there to the ready queue, and from there to a worker. Each section
 under the one pool lock is an atomic action; the unlocked stores before it and the signals
 after it are actions of their own. The pool has been started and allocation succeeds.
 */
module Async {
  import opened Tally
  import opened Rings

  const QUEUE_CAPACITY: nat := 65536

  // ---- the ready queue ----

  datatype Origin = Awaited(task: nat) | Direct

  /** A resume function and its state. The ticket and the origin are bookkeeping: they say
      which registration this is and what it waited for, and no action reads them. */
  datatype Work = Work(code: int, state: int, ticket: nat, origin: Origin)

  /** A ring with no entry count: equal indices mean empty. */
  datatype Ready = Ready(buf: seq<Work>, head: nat, tail: nat)

  ghost predicate ValidReady(q: Ready)
  {
    q.head < |q.buf| && q.tail < |q.buf|
  }

  function Pending(q: Ready): (n: nat)
    requires ValidReady(q)
    ensures n < |q.buf| && q.tail == Pos(q.head, n, |q.buf|)
  {
    if q.head <= q.tail then q.tail - q.head else q.tail + |q.buf| - q.head
  }

  ghost function Entries(q: Ready): seq<Work>
    requires ValidReady(q)
  {
    Slots(q.buf, q.head, Pending(q))
  }

  function Push(q: Ready, w: Work): Ready
    requires q.tail < |q.buf|
  {
    Ready(q.buf[q.tail := w], q.head, Pos(q.tail, 1, |q.buf|))
  }

  function Pop(q: Ready): Ready
    requires q.head < |q.buf|
  {
    Ready(q.buf, Pos(q.head, 1, |q.buf|), q.tail)
  }

  /** Scheduling has no full check. It appends exactly when one slot stays free; on the last
      slot the indices meet and the whole queue reads as empty. */
  lemma PushAppendsIffRoom(q: Ready, w: Work)
    requires ValidReady(q)
    ensures ValidReady(Push(q, w))
    ensures Pending(q) + 1 < |q.buf| <==> Entries(Push(q, w)) == Entries(q) + [w]
    ensures Pending(q) + 1 == |q.buf| ==> Entries(Push(q, w)) == []
  {
    if Pending(q) + 1 < |q.buf| {
      PutAppends(q.buf, q.head, Pending(q), w);
    }
  }

  lemma PopTakesOldest(q: Ready)
    requires ValidReady(q) && q.head != q.tail
    ensures ValidReady(Pop(q)) && Entries(q) == [q.buf[q.head]] + Entries(Pop(q))
  {
    TakeDrops(q.buf, q.head, Pending(q));
    assert Pending(Pop(q)) == Pending(q) - 1;
  }

  class ReadyQueue {
    const buf: array<Work>
    var head: nat
    var tail: nat

    ghost function View(): Ready
      reads this, buf
    {
      Ready(buf[..], head, tail)
    }

    ghost predicate Valid()
      reads this, buf
    {
      buf.Length == QUEUE_CAPACITY && ValidReady(View())
    }

    constructor ()
      ensures Valid() && fresh(buf) && Entries(View()) == []
    {
      buf := new Work[QUEUE_CAPACITY](i => Work(0, 0, 0, Direct));
      head, tail := 0, 0;
    }

    method Schedule(w: Work)
      requires Valid()
      modifies this, buf
      ensures Valid() && View() == Push(old(View()), w)
      ensures |Entries(old(View()))| + 1 < QUEUE_CAPACITY ==> Entries(View()) == Entries(old(View())) + [w]
    {
      PushAppendsIffRoom(View(), w);
      Wraps(tail, 1, QUEUE_CAPACITY);
      ghost var before := View();
      buf[tail] := w;
      tail := (tail + 1) % QUEUE_CAPACITY;
      assert View() == Push(before, w);
    }

    /** One pass of a worker's loop: false means it must sleep. */
    method TakeNext() returns (found: bool, w: Work)
      requires Valid()
      modifies this
      ensures Valid() && found == (Entries(old(View())) != [])
      ensures View() == if found then Pop(old(View())) else old(View())
      ensures found ==> Entries(old(View())) == [w] + Entries(View())
    {
      w := buf[head];
      if head == tail {
        return false, w;
      }
      PopTakesOldest(View());
      Wraps(head, 1, QUEUE_CAPACITY);
      ghost var before := View();
      head := (head + 1) % QUEUE_CAPACITY;
      assert View() == Pop(before);
      found := true;
    }
  }

  // ---- tasks ----

  datatype Outcome = Value(v: int) | Error(carrier: int)

  /** `stores` records what was stored into the task, oldest first. */
  datatype Task = Task(done: bool, result: int, error: int, waiters: seq<Work>, stores: seq<Outcome>)

  const NewTask := Task(false, 0, 0, [], [])

  function Store(t: Task, o: Outcome): Task
  {
    var s := t.(stores := t.stores + [o]);
    match o
    case Value(v) => s.(result := v)
    case Error(c) => s.(error := c)
  }

  function Register(t: Task, w: Work): Task
  {
    if t.done then t else t.(waiters := [w] + t.waiters)
  }

  function Finish(t: Task): Task
  {
    t.(done := true, waiters := [])
  }

  class TaskCell {
    var done: bool
    var result: int
    var error: int
    var waiters: seq<Work>
    ghost var stores: seq<Outcome>

    ghost function View(): Task
      reads this
    {
      Task(done, result, error, waiters, stores)
    }

    constructor ()
      ensures View() == NewTask
    {
      done, result, error, waiters, stores := false, 0, 0, [], [];
    }

    method StoreOutcome(o: Outcome)
      modifies this
      ensures View() == Store(old(View()), o)
    {
      match o {
        case Value(v) => result := v;
        case Error(c) => error := c;
      }
      stores := stores + [o];
    }

    /** The locked half of an await: true means suspended. */
    method AwaitLocked(w: Work) returns (suspended: bool)
      modifies this
      ensures View() == Register(old(View()), w)
      ensures suspended == !old(done)
    {
      if done {
        return false;
      }
      waiters := [w] + waiters;
      suspended := true;
    }

    /** The locked half of a completion: marks the task done and takes its waiters away. */
    method WakeLocked() returns (detached: seq<Work>)
      modifies this
      ensures View() == Finish(old(View())) && detached == old(waiters)
    {
      done := true;
      detached := waiters;
      waiters := [];
    }
  }

  ghost function LastValue(stores: seq<Outcome>): int
  {
    if stores == [] then 0
    else match stores[|stores| - 1]
      case Value(v) => v
      case Error(_) => LastValue(stores[..|stores| - 1])
  }

  ghost function LastError(stores: seq<Outcome>): int
  {
    if stores == [] then 0
    else match stores[|stores| - 1]
      case Error(c) => c
      case Value(_) => LastError(stores[..|stores| - 1])
  }

  /** The value was current after at least one store. */
  ghost predicate StoredValue(stores: seq<Outcome>, v: int)
  {
    exists k :: 0 < k <= |stores| && LastValue(stores[..k]) == v
  }

  lemma StoreKeepsStoredValue(stores: seq<Outcome>, o: Outcome, v: int)
    requires StoredValue(stores, v)
    ensures StoredValue(stores + [o], v)
  {
    var k :| 0 < k <= |stores| && LastValue(stores[..k]) == v;
    assert (stores + [o])[..k] == stores[..k];
  }

  // ---- the protocol ----

  datatype Pc =
    | Running                                   // between runtime calls
    | Awaiting(t: nat, code: int, state: int)   // saw the task unfinished, has not taken the lock
    | Returned(t: nat, suspended: bool)         // await has returned
    | Stored(t: nat)                            // stored an outcome, has not taken the lock
    | Waking(t: nat, rest: seq<Work>)           // marked done; `rest` is still to be scheduled
    | WakingSignal(t: nat, rest: seq<Work>)     // scheduled one, owes its signal, then `rest`
    | OwesSignal                                // scheduled directly, owes its signal
    | AtTop                                     // worker about to test the queue
    | QueueAsleep
    | QueueWoken
    | WaitEntry(t: nat)                         // blocking wait, has not tested the task
    | DoneAsleep(t: nat)
    | DoneWoken(t: nat)
    | WaitPassed(t: nat)                        // saw the task done, has not read the result
    | WaitReturned(t: nat, value: int)

  datatype Thread = Thread(worker: bool, pc: Pc)

  ghost predicate IsQueueAsleep(x: Thread) { x.pc.QueueAsleep? }
  ghost predicate IsQueueWoken(x: Thread) { x.pc.QueueWoken? }
  ghost predicate OwesQueueSignal(x: Thread) { x.pc.OwesSignal? || x.pc.WakingSignal? }
  ghost predicate IsWakerOf(x: Thread, t: nat) { (x.pc.Waking? || x.pc.WakingSignal?) && x.pc.t == t }

  ghost function Held(x: Thread): multiset<Work>
  {
    if x.pc.Waking? || x.pc.WakingSignal? then multiset(x.pc.rest) else multiset{}
  }

  ghost function Suspended(t: Task): multiset<Work>
  {
    multiset(t.waiters)
  }

  /** `submitted`, `pushed` and `taken` record every registration, every entry put on the
      ready queue and every entry a worker removed, in order. */
  datatype State = State(tasks: seq<Task>, ready: Ready, threads: seq<Thread>,
                         submitted: seq<Work>, pushed: seq<Work>, taken: seq<Work>)

  datatype Action =
    | Spawn(worker: bool)
    | Create                                                // a new task
    | CallAwait(i: nat, task: nat, code: int, state: int)   // unlocked test
    | AwaitLock(i: nat)                                     // locked test, register or not
    | CallComplete(i: nat, task: nat, outcome: Outcome)     // unlocked store
    | WakeLock(i: nat)                                      // mark done, detach the waiters
    | ScheduleNext(i: nat)                                  // push one detached waiter
    | WakeAll(i: nat)                                       // wake every blocking wait
    | CallSchedule(i: nat, code: int, state: int)
    | Signal(i: nat, j: nat)                                // wake sleeping worker `j`, if any sleeps
    | WorkerTest(i: nat)                                    // locked test, take or sleep
    | WorkerLoop(i: nat)                                    // the continuation returned
    | CallWait(i: nat, task: nat)
    | WaitTest(i: nat)                                      // locked test, pass or sleep
    | ReadResult(i: nat)                                    // unlocked read
    | Resume(i: nat)                                        // go on after a call has returned
    | Spurious(j: nat)

  /** Fewer entries than the ring holds, which scheduling itself does not check. */
  ghost predicate Room(s: State)
    requires ValidReady(s.ready)
  {
    Pending(s.ready) + 1 < |s.ready.buf|
  }

  ghost predicate At(s: State, i: nat)
  {
    i < |s.threads|
  }

  ghost predicate Enabled(s: State, a: Action)
    requires ValidReady(s.ready)
  {
    match a
    case Spawn(_) => true
    case Create => true
    case CallAwait(i, t, _, _) => At(s, i) && s.threads[i].pc.Running? && t < |s.tasks|
    case AwaitLock(i) => At(s, i) && s.threads[i].pc.Awaiting?
    case CallComplete(i, t, _) => At(s, i) && s.threads[i].pc.Running? && t < |s.tasks|
    case WakeLock(i) => At(s, i) && s.threads[i].pc.Stored?
    case ScheduleNext(i) => At(s, i) && s.threads[i].pc.Waking? && s.threads[i].pc.rest != [] && Room(s)
    case WakeAll(i) => At(s, i) && s.threads[i].pc.Waking? && s.threads[i].pc.rest == []
    case CallSchedule(i, _, _) => At(s, i) && s.threads[i].pc.Running? && Room(s)
    case Signal(i, j) =>
      && At(s, i) && At(s, j) && OwesQueueSignal(s.threads[i])
      && (if Count(s.threads, IsQueueAsleep) > 0 then s.threads[j].pc.QueueAsleep? else j == i)
    case WorkerTest(i) => At(s, i) && s.threads[i].worker && (s.threads[i].pc.AtTop? || s.threads[i].pc.QueueWoken?)
    case WorkerLoop(i) => At(s, i) && s.threads[i].worker && s.threads[i].pc.Running?
    case CallWait(i, t) => At(s, i) && s.threads[i].pc.Running? && t < |s.tasks|
    case WaitTest(i) => At(s, i) && (s.threads[i].pc.WaitEntry? || s.threads[i].pc.DoneWoken?)
    case ReadResult(i) => At(s, i) && s.threads[i].pc.WaitPassed?
    case Resume(i) => At(s, i) && (s.threads[i].pc.Returned? || s.threads[i].pc.WaitReturned?)
    case Spurious(j) => At(s, j) && (s.threads[j].pc.QueueAsleep? || s.threads[j].pc.DoneAsleep?)
  }

  ghost function Go(s: State, i: nat, pc: Pc): State
    requires At(s, i)
  {
    s.(threads := s.threads[i := Thread(s.threads[i].worker, pc)])
  }

  ghost function WakeDone(x: Thread): Thread
  {
    if x.pc.DoneAsleep? then Thread(x.worker, DoneWoken(x.pc.t)) else x
  }

  ghost function WakeAllDone(xs: seq<Thread>): (r: seq<Thread>)
    ensures |r| == |xs|
  {
    seq(|xs|, k requires 0 <= k < |xs| => WakeDone(xs[k]))
  }

  /** Every thread's task exists. */
  ghost predicate InRange(s: State)
  {
    forall i :: 0 <= i < |s.threads| ==>
      match s.threads[i].pc
      case Awaiting(t, _, _) => t < |s.tasks|
      case Returned(t, _) => t < |s.tasks|
      case Stored(t) => t < |s.tasks|
      case Waking(t, _) => t < |s.tasks|
      case WakingSignal(t, _) => t < |s.tasks|
      case WaitEntry(t) => t < |s.tasks|
      case DoneAsleep(t) => t < |s.tasks|
      case DoneWoken(t) => t < |s.tasks|
      case WaitPassed(t) => t < |s.tasks|
      case WaitReturned(t, _) => t < |s.tasks|
      case _ => true
  }

  ghost predicate Shaped(s: State)
  {
    ValidReady(s.ready) && InRange(s)
  }

  ghost function Apply(s: State, a: Action): State
    requires Shaped(s) && Enabled(s, a)
  {
    match a
    case Spawn(worker) => s.(threads := s.threads + [Thread(worker, if worker then AtTop else Running)])
    case Create => s.(tasks := s.tasks + [NewTask])
    case CallAwait(i, t, code, st) =>
      Go(s, i, if s.tasks[t].done then Returned(t, false) else Awaiting(t, code, st))
    case AwaitLock(i) =>
      var p := s.threads[i].pc;
      var w := Work(p.code, p.state, |s.submitted|, Awaited(p.t));
      if s.tasks[p.t].done then Go(s, i, Returned(p.t, false))
      else Go(s, i, Returned(p.t, true)).(tasks := s.tasks[p.t := Register(s.tasks[p.t], w)], submitted := s.submitted + [w])
    case CallComplete(i, t, o) =>
      Go(s, i, Stored(t)).(tasks := s.tasks[t := Store(s.tasks[t], o)])
    case WakeLock(i) =>
      var t := s.threads[i].pc.t;
      Go(s, i, Waking(t, s.tasks[t].waiters)).(tasks := s.tasks[t := Finish(s.tasks[t])])
    case ScheduleNext(i) =>
      var p := s.threads[i].pc;
      Go(s, i, WakingSignal(p.t, p.rest[1..])).(ready := Push(s.ready, p.rest[0]), pushed := s.pushed + [p.rest[0]])
    case WakeAll(i) =>
      s.(threads := WakeAllDone(Go(s, i, Running).threads))
    case CallSchedule(i, code, st) =>
      var w := Work(code, st, |s.submitted|, Direct);
      Go(s, i, OwesSignal).(ready := Push(s.ready, w), pushed := s.pushed + [w], submitted := s.submitted + [w])
    case Signal(i, j) =>
      var p := s.threads[i].pc;
      var r := Go(s, i, if p.OwesSignal? then Running else Waking(p.t, p.rest));
      if Count(s.threads, IsQueueAsleep) > 0 then Go(r, j, QueueWoken) else r
    case WorkerTest(i) =>
      if s.ready.head == s.ready.tail then Go(s, i, QueueAsleep)
      else Go(s, i, Running).(ready := Pop(s.ready), taken := s.taken + [s.ready.buf[s.ready.head]])
    case WorkerLoop(i) => Go(s, i, AtTop)
    case CallWait(i, t) => Go(s, i, WaitEntry(t))
    case WaitTest(i) =>
      var t := s.threads[i].pc.t;
      Go(s, i, if s.tasks[t].done then WaitPassed(t) else DoneAsleep(t))
    case ReadResult(i) =>
      var t := s.threads[i].pc.t;
      Go(s, i, WaitReturned(t, s.tasks[t].result))
    case Resume(i) => Go(s, i, Running)
    case Spurious(j) =>
      var p := s.threads[j].pc;
      Go(s, j, if p.QueueAsleep? then QueueWoken else DoneWoken(p.t))
  }

  ghost predicate Init(s: State)
  {
    && |s.ready.buf| == QUEUE_CAPACITY && s.ready.head == s.ready.tail == 0
    && s.tasks == [] && s.threads == [] && s.submitted == [] && s.pushed == [] && s.taken == []
  }

  // ---- the invariant ----

  /** The ring holds what was pushed and not yet taken, in order. */
  ghost predicate QueueIsFifo(s: State)
    requires Shaped(s)
  {
    s.pushed == s.taken + Entries(s.ready)
  }

  /** Every registration is waiting on a task, held by a completing thread, or was pushed. */
  ghost predicate NothingLost(s: State)
  {
    && multiset(s.submitted) == Union(s.tasks, Suspended) + Union(s.threads, Held) + multiset(s.pushed)
    && forall k :: 0 <= k < |s.submitted| ==> s.submitted[k].ticket == k
  }

  ghost predicate TaskOk(t: nat, task: Task)
  {
    && task.result == LastValue(task.stores)
    && task.error == LastError(task.stores)
    && (task.done ==> task.waiters == [] && task.stores != [])
    && forall w :: w in task.waiters ==> w.origin == Awaited(t)
  }

  ghost predicate TasksConsistent(s: State)
  {
    forall t :: 0 <= t < |s.tasks| ==> TaskOk(t, s.tasks[t])
  }

  ghost predicate Finished(s: State, o: Origin)
  {
    o.Awaited? ==> o.task < |s.tasks| && s.tasks[o.task].done
  }

  /** A thread that hands out continuations, or was told not to suspend, has a done task. */
  ghost predicate ThreadOk(tasks: seq<Task>, pc: Pc)
  {
    match pc
    case Awaiting(t, _, _) => t < |tasks|
    case Returned(t, suspended) => t < |tasks| && (!suspended ==> tasks[t].done)
    case Stored(t) => t < |tasks| && tasks[t].stores != []
    case Waking(t, rest) => t < |tasks| && tasks[t].done && forall w :: w in rest ==> w.origin == Awaited(t)
    case WakingSignal(t, rest) => t < |tasks| && tasks[t].done && forall w :: w in rest ==> w.origin == Awaited(t)
    case WaitEntry(t) => t < |tasks|
    case DoneAsleep(t) => t < |tasks|
    case DoneWoken(t) => t < |tasks|
    case WaitPassed(t) => t < |tasks| && tasks[t].done
    case WaitReturned(t, v) => t < |tasks| && tasks[t].done && StoredValue(tasks[t].stores, v)
    case _ => true
  }

  ghost predicate ThreadsConsistent(s: State)
  {
    forall i :: 0 <= i < |s.threads| ==> ThreadOk(s.tasks, s.threads[i].pc)
  }

  ghost predicate PushedOnlyWhenDone(s: State)
  {
    forall w :: w in s.pushed ==> Finished(s, w.origin)
  }

  /** While a worker sleeps, every queued entry is matched by a signal still owed or by a woken
      worker that has not tested again. */
  ghost predicate NoWorkerStranded(s: State)
    requires Shaped(s)
  {
    Count(s.threads, IsQueueAsleep) > 0 ==>
      Pending(s.ready) <= Count(s.threads, OwesQueueSignal) + Count(s.threads, IsQueueWoken)
  }

  /** A blocking wait asleep on a done task has a completing thread still to wake everybody. */
  ghost predicate NoWaiterStranded(s: State)
    requires InRange(s)
  {
    forall i :: 0 <= i < |s.threads| && s.threads[i].pc.DoneAsleep? && s.tasks[s.threads[i].pc.t].done ==>
      exists j :: 0 <= j < |s.threads| && IsWakerOf(s.threads[j], s.threads[i].pc.t)
  }

  ghost predicate Inv(s: State)
  {
    && Shaped(s) && QueueIsFifo(s) && NothingLost(s) && TasksConsistent(s)
    && ThreadsConsistent(s) && PushedOnlyWhenDone(s) && NoWorkerStranded(s) && NoWaiterStranded(s)
  }
}
