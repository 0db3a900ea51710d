/**
 What the callers of the worker pool get, told from the list of their calls: which function is
 resumed on which state, what is stored into a task, and where a thread stands after each call.
 */
module AsyncCalls {
  import opened Async
  import opened AsyncRuns
  import opened Options

  function Bit(b: bool): nat { if b then 1 else 0 }

  // ---- a thread and its last call ----

  predicate IsCallOf(a: Action, i: nat)
  {
    match a
    case CallAwait(j, _, _, _) => i == j
    case CallComplete(j, _, _) => i == j
    case CallSchedule(j, _, _) => i == j
    case CallWait(j, _) => i == j
    case _ => false
  }

  /** The last call thread `i` made in a run, `was` before it. */
  function LastCall(acts: seq<Action>, i: nat, was: Option<Action>): Option<Action>
  {
    if acts == [] then was else LastCall(acts[1..], i, if IsCallOf(acts[0], i) then Some(acts[0]) else was)
  }

  /** A thread inside an operation is inside the one it called last, on the arguments it was called with. */
  ghost predicate OnCourse(i: nat, x: Thread, call: Option<Action>)
  {
    match x.pc
    case Running => true
    case AtTop => x.worker
    case QueueAsleep => x.worker
    case QueueWoken => x.worker
    case Awaiting(t, code, st) => call == Some(CallAwait(i, t, code, st))
    case Returned(t, _) => call.Some? && call.value.CallAwait? && call.value.task == t
    case Stored(t) => Completes(call, t)
    case Waking(t, _) => Completes(call, t)
    case WakingSignal(t, _) => Completes(call, t)
    case OwesSignal => call.Some? && call.value.CallSchedule?
    case WaitEntry(t) => call == Some(CallWait(i, t))
    case DoneAsleep(t) => call == Some(CallWait(i, t))
    case DoneWoken(t) => call == Some(CallWait(i, t))
    case WaitPassed(t) => call == Some(CallWait(i, t))
    case WaitReturned(t, _) => call == Some(CallWait(i, t))
  }

  predicate Completes(call: Option<Action>, t: nat) { call.Some? && call.value.CallComplete? && call.value.task == t }

  ghost predicate ThreadOnCourse(s: State, i: nat, call: Option<Action>)
  {
    i < |s.threads| ==> OnCourse(i, s.threads[i], call)
  }

  lemma StepOnCourse(s: State, a: Action, i: nat, call: Option<Action>)
    requires Shaped(s) && Enabled(s, a) && ThreadOnCourse(s, i, call)
    ensures ThreadOnCourse(Apply(s, a), i, if IsCallOf(a, i) then Some(a) else call)
  {
    hide Push, Pop, Store, Register, Finish, Entries, InRange;
  }

  lemma {:induction false} RunOnCourse(s: State, acts: seq<Action>, i: nat, call: Option<Action>)
    requires Shaped(s) && Runs(s, acts) && ThreadOnCourse(s, i, call)
    ensures ThreadOnCourse(After(s, acts), i, LastCall(acts, i, call))
    decreases |acts|
  {
    hide Apply, ThreadOnCourse, Shaped, Enabled;
    if acts != [] {
      StepOnCourse(s, acts[0], i, call);
      RunOnCourse(Apply(s, acts[0]), acts[1..], i, if IsCallOf(acts[0], i) then Some(acts[0]) else call);
    }
  }

  /** In every run, a thread inside an operation is inside the one it called last. */
  lemma ThreadsFollowTheirCalls(s: State, acts: seq<Action>, i: nat)
    requires Init(s) && Runs(s, acts) && At(After(s, acts), i)
    ensures OnCourse(i, After(s, acts).threads[i], LastCall(acts, i, None))
  {
    RunOnCourse(s, acts, i, None);
  }

  /** An await that takes the lock: its caller is the latest `CallAwait` of the thread. Done, it goes on
      and registers nothing; otherwise it suspends, and the entry registered has the function and the
      state that were passed, and waits on the task that was passed. */
  lemma AwaitRegistersWhatWasPassed(s: State, acts: seq<Action>, i: nat)
    requires Init(s) && Runs(s, acts) && Enabled(After(s, acts), AwaitLock(i))
    ensures
      var r, call := After(s, acts), LastCall(acts, i, None);
      var u := Apply(r, AwaitLock(i));
      && call.Some? && call.value.CallAwait? && call.value.task < |r.tasks|
      && (if r.tasks[call.value.task].done then
            u.threads[i].pc == Returned(call.value.task, false) && u.submitted == r.submitted && u.tasks == r.tasks
          else
            && u.threads[i].pc == Returned(call.value.task, true)
            && |u.submitted| == |r.submitted| + 1 && u.submitted[..|r.submitted|] == r.submitted
            && Asks(u.submitted[|r.submitted|], Request(call.value.code, call.value.state, Awaited(call.value.task)))
            && u.tasks[call.value.task].waiters == [u.submitted[|r.submitted|]] + r.tasks[call.value.task].waiters)
  {
    ThreadsFollowTheirCalls(s, acts, i);
  }

  // ---- every request is registered or refused, once ----

  /** A function to resume, the state to resume it on, and what for. */
  datatype Request = Request(code: int, state: int, origin: Origin)

  predicate Asks(w: Work, q: Request) { w.code == q.code && w.state == q.state && w.origin == q.origin }

  /** The action is the call that makes this request. */
  predicate Requests(a: Action, q: Request)
  {
    || (a.CallAwait? && q == Request(a.code, a.state, Awaited(a.task)))
    || (a.CallSchedule? && q == Request(a.code, a.state, Direct))
  }

  /** How many calls of a run make the request. */
  function Requested(acts: seq<Action>, q: Request): nat
  {
    if acts == [] then 0 else Bit(Requests(acts[0], q)) + Requested(acts[1..], q)
  }

  /** How many registrations are for it. */
  function Registered(ws: seq<Work>, q: Request): nat
  {
    if ws == [] then 0 else Registered(ws[..|ws| - 1], q) + Bit(Asks(ws[|ws| - 1], q))
  }

  predicate Holds(x: Thread, q: Request) { x.pc.Awaiting? && q == Request(x.pc.code, x.pc.state, Awaited(x.pc.t)) }

  /** How many threads have made it and not taken the lock. */
  function Asking(xs: seq<Thread>, q: Request): nat
  {
    if xs == [] then 0 else Asking(xs[..|xs| - 1], q) + Bit(Holds(xs[|xs| - 1], q))
  }

  /** The step answers the request at once, because the task is done. */
  ghost predicate Refuses(s: State, a: Action, q: Request)
    requires Shaped(s) && Enabled(s, a)
  {
    || (a.CallAwait? && Requests(a, q) && s.tasks[a.task].done)
    || (a.AwaitLock? && Holds(s.threads[a.i], q) && s.tasks[s.threads[a.i].pc.t].done)
  }

  ghost function Refused(s: State, acts: seq<Action>, q: Request): nat
    requires Shaped(s) && Runs(s, acts)
    decreases |acts|
  {
    if acts == [] then 0 else Bit(Refuses(s, acts[0], q)) + Refused(Apply(s, acts[0]), acts[1..], q)
  }

  lemma RegisteredGrows(ws: seq<Work>, w: Work, q: Request)
    ensures Registered(ws + [w], q) == Registered(ws, q) + Bit(Asks(w, q))
  {
    assert (ws + [w])[..|ws|] == ws;
  }

  lemma {:induction false} AskingMoves(xs: seq<Thread>, i: nat, x: Thread, q: Request)
    requires i < |xs|
    ensures Asking(xs[i := x], q) + Bit(Holds(xs[i], q)) == Asking(xs, q) + Bit(Holds(x, q))
  {
    var n := |xs| - 1;
    if i == n {
      assert xs[i := x][..n] == xs[..n];
    } else {
      AskingMoves(xs[..n], i, x, q);
      assert xs[i := x][..n] == xs[..n][i := x];
    }
  }

  lemma {:induction false} AskingSame(xs: seq<Thread>, ys: seq<Thread>, q: Request)
    requires |xs| == |ys| && forall k :: 0 <= k < |xs| ==> Holds(xs[k], q) == Holds(ys[k], q)
    ensures Asking(xs, q) == Asking(ys, q)
  {
    if xs != [] {
      var n := |xs| - 1;
      assert forall k :: 0 <= k < n ==> xs[..n][k] == xs[k] && ys[..n][k] == ys[k];
      AskingSame(xs[..n], ys[..n], q);
    }
  }

  lemma StepKeepsRequests(s: State, a: Action, q: Request)
    requires Shaped(s) && Enabled(s, a)
    ensures
      var t := Apply(s, a);
      Registered(t.submitted, q) + Asking(t.threads, q) + Bit(Refuses(s, a, q)) ==
        Registered(s.submitted, q) + Asking(s.threads, q) + Bit(Requests(a, q))
  {
    hide Asking, Registered, Push, Pop, Store, Finish, InRange, Entries;
    var t := Apply(s, a);
    match a
    case Spawn(worker) => AskingAppends(s.threads, t.threads[|s.threads|], q);
    case AwaitLock(i) =>
      AskingMoves(s.threads, i, t.threads[i], q);
      if t.submitted != s.submitted { RegisteredGrows(s.submitted, t.submitted[|s.submitted|], q); }
    case CallSchedule(i, _, _) =>
      AskingMoves(s.threads, i, t.threads[i], q);
      RegisteredGrows(s.submitted, t.submitted[|s.submitted|], q);
    case Signal(i, j) => SignalKeepsAsking(s, i, j, q);
    case WakeAll(i) => WakeAllKeepsAsking(s, i, q);
    case Create =>
    case _ => OneThreadMoves(s, a, q);
  }

  lemma AskingAppends(xs: seq<Thread>, x: Thread, q: Request)
    ensures Asking(xs + [x], q) == Asking(xs, q) + Bit(Holds(x, q))
  {
    assert (xs + [x])[..|xs|] == xs;
  }

  lemma SignalKeepsAsking(s: State, i: nat, j: nat, q: Request)
    requires Shaped(s) && Enabled(s, Signal(i, j))
    ensures Asking(Apply(s, Signal(i, j)).threads, q) == Asking(s.threads, q)
  {
    hide Asking, InRange;
    var t := Apply(s, Signal(i, j));
    AskingSame(s.threads, t.threads, q);
  }

  lemma WakeAllKeepsAsking(s: State, i: nat, q: Request)
    requires Shaped(s) && Enabled(s, WakeAll(i))
    ensures Asking(Apply(s, WakeAll(i)).threads, q) == Asking(s.threads, q)
  {
    hide Asking, InRange;
    var t := Apply(s, WakeAll(i));
    AskingSame(s.threads, t.threads, q);
  }

  /** The thread a step moves. */
  function Mover(a: Action): nat
  {
    match a
    case Spawn(_) => 0
    case Create => 0
    case CallAwait(i, _, _, _) => i
    case AwaitLock(i) => i
    case CallComplete(i, _, _) => i
    case WakeLock(i) => i
    case ScheduleNext(i) => i
    case WakeAll(i) => i
    case CallSchedule(i, _, _) => i
    case Signal(i, _) => i
    case WorkerTest(i) => i
    case WorkerLoop(i) => i
    case CallWait(i, _) => i
    case WaitTest(i) => i
    case ReadResult(i) => i
    case Resume(i) => i
    case Spurious(j) => j
  }

  lemma OneThreadMoves(s: State, a: Action, q: Request)
    requires Shaped(s) && Enabled(s, a)
    requires !(a.Spawn? || a.Create? || a.AwaitLock? || a.CallSchedule? || a.Signal? || a.WakeAll?)
    ensures Apply(s, a).submitted == s.submitted
    ensures Asking(Apply(s, a).threads, q) + Bit(Refuses(s, a, q)) == Asking(s.threads, q) + Bit(Requests(a, q))
  {
    hide Asking, Push, Pop, Store, Finish, InRange, Entries;
    AskingMoves(s.threads, Mover(a), Apply(s, a).threads[Mover(a)], q);
  }

  lemma {:induction false} RunKeepsRequests(s: State, acts: seq<Action>, q: Request)
    requires Shaped(s) && Runs(s, acts)
    ensures Registered(After(s, acts).submitted, q) + Asking(After(s, acts).threads, q) + Refused(s, acts, q) ==
      Registered(s.submitted, q) + Asking(s.threads, q) + Requested(acts, q)
    decreases |acts|
  {
    hide Apply, Enabled, Refuses, Asking, Registered, Shaped;
    if acts != [] {
      StepKeepsRequests(s, acts[0], q);
      RunKeepsRequests(Apply(s, acts[0]), acts[1..], q);
    }
  }

  /** In every run, for every function and state: the calls that asked for it are those registered, those
      whose caller has not taken the lock, and those answered at once because the task was done. */
  lemma EveryRequestIsAnsweredOnce(s: State, acts: seq<Action>, q: Request)
    requires Init(s) && Runs(s, acts)
    ensures Registered(After(s, acts).submitted, q) + Asking(After(s, acts).threads, q) + Refused(s, acts, q) == Requested(acts, q)
  {
    RunKeepsRequests(s, acts, q);
  }

  // ---- nothing runs that nobody asked for ----

  lemma {:induction false} RegisteredIs(ws: seq<Work>, w: Work)
    requires w in ws
    ensures Registered(ws, Request(w.code, w.state, w.origin)) > 0
  {
    var n := |ws| - 1;
    if w != ws[n] { RegisteredIs(ws[..n], w); }
  }

  lemma {:induction false} SomeCallRequests(acts: seq<Action>, q: Request)
    requires Requested(acts, q) > 0
    ensures exists k :: 0 <= k < |acts| && Requests(acts[k], q)
  {
    if !Requests(acts[0], q) {
      SomeCallRequests(acts[1..], q);
      var k :| 0 <= k < |acts| - 1 && Requests(acts[1..][k], q);
      assert Requests(acts[k + 1], q);
    }
  }

  /** What a worker takes was asked for by some call, with that function, that state and, when it waited,
      on that task. */
  lemma WhatRunsWasAskedFor(s: State, acts: seq<Action>, w: Work)
    requires Init(s) && Runs(s, acts) && (w in After(s, acts).submitted || w in After(s, acts).taken)
    ensures exists k :: 0 <= k < |acts| && Requests(acts[k], Request(w.code, w.state, w.origin))
  {
    var r := After(s, acts);
    var q := Request(w.code, w.state, w.origin);
    InitHoldsInvariant(s);
    RunKeepsInvariant(s, acts);
    if w !in r.submitted { TakenWasSubmitted(r, w); }
    RegisteredIs(r.submitted, w);
    EveryRequestIsAnsweredOnce(s, acts, q);
    SomeCallRequests(acts, q);
  }

  lemma TakenWasSubmitted(r: State, w: Work)
    requires Inv(r) && w in r.taken
    ensures w in r.submitted
  {
    assert w in r.pushed;
    assert multiset(r.pushed) <= multiset(r.submitted);
    assert multiset(r.submitted)[w] > 0;
  }

  // ---- what a task holds ----

  /** The outcomes the calls of a run gave for task `t`, in order. */
  function Completions(acts: seq<Action>, t: nat): seq<Outcome>
  {
    if acts == [] then []
    else (if acts[0].CallComplete? && acts[0].task == t then [acts[0].outcome] else []) + Completions(acts[1..], t)
  }

  ghost function StoresOf(s: State, t: nat): seq<Outcome> { if t < |s.tasks| then s.tasks[t].stores else [] }

  lemma StepStores(s: State, a: Action, t: nat)
    requires Shaped(s) && Enabled(s, a)
    ensures StoresOf(Apply(s, a), t) == StoresOf(s, t) + if a.CallComplete? && a.task == t then [a.outcome] else []
  {
    hide Push, Pop, Entries;
    var stores, u := StoresOf(s, t), Apply(s, a);
    assert stores + [] == stores;
    match a
    case Create => assert StoresOf(u, t) == stores;
    case CallComplete(i, k, o) => assert StoresOf(u, t) == stores + if k == t then [o] else [];
    case AwaitLock(i) => assert StoresOf(u, t) == stores;
    case WakeLock(i) => assert StoresOf(u, t) == stores;
    case _ => assert u.tasks == s.tasks;
  }

  lemma {:induction false} RunStores(s: State, acts: seq<Action>, t: nat)
    requires Shaped(s) && Runs(s, acts)
    ensures StoresOf(After(s, acts), t) == StoresOf(s, t) + Completions(acts, t)
    decreases |acts|
  {
    hide Apply, Enabled, StoresOf, Shaped;
    if acts != [] {
      StepStores(s, acts[0], t);
      RunStores(Apply(s, acts[0]), acts[1..], t);
      var one := if acts[0].CallComplete? && acts[0].task == t then [acts[0].outcome] else [];
      assert StoresOf(s, t) + one + Completions(acts[1..], t) == StoresOf(s, t) + (one + Completions(acts[1..], t));
    } else {
      assert StoresOf(s, t) + [] == StoresOf(s, t);
    }
  }

  /** In every run a task holds the last value and the last error its completions gave. */
  lemma TasksHoldWhatWasGiven(s: State, acts: seq<Action>, t: nat)
    requires Init(s) && Runs(s, acts) && t < |After(s, acts).tasks|
    ensures
      var task := After(s, acts).tasks[t];
      && task.stores == Completions(acts, t)
      && task.result == LastValue(Completions(acts, t)) && task.error == LastError(Completions(acts, t))
      && (task.done ==> Completions(acts, t) != [])
  {
    hide Apply, LastValue, LastError, Runs, After;
    InitHoldsInvariant(s);
    RunKeepsInvariant(s, acts);
    RunStores(s, acts, t);
    assert StoresOf(s, t) == [];
    assert [] + Completions(acts, t) == Completions(acts, t);
    assert TaskOk(t, After(s, acts).tasks[t]);
  }

  /** A blocking wait answers with a value that was the latest of its task's at some moment. */
  lemma WaitsAnswerWithWhatWasGiven(s: State, acts: seq<Action>, i: nat)
    requires Init(s) && Runs(s, acts) && At(After(s, acts), i) && After(s, acts).threads[i].pc.WaitReturned?
    ensures
      var pc := After(s, acts).threads[i].pc;
      StoredValue(Completions(acts, pc.t), pc.value) && LastCall(acts, i, None) == Some(CallWait(i, pc.t))
  {
    hide Apply, LastValue;
    InitHoldsInvariant(s);
    RunKeepsInvariant(s, acts);
    var r := After(s, acts);
    assert ThreadOk(r.tasks, r.threads[i].pc);
    TasksHoldWhatWasGiven(s, acts, r.threads[i].pc.t);
    ThreadsFollowTheirCalls(s, acts, i);
  }

  // ---- single steps ----

  /** An await's first look returns at once exactly when the task is done. */
  lemma AwaitOutcome(s: State, i: nat, t: nat, code: int, st: int)
    requires Inv(s) && Enabled(s, CallAwait(i, t, code, st))
    ensures
      var u := Apply(s, CallAwait(i, t, code, st));
      u.threads[i].pc.Returned? <==> s.tasks[t].done
  {
  }

  /** A completion marks the task done under the lock and hands on all its waiters, in list order. */
  lemma WakeOutcome(s: State, i: nat)
    requires Inv(s) && Enabled(s, WakeLock(i))
    ensures
      var t, u := s.threads[i].pc.t, Apply(s, WakeLock(i));
      && u.tasks[t].done && u.tasks[t].waiters == [] && u.threads[i].pc.Waking? && u.threads[i].pc.rest == s.tasks[t].waiters
      && u.tasks[t].result == s.tasks[t].result && u.tasks[t].error == s.tasks[t].error
      && forall k :: 0 <= k < |s.tasks| && k != t ==> u.tasks[k] == s.tasks[k]
  {
  }

  /** Scheduling puts one entry at the back of the queue: the next one detached, or the one passed. */
  lemma ScheduleOutcome(s: State, a: Action)
    requires Inv(s) && Enabled(s, a) && (a.ScheduleNext? || a.CallSchedule?)
    ensures
      var u := Apply(s, a);
      && |u.pushed| == |s.pushed| + 1
      && Entries(u.ready) == Entries(s.ready) + [u.pushed[|s.pushed|]]
      && OwesQueueSignal(u.threads[a.i])
      && (a.ScheduleNext? ==> s.threads[a.i].pc.rest == [u.pushed[|s.pushed|]] + u.threads[a.i].pc.rest)
      && (a.CallSchedule? ==> Asks(u.pushed[|s.pushed|], Request(a.code, a.state, Direct)))
  {
    PushAppendsIffRoom(s.ready, if a.ScheduleNext? then s.threads[a.i].pc.rest[0] else Work(a.code, a.state, |s.submitted|, Direct));
  }

  /** A worker takes the oldest entry, and sleeps exactly when there is none. */
  lemma WorkerOutcome(s: State, i: nat)
    requires Inv(s) && Enabled(s, WorkerTest(i))
    ensures
      var u := Apply(s, WorkerTest(i));
      if Entries(s.ready) == [] then u.threads[i].pc == QueueAsleep && u.ready == s.ready && u.taken == s.taken
      else u.threads[i].pc == Running && u.taken == s.taken + [Entries(s.ready)[0]] && Entries(u.ready) == Entries(s.ready)[1..]
  {
    if s.ready.head != s.ready.tail {
      PopTakesOldest(s.ready);
    }
  }

  /** A blocking wait passes exactly when the task is done, and then answers with its result. */
  lemma WaitOutcome(s: State, i: nat)
    requires Inv(s)
    ensures Enabled(s, WaitTest(i)) ==>
      var t, u := s.threads[i].pc.t, Apply(s, WaitTest(i));
      u.threads[i].pc == if s.tasks[t].done then WaitPassed(t) else DoneAsleep(t)
    ensures Enabled(s, ReadResult(i)) ==>
      var t, u := s.threads[i].pc.t, Apply(s, ReadResult(i));
      u.threads[i].pc == WaitReturned(t, LastValue(s.tasks[t].stores))
  {
    if Enabled(s, ReadResult(i)) {
      var t := s.threads[i].pc.t;
      assert t < |s.tasks|;
      assert TaskOk(t, s.tasks[t]);
    }
  }
}
