# Verified model of Polaron's runtime and compiler core

Polaron is a compiler with its own runtime. This project states, in Dafny, what the parts of it
promise that are easiest to get wrong, and proves it: the threads of the runtime, its heap, the
compiler transformations that must not change a program, and the formats that must read back
what was written. Nothing here runs the original program.

`dafny verify dfyconfig.toml` checks everything.

## How it is laid out

| files | what they model |
|---|---|
| `Channel`, `ChannelCalls`, `Rings`, `Tally` | bounded blocking channels |
| `Async`, `AsyncRuns`, `AsyncCalls` | tasks, continuations, the ready queue and the worker pool |
| `Heap`, `HeapSeparation`, `HeapAccounts`, `HeapRuns`, `HeapCalls`, `HeapReuse`, `HeapAllocator`, `Totals` | size classes, free lists, slabs, stamps, accounting, `realloc` |
| `RecursiveInline`, `InliningPass` | bounded recursive self-inlining |
| `InvariantElision`, `ElisionAnalysis`, `ElisionSoundness`, `InvariantReads`, `ElisionLimits` | leaving out class invariant checks |
| `KeyHooks`, `KeyHookLaws`, `KeyParts` | synthesised `equalsKey`, `hash` and `compareTo` |
| `Vtables` | merging slot layouts and renumbering vtables |
| `LoopInterchange` | the two matrix multiplication nests |
| `Sha256`, `ShaConstants`, `BlockStream` | SHA-256 against FIPS 180-4 |
| `Layouts`, `Polb`, `PolbBytes`, `PolbWriter`, `PolbReader` | the `.polb` container |
| `WindowsArgs` | the child process's argument vector |
| `Ipc`, `IpcRuns` | length-prefixed frames over short reads and writes |
| `DecimalText`, `DecimalMeaning` | decimal and integer text |
| `Probing`, `PtrTables`, `ChainSet` | the pointer set and map behind `cascade`, hashed and chained |
| `ChunkedBumps` | the lock-free region allocators of the region benchmark |
| `Arithmetic`, `Options`, `Sequences` | small shared helpers |

**Threads.** A concurrent part is a state machine. Each section that holds a lock is one action,
and so is each atomic operation; the wake-up after an unlock is a separate, later action, so
other threads may run in between, and a sleeper may also wake for no reason. Theorems speak of
every finite run. The locked sections are written a second time as methods that update an
object in place, tied to the actions by the same functions.

**Objects and loops.** Where the source updates fields or arrays, a class or a method with a
loop does the same here and is proved against a function, and the promises are lemmas about
that function.

## What turned out to hold only under a condition

Each is proved in both directions unless said otherwise.

- Scheduling appends to the ready queue exactly when it is not about to become full; a full
  queue reads as empty (`Async.PushAppendsIffRoom`).
- The byte counter survives allocating and freeing a large block exactly when its size is below
  2^32 (`HeapRuns.LargeBytesReturnIff`). A large `realloc` never tells the counter; the
  difference is `Unheard` in `HeapRuns.AccountingIsConserved`.
- `compareTo` answering 0 means equal keys exactly for types without boolean, `ubyte`, `ushort`,
  `uint`, `ulong` or `address` key fields at any depth (`KeyHookLaws.CompareDecidesEqualityIff`).
- The program name of a Windows command line survives exactly when it has no quotation mark and,
  if quoted, no final backslash, because the child parses it by another rule
  (`WindowsArgs.ProgramRoundTripIff`).
- The chained pointer set answers as the hashed one exactly when no null pointer is added
  (`ChainSets.SetsAgreeIff`).
- Containers and frames read back exactly when every length fits its prefix, and frames only
  when they are not empty (`Polb.RoundTripIff`, `Ipc.StreamRoundTripIff`).
- Renumbering keeps dispatch exactly when a bundle numbers no known method twice
  (`Vtables.DispatchKeptIff`).
- Leaving out invariant checks is sound exactly for invariants that no unmentioned field can make
  false (`ElisionSoundness.SoundIffLocal`), on objects whose unchecked methods assign no mentioned
  field and give none to a callee that may write it. `InvariantReads.SeesItsFields` and
  `ElisionSoundness.TameClass` are the two conditions in terms of the text. Without the first, an
  invariant that asks its own object for `this.size()`, `size()` or the property `this.size` defeats
  the analysis (`ElisionLimits.CallsInInvariantDefeatTheAnalysis`). Without the second, a method of a
  subclass does, since only the declaring class checks an invariant
  (`ElisionLimits.InheritedInvariantGoesUnchecked`); so does an assignment inside an expression
  (`ElisionLimits.SetInsideRuns`); and so does `this.f.m(k);`, in any class, exactly when what `m`
  leaves in the field makes the invariant false (`ElisionLimits.CallOnFieldKeepsIff`, with
  `this.p.setX(-1);` as the input in `ElisionLimits.WritingCallDefeatsTheAnalysis`).

## Where code and comments disagree

- `src/parser/ast.h:405-407` says enums are left out of the ordering; `src/cli/main.cpp:754-769`
  orders them by ordinal. The model follows the code.
- `src/cli/main.cpp:744-745` names booleans as what does not take part in the ordering; the set at
  lines 458-461 also lacks the short unsigned names and `address`, which are part of the key
  (`src/parser/ast.h:411-415`). The model follows the two sets.
- `src/codegen/cgutil.cpp:962-963` keeps the check for an invariant that mentions no field, as the
  conservative answer; one that calls `this.size()` mentions `size` and is taken for an invariant
  about a field of that name, as above.
- `src/codegen/cgutil.cpp:944` says anything unrecognised is assumed to write; expression statements,
  declarations and returns are cleared whatever they call or contain.
- `src/pir/lower.cpp:8890-8895` says the invariant assumed at entry has been checked by an earlier
  exit, because every exit of every method checks it. That is so for calls from outside on objects
  whose unchecked methods leave the mentioned fields alone (`ElisionSoundness.EveryEntryIsTrue`). It
  is not so after a method of a subclass (`ElisionLimits.InheritedInvariantGoesUnchecked`), nor for
  a call made in the middle of a method (`ElisionLimits.InnerEntryMayBeFalse`).
- `tests/samples/inherited_invariant.pol:4-6` and `docs/reference/guide/08-errors-and-contracts.md:520`
  say that a subclass's methods check an inherited invariant at their exit; `src/pir/lower.cpp:8467-8481` takes the invariants of the class that
  declares the method only. The model follows the code.

## Model

| member | source | states |
|---|---|---|
| Channels.ChannelIsSafe | runtime/polaron_rt.cpp:1427-1501 | In every run of any number of senders, receivers and try-receivers from a fresh channel: values taken are a prefix of values sent and the rest is the channel's contents in order; `0 <= count <= cap`; `tail == (head + count) % cap`; a receiver asleep while items exist, or a sender asleep while space exists, implies a thread that still owes the signal or was woken and has not tested again |
| Channels.StepRefinesQueue | runtime/polaron_rt.cpp:1453-1501 | Each locked section appends the sender's value at the back, removes the front value, or leaves queue and histories alone, and which of the three is fixed by the queue alone; where the thread goes is stated by the outcome rows of `ChannelCalls` |
| ChannelCalls.ThreadsFollowTheirCalls | runtime/polaron_rt.cpp:1453-1501 | In every run each thread stands inside the operation it called last: a sender sleeps with the value it was called with, only a receiver sleeps for an item, and a non-blocking receive never sleeps |
| ChannelCalls.EverySendStoresOnce | runtime/polaron_rt.cpp:1453-1466 | In every run and for every value: as often as send calls were given it, it was stored or a caller still holds it |
| ChannelCalls.SendOutcome | runtime/polaron_rt.cpp:1456-1466 | A send sleeps exactly when the contents fill the capacity, keeping its value, and otherwise has stored it at the back; no other thread moves |
| ChannelCalls.ReceiveOutcome | runtime/polaron_rt.cpp:1470-1484 | A receive sleeps exactly when the contents are empty, and otherwise has the oldest value |
| ChannelCalls.TryReceiveOutcome | runtime/polaron_rt.cpp:1488-1501 | A non-blocking receive is over at once: with the oldest value when there is one, with nothing otherwise |
| ChannelCalls.SignalOutcome | runtime/polaron_rt.cpp:1464-1481 | A signal is spent by the thread that owed it and wakes exactly one sleeper of its kind when there is one |
| Channels.StepKeepsWakeUps | runtime/polaron_rt.cpp:1458-1500 | The wake-up invariant (items at most signals owed plus woken receivers while one sleeps; free space likewise for senders) survives every step, including late signals and spurious wake-ups |
| Channels.RunKeepsInvariant | runtime/polaron_rt.cpp:1427-1501 | The channel invariant holds after every run |
| Channels.NeverBothStranded | runtime/polaron_rt.cpp:1453-1484 | A sender and a receiver are never both asleep with nobody left to wake either |
| Channels.PutAppendsToContents | runtime/polaron_rt.cpp:1462-1464 | Storing at the tail of a channel that is not full appends to its contents, across the wrap-around |
| Channels.TakeRemovesOldest | runtime/polaron_rt.cpp:1478-1480 | Advancing the head removes the oldest value, across the wrap-around |
| Channels.TailIsRemainder | runtime/polaron_rt.cpp:1463-1479 | The tail index is the remainder the code computes |
| Channels.Channel.constructor | runtime/polaron_rt.cpp:1434-1451 | A capacity below one becomes one; the channel starts empty |
| Channels.Channel.SendLocked | runtime/polaron_rt.cpp:1459-1464 | One pass under the lock: stores and appends exactly when the channel is not full, and otherwise changes nothing |
| Channels.Channel.ReceiveLocked | runtime/polaron_rt.cpp:1475-1497 | One pass under the lock: removes and returns the oldest value exactly when there is one, and otherwise changes nothing |
| AsyncRuns.ContinuationsRunExactlyOnce | runtime/polaron_rt.cpp:1252-1422 | In every run in which the queue has room when something is scheduled: each registered continuation is in exactly one of waiter lists, detached lists, ready queue, taken; it is scheduled at most once, and never before its task is done and has an outcome stored; the queue hands out in order of scheduling |
| AsyncCalls.AwaitRegistersWhatWasPassed | runtime/polaron_rt.cpp:1398-1422 | In every run, an await that takes the lock belongs to the latest `CallAwait` of its thread; on a done task it goes on and registers nothing, otherwise it suspends and the entry it puts at the front of the waiters has the function, the state and the task that were passed |
| AsyncCalls.EveryRequestIsAnsweredOnce | runtime/polaron_rt.cpp:1326-1422 | In every run, for every function, state and origin: the calls that asked for it are exactly those registered, those whose caller has not taken the lock yet, and those answered at once because the task was done |
| AsyncCalls.WhatRunsWasAskedFor | runtime/polaron_rt.cpp:1275-1283 | What a worker takes was asked for by some call of the run, with that function, that state and, when it waited, on that task |
| AsyncCalls.ThreadsFollowTheirCalls | runtime/polaron_rt.cpp:1252-1422 | In every run a thread inside an operation is inside the one it called last, with the arguments it passed |
| AsyncCalls.TasksHoldWhatWasGiven | runtime/polaron_rt.cpp:1368-1391 | In every run a task holds the last value and the last error its completions gave, and is done only after one |
| AsyncCalls.WaitsAnswerWithWhatWasGiven | runtime/polaron_rt.cpp:4087-4099 | A blocking wait answers with a value that was the latest of its task's at some moment of the run, on the task it was called for |
| AsyncCalls.WakeOutcome | runtime/polaron_rt.cpp:1351-1364 | A completion marks its task done, hands on all waiters in list order, and touches no other task |
| AsyncCalls.WorkerOutcome | runtime/polaron_rt.cpp:1275-1283 | A worker takes the oldest entry of the queue, and sleeps exactly when there is none |
| AsyncRuns.QuietMeansAllTaken | runtime/polaron_rt.cpp:1275-1364 | When no thread holds detached continuations and the queue is empty, every continuation of a done task has been taken by a worker: none is lost |
| AsyncRuns.DoneMeansStored | runtime/polaron_rt.cpp:1368-1422 | An await that did not suspend implies a done task with an outcome stored; a blocking wait returns only on a done task and, when one value was stored, with that value |
| AsyncRuns.NobodyIsStranded | runtime/polaron_rt.cpp:1275-1364 | A worker asleep while work is queued, or a waiter asleep on a done task, implies a thread that still owes the wake-up or has been woken and not tested again |
| AsyncRuns.StepKeepsInvariant | runtime/polaron_rt.cpp:1275-1422 | Every step of await, completion, scheduling, worker and blocking wait keeps the whole invariant |
| AsyncRuns.RunKeepsInvariant | runtime/polaron_rt.cpp:1252-1422 | The invariant holds after every run |
| Async.PushAppendsIffRoom | runtime/polaron_rt.cpp:1335-1342 | Scheduling has no full check: it appends exactly when one slot stays free, and on the last slot the whole queue reads as empty |
| Async.PopTakesOldest | runtime/polaron_rt.cpp:1278-1283 | A worker takes the entry scheduled first |
| Async.ReadyQueue.Schedule | runtime/polaron_rt.cpp:1337-1340 | The locked half of scheduling updates the ring as the specification says, and appends while there is room |
| Async.ReadyQueue.TakeNext | runtime/polaron_rt.cpp:1277-1283 | The locked half of a worker's loop takes the oldest entry, or finds the queue empty and changes nothing |
| Async.TaskCell.AwaitLocked | runtime/polaron_rt.cpp:1416-1421 | Registers the continuation exactly when the task is not done |
| Async.TaskCell.WakeLocked | runtime/polaron_rt.cpp:1352-1356 | Marks the task done and takes all its waiters away, at once |
| HeapRuns.HeapIsSeparated | runtime/polaron_alloc_core.hpp:156-271 | In every run of allocations, frees by any thread, resizes and payload writes: no two blocks overlap, live or freed; live ones overlap no unused slab part and lie in their slab at 16-byte steps; following a free list from its head spells a finite chain; a block carries the freed stamp exactly when it is on the list of its class, and on one list once |
| HeapRuns.StepKeepsInvariant | runtime/polaron_alloc_core.hpp:156-271 | Layout, stamps, free lists, slab tails and accounting survive every step of every thread |
| HeapRuns.RunKeepsInvariant | runtime/polaron_alloc_core.hpp:121-271 | The heap invariant holds after every run from the empty heap |
| HeapRuns.AccountingIsConserved | runtime/polaron_alloc_core.hpp:128-140 | Summed over threads, the live count and each class counter equal the live blocks, whoever freed what; live bytes, plus what every large resize of the run added unheard (new size less recorded size), equal the recorded bytes plus what the 32-bit size field cut off every large allocation and resize |
| HeapRuns.BytesAreExact | runtime/polaron_alloc_core.hpp:128-140 | In runs without large resizes and without sizes of 2^32 or more, live bytes equal the recorded bytes |
| HeapRuns.RetiredSlabWastesLittle | runtime/polaron_alloc_core.hpp:186-194 | Of every slab retired in any run, at most 512 bytes were never laid out |
| HeapRuns.LargeBytesReturnIff | runtime/polaron_alloc_core.hpp:160-174 | Allocating and freeing a large block brings the byte counter back exactly when the size is below 2^32, because the header keeps 32 bits of it |
| HeapCalls.AllocateAnswers | runtime/polaron_alloc_core.hpp:156-205 | Allocation returns a payload of a block that was not live, at least as big as asked (a request of 0 counts as 1), and disturbs no live payload |
| HeapReuse.AllocationSource | runtime/polaron_alloc_core.hpp:156-205 | Where an allocation comes from: a request beyond the pool gets a block of its own; otherwise the block of the class freed last, with blocks and slabs unchanged, when the thread's list has one; otherwise the rest of the slab when it fits, with no slab opened; otherwise a new slab |
| HeapReuse.FreedComesBack | runtime/polaron_alloc_core.hpp:176-271 | After a thread frees a pooled block, whatever any other threads do, its next request of that class answers with that payload and lays nothing out |
| HeapReuse.FreeThenAllocateRestores | runtime/polaron_alloc_core.hpp:176-271 | Freeing a pooled block and asking again restores blocks, slabs, free lists and live set |
| HeapReuse.NoGrowthBeyondPeak | runtime/polaron_alloc_core.hpp:176-205 | In every run of one thread, the blocks ever laid out of a class are at most as many as were live at once |
| HeapReuse.AllocationIsARun | runtime/polaron_alloc_core.hpp:156-205 | An allocation is a run of the steps whose every run keeps the heap separated |
| HeapReuse.FittingResizeStays | runtime/polaron_rt.cpp:712-740 | A pooled block that still fits its class stays and nothing changes; one that does not is answered by the specified allocation |
| HeapCalls.ReallocateAnswers | runtime/polaron_rt.cpp:712-740 | Resizing returns a live block big enough, keeps every payload word the new block has room for, frees the old block when it moved, and disturbs no other live payload |
| HeapCalls.HeaderAt | runtime/polaron_alloc_core.hpp:220-254 | The two header stamps tell exactly which addresses are live blocks and which are freed ones |
| HeapAllocator.Allocator.Malloc | runtime/polaron_alloc_core.hpp:156-205 | The allocator in place does what the specified allocation does |
| HeapAllocator.Allocator.Free | runtime/polaron_alloc_core.hpp:207-271 | Frees exactly the live blocks; a block freed and not since reissued always panics as a double free and changes nothing; null and pointers without a heap stamp change nothing |
| HeapAllocator.Allocator.Realloc | runtime/polaron_rt.cpp:712-740 | The resize in place does what the specified one does; a null pointer allocates |
| InliningPass.InlineSelf | src/codegen/optimize.cpp:42-126 | The whole pass over one function leaves the same function (same arguments terminate, with the same values and memory, in both directions). A body that is not eligible (more than 80 instructions, no self-call, or a self-call directly among the arguments of another) is left as it was; an eligible one comes out under twice the budget, and either at the budget of 700 or 1500 or above, or with every self-call left refused by the inliner; with an inliner that accepts everything it always reaches the budget. The size is the original one doubled once per inlined call |
| InliningPass.InlineRound | src/codegen/optimize.cpp:98-124 | One round over the sites collected at its start, leaves the same function: the accepted ones among the first `k` are unfolded and no other call is, all sites are seen unless the budget is met first, and it reports whether any was unfolded; the result stays under twice the budget |
| InliningPass.UnfoldingIsSameFunction | src/codegen/optimize.cpp:29-30 | Replacing any of a body's self-calls by copies of that body leaves the same function |
| InliningPass.UnfoldingReaches | src/codegen/optimize.cpp:116-117 | What the original body computes, the unfolded body computes with the same fuel |
| InliningPass.FoldingReaches | src/codegen/optimize.cpp:116-117 | What the unfolded body computes, the original computes with twice the fuel |
| InliningPass.InliningUnfolds | src/codegen/optimize.cpp:112-121 | Inlining one site unfolds the body there and adds exactly the size of the copied body |
| InliningPass.SitesAreCalls | src/codegen/optimize.cpp:98-107 | The collected sites are exactly the self-calls |
| InliningPass.SitesInOrder | src/codegen/optimize.cpp:98-107 | Sites are collected in the order of the instructions: operands from the left, arguments before the call, arguments before the copied body |
| InliningPass.SitesDistinct | src/codegen/optimize.cpp:98-107 | No site is collected twice |
| InliningPass.OtherSitesStay | src/codegen/optimize.cpp:112-121 | Inlining one site leaves the other collected sites calls |
| InliningPass.SiteMeansCall | src/codegen/optimize.cpp:98-107 | A collected site is the place of a self-call, and a self-call is inside another's arguments exactly when its place continues the other's place in an argument |
| InliningPass.CopyAppears | src/codegen/optimize.cpp:116-117 | Where a site was inlined a copy of the body stands, with the call's arguments bound |
| InliningPass.CallsRemain | src/codegen/optimize.cpp:96-122 | Unfolding a body that calls itself leaves a body that calls itself, so the pass never runs out of sites |
| InliningPass.NestedMeans | src/codegen/optimize.cpp:70-92 | The nesting that makes the pass give up is a self-call that is directly an argument of another |
| InliningPass.RoundStep | src/codegen/optimize.cpp:112-122 | One accepted inlining of a round doubles the size, leaves the same function, and leaves every other collected site the call or the copy it was |
| ElisionSoundness.ElisionIsSound | src/codegen/cgutil.cpp:893-965 | For an invariant no unmentioned field can break and whose evaluation leaves the object alone, on an object whose unchecked methods assign no mentioned field and hand none to a callee that may write it: a method entered with the invariant true that returns leaves it true, however the object's methods, getters and setters call each other, although exits are checked only in the declaring class and only where the analysis says so; calls in the invariant are allowed |
| ElisionAnalysis.CanBreakInMeans | src/codegen/cgutil.cpp:920-965 | The check is left in exactly when the invariant mentions no field, or a statement that occurs anywhere in the body, through blocks, branches, loop parts and loop bodies, assigns or steps a target mentioning a field the invariant mentions, or is of a form the analysis does not know |
| ElisionAnalysis.CollectsWhatOccurs | src/codegen/cgutil.cpp:893-918 | A field is collected from an expression exactly when `this.f` occurs in it where the analysis looks |
| ElisionAnalysis.MayWriteMeans | src/codegen/cgutil.cpp:920-948 | A single statement is taken for a write exactly when it assigns or steps a target mentioning a field the invariant mentions, or is of an unknown form |
| ElisionAnalysis.ProbeKeepsNoCheck | src/prelude/lib/Collections.pol:912-920 | The shape of `HashMap.slotFor`, two declarations, a `while` that returns on a hit and otherwise assigns a local, and a return, has its check left out for every invariant that mentions a field |
| ElisionSoundness.InvokeKeeps | src/codegen/cgutil.cpp:959-965 | The induction over the call tree behind it, for every call depth; calls without `this.`, computed properties and setters are part of the tree |
| ElisionSoundness.ExecKeeps | src/codegen/cgutil.cpp:920-948 | A statement the analysis clears keeps the invariant, whatever the methods it calls assign, statements inside expressions included |
| ElisionSoundness.StoreKeeps | src/pir/lower.cpp:11203-11238 | An assignment to an unmentioned field or property keeps the invariant; a property with a setter is set by calling it, except inside the setter |
| ElisionSoundness.ForeignCallKeeps | src/codegen/cgutil.cpp:944-947 | A call outside the object, which may write any operand it is declared to write, keeps the invariant when none of those operands mentions a field of it; one that reaches the object by another expression runs the object's own method |
| ElisionSoundness.PlaceIsCollected | src/codegen/cgutil.cpp:893-918 | The place an expression stands for inside the object, when the text tells it, is inside one of the fields collected from it |
| ElisionSoundness.SoundIffLocal | src/codegen/cgutil.cpp:959-965 | Every body that may go unchecked keeps the invariant if and only if no field the invariant does not mention can make it false |
| ElisionSoundness.EveryEntryIsTrue | src/pir/lower.cpp:8887-8928 | Over any sequence of calls on an object whose unchecked methods, those of subclasses included, leave mentioned fields alone, each is entered with the invariant true, so what is assumed at entry is a fact |
| ElisionSoundness.KeptCheckDecides | src/codegen/cgutil.cpp:959-965 | Where the check is emitted, a method that returns has the invariant true, whatever it was entered with |
| InvariantReads.EvalOnTwin | src/codegen/cgutil.cpp:893-918 | An expression that reads only collected fields, through calls of the object's own methods in either spelling, its computed properties, closures in its fields and foreign methods, evaluates alike on any two objects that agree on those fields, and leaves both alone |
| InvariantReads.ReadingInvariantIsLocal | src/codegen/cgutil.cpp:893-965 | An invariant whose text, with the methods and getters it runs, reads collected fields only and hands no part of the object to a callee that may write it meets the condition on invariants |
| InvariantReads.ElisionIsSoundByInspection | src/codegen/cgutil.cpp:893-965 | Soundness under conditions read off the text of the class alone |
| InvariantReads.LengthInvariantIsLocal | src/prelude/lib/Collections.pol:877-879 | `this.keys.length() == this.cap`, `this.count <= this.data.length()` and any such comparison of a field with an answer of another meet the condition in every class where `length` does not write what it is called on |
| ElisionLimits.CallsInInvariantDefeatTheAnalysis | src/semantic/analyzer_typeof.cpp:3522-3577 | An invariant that asks for `this.size()`, `size()` or the computed property `this.size`: the field the answer comes from is not collected, a failing check is left out, and the method returns with the invariant false; no choice of own methods makes such a class meet the conditions |
| ElisionLimits.MentionedFieldIsSeen | src/semantic/analyzer_typeof.cpp:3522-3577 | The same invariants are admitted, in every spelling, once the field behind `size` is mentioned too |
| ElisionLimits.InheritedInvariantGoesUnchecked | src/pir/lower.cpp:8467-8481 | A method of a subclass that breaks an inherited invariant is not checked although the analysis says it can break it, and the next call of the declaring class's method is entered with the invariant false |
| ElisionLimits.SetInsideRuns | src/codegen/cgutil.cpp:944-947 | An assignment inside an expression, in a lambda or an arm of a `match`, is run and not seen by the analysis |
| ElisionLimits.CallOnFieldKeepsIff | src/codegen/cgutil.cpp:944-947 | `this.f.m(k);` on a mentioned field is cleared by the analysis in every class; it keeps the invariant exactly when nothing `m` leaves in the field makes the invariant false |
| ElisionLimits.CallPassingRuns | src/codegen/cgutil.cpp:944-947 | Passing a mentioned field to a closure that writes its parameter is cleared too, and replaces the field |
| ElisionLimits.CallHandingOnRuns | src/codegen/cgutil.cpp:944-947 | So is handing on the object itself, which replaces all of it |
| ElisionLimits.WritingCallDefeatsTheAnalysis | src/codegen/cgutil.cpp:944-947 | With the invariant `this.p.x >= 0`, a method that does `this.p.setX(-1);` has its check left out and returns with the invariant false |
| ElisionLimits.InnerEntryMayBeFalse | src/pir/lower.cpp:8887-8928 | A method that breaks the invariant, calls another and mends it passes its check; the call in between is entered, and returns, with the invariant false |
| Sha256.HashPieces | src/bundle/polb.cpp:29-110 | However a message below 2^61 bytes is cut into updates, the answer is the digest of FIPS 180-4: padded by section 5.1.1, folded block by block by section 6.2.2 |
| Sha256.Fingerprint | src/bundle/polb.cpp:161-165 | A bundle's fingerprint is the digest of its public interface text |
| Sha256.Hasher.Update | src/bundle/polb.cpp:73-86 | Buffering pieces of any length keeps the hash value equal to the fold over all whole blocks given so far, the rest in the buffer, and the byte count modulo 2^64 |
| Sha256.Hasher.Absorb | src/bundle/polb.cpp:76-84 | A piece that fits is buffered, and a full buffer is compressed exactly then |
| Sha256.Hasher.Expand | src/bundle/polb.cpp:48-59 | The 64 schedule words are those of section 6.2.2 step 1 |
| Sha256.Hasher.RunRounds | src/bundle/polb.cpp:60-69 | The 64 rounds on eight shifted variables compute section 6.2.2 step 3 |
| Sha256.Hasher.Block | src/bundle/polb.cpp:38-71 | Compressing in place adds the working variables to the hash value, section 6.2.2 |
| Sha256.Hasher.PadZeroBytes | src/bundle/polb.cpp:90-95 | The padding loop ends, after the one number of zeros that leaves eight bytes of a block |
| Sha256.Hasher.Pad | src/bundle/polb.cpp:88-100 | What is appended is exactly the padding of section 5.1.1 |
| Sha256.Hasher.LengthBytes | src/bundle/polb.cpp:96-99 | The eight shifted bytes are the bit length, most significant first |
| Sha256.Hasher.Final | src/bundle/polb.cpp:88-109 | The answer is the digest of everything given |
| Sha256.PadIsUnique | src/bundle/polb.cpp:92-95 | Only one number of zeros up to the bound leaves 56 bytes in the block |
| Sha256.PaddingIsWhole | src/bundle/polb.cpp:88-100 | The padded message is whole blocks, keeps the message in front, marks its end with 0x80, and is at most 72 bytes longer |
| Sha256.SumOrder | src/bundle/polb.cpp:58-58 | The code's order of the schedule sum and the standard's agree modulo 2^32 |
| ShaConstants.RoundConstantIsCubeRoot | src/bundle/polb.cpp:39-49 | Each of the 64 round constants is the first 32 bits of the fraction of a cube root, section 4.2.2 |
| ShaConstants.PrimesInOrder | src/bundle/polb.cpp:39-49 | They are the cube roots of the first 64 primes, in order, none left out |
| ShaConstants.InitialIsSquareRoots | src/bundle/polb.cpp:30-31 | The initial hash value is the first 32 bits of the fractions of the square roots of the first eight primes, section 5.3.3 |
| BlockStream.FoldFull | src/bundle/polb.cpp:81-84 | A piece that fills the current block folds exactly that block in |
| BlockStream.FoldShort | src/bundle/polb.cpp:74-86 | A piece that does not fill it changes nothing yet |
| PtrTables.PtrSet.Add | runtime/polaron_rt.cpp:1007-1026 | Answers 1 exactly on the first sight of a non-null pointer and then holds it, growth included; null counts as seen; the table stays under three quarters full and never beyond one doubling of what that needs |
| PtrTables.PtrSet.Grow | runtime/polaron_rt.cpp:963-985 | Rehashing into twice the slots keeps the members |
| PtrTables.PtrMap.Put | runtime/polaron_rt.cpp:1103-1120 | The key is bound to the value and no other binding changes, growth included; a null key is ignored |
| PtrTables.PtrMap.Get | runtime/polaron_rt.cpp:1087-1101 | Returns the latest value put, 0 for a key never put |
| PtrTables.PtrMap.Grow | runtime/polaron_rt.cpp:1037-1064 | Rehashing keys with their values keeps the map |
| PtrTables.FitsAfterGrowth | runtime/polaron_rt.cpp:1011-1013 | One growth is always enough to stay under three quarters full, and leaves no more than the one doubling the next entry asks for |
| Probing.Search | runtime/polaron_rt.cpp:1014-1023 | The probe loop ends, on the pointer's own slot exactly when the table holds it and on an empty slot otherwise |
| Probing.EndsEmptyMeansAbsent | runtime/polaron_rt.cpp:1017-1022 | A search that meets an empty slot has shown the pointer is nowhere in the table |
| Probing.InsertKeepsTable | runtime/polaron_rt.cpp:1024-1025 | Storing where the search ended keeps every pointer reachable from its home slot and adds exactly one member |
| Probing.MaskStays | runtime/polaron_rt.cpp:1014-1022 | Masking with one less than a power-of-two capacity stays in range, leaves indices alone and wraps the end to 0 |
| Probing.EmptySlot | runtime/polaron_rt.cpp:1011-1022 | A table below its capacity has an empty slot |
| ChainSets.HashedAnswers | runtime/polaron_rt.cpp:1007-1026 | On any sequence of adds the hashed set answers 1 exactly at each first sight of a non-null pointer |
| ChainSets.ChainAnswers | src/codegen/bridges.cpp:206-278 | On any sequence of adds the chain of 62-slot blocks answers 1 exactly at each first sight of a word |
| ChainSets.SetsAgreeIff | src/codegen/bridges.cpp:171-302 | The two sets answer alike on a sequence of adds exactly when it contains no null pointer |
| ChainSets.ChainSet.Add | src/codegen/bridges.cpp:206-278 | Answers whether the pointer is new and appends it at the end of the chain if so |
| ChainSets.ChainSet.Walk | src/codegen/bridges.cpp:222-251 | One walk finds the pointer or ends on the last block |
| ChainSets.ChainSet.StoreInNewBlock | src/codegen/bridges.cpp:264-272 | A full last block gets a new one chained behind it, holding the pointer, and the chain stays whole |
| ChainSets.MapAnswer | runtime/polaron_rt.cpp:1087-1120 | After any sequence of puts a get answers with the last value put under the key |
| Polb.RoundTripIff | src/bundle/polb.cpp:167-252 | The reader returns the bundle from its container, whatever follows, and stops exactly at its end, if and only if every length and count fits its prefix |
| Polb.PrefixesAreRejected | src/bundle/polb.cpp:203-252 | No proper prefix of a container is accepted |
| Polb.AcceptedExtends | src/bundle/polb.cpp:203-252 | What is accepted is accepted with anything behind it, means the same, and was read inside the buffer |
| Polb.FileFitsIff | src/bundle/polb.cpp:112-128 | Which bundles fit: 16-bit names, counts and list entries, 32-bit sections |
| PolbBytes.ContainerSpells | src/bundle/polb.cpp:167-201 | The container byte by byte: the letters POLB, format 4, flags and revision, the 32-byte fingerprint, three names, three sections and four counted lists in this order, every number least significant byte first |
| PolbBytes.FixedOffsets | src/bundle/polb.cpp:167-177 | The fixed part at its offsets 0, 4, 6, 8 and 10 to 42 |
| PolbWriter.WritePolb | src/bundle/polb.cpp:167-201 | The bytes appended are exactly the container of the bundle |
| PolbWriter.PutStr16 | src/bundle/polb.cpp:121-124 | A length cut to 16 bits, then the whole text |
| PolbWriter.PutU32 | src/bundle/polb.cpp:116-120 | Four bytes, least significant first, by shifting |
| PolbReader.ReadPolb | src/bundle/polb.cpp:203-252 | Accepts exactly what the format accepts; then every field is the one read and list entries are appended to those already there |
| PolbReader.WriteThenRead | src/bundle/polb.cpp:167-252 | Writing a bundle that fits and reading it, with anything behind it, into a fresh one brings back that bundle |
| PolbReader.Reader.U16 | src/bundle/polb.cpp:135-141 | A bounds-checked two-byte read: the number and the moved cursor, or 0 and a failed cursor left where it was |
| PolbReader.Reader.U32 | src/bundle/polb.cpp:142-150 | The same for four bytes, assembled by the loop |
| PolbReader.Reader.Str | src/bundle/polb.cpp:151-156 | The next bytes, or none and a failed cursor |
| PolbReader.Reader.Deps | src/bundle/polb.cpp:224-234 | A counted list read item by item, stopped by the first failure |
| Layouts.ReadsBack | src/bundle/polb.cpp:112-157 | For every layout of numbers, strings, pairs and counted lists: what is written at any place in a buffer reads back and is consumed exactly |
| Layouts.ReadExtends | src/bundle/polb.cpp:130-157 | A successful read looks at nothing behind what it consumed |
| Layouts.ReadMoves | src/bundle/polb.cpp:130-157 | The cursor never passes the end, never goes back, and a failed read is never forgiven |
| Layouts.ReadFits | src/bundle/polb.cpp:130-157 | Whatever a successful read returns fits its prefixes |
| WindowsArgs.CommandLineRoundTripIff | runtime/polaron_rt.cpp:2119-2147 | Parsing the built line by Microsoft's rules gives back the whole vector exactly when the program name has no quotation mark and, if it must be quoted, does not end in a backslash; the arguments behind a safe name always come back |
| WindowsArgs.ArgsParse | runtime/polaron_rt.cpp:2119-2147 | For every list of arguments, empty ones and any runs of backslashes and quotation marks included, quoting and parsing are inverse |
| WindowsArgs.EscapedParses | runtime/polaron_rt.cpp:2126-2145 | Between quotation marks the escaped form of any argument parses to the argument and ends where it should |
| WindowsArgs.PlainParses | runtime/polaron_rt.cpp:2120-2124 | An argument without blanks, tabs and quotation marks parses to itself unquoted, any backslashes included |
| WindowsArgs.LeftBareIff | runtime/polaron_rt.cpp:2119-2124 | An argument is left unquoted exactly when the parser reads it back as it stands and it has no line feed or vertical tab in it |
| WindowsArgs.BareParsesIff | runtime/polaron_rt.cpp:2119-2124 | A line that is one bare argument parses to it exactly when it is not empty and has no blank, tab or quotation mark |
| WindowsArgs.ProgramRoundTripIff | runtime/polaron_rt.cpp:2239-2243 | The program name, parsed by its special rule, survives exactly when it is safe |
| WindowsArgs.AppendWindowsArg | runtime/polaron_rt.cpp:2119-2147 | The loop appends exactly the quoted form |
| WindowsArgs.SplitUndoesJoin | runtime/polaron_rt.cpp:2151-2165 | Splitting at NULs undoes joining for arguments without NULs |
| WindowsArgs.SplitBlob | runtime/polaron_rt.cpp:2151-2165 | Returns the first `count` parts of the blob, all of them if there are fewer |
| WindowsArgs.BuildCommandLine | runtime/polaron_rt.cpp:2233-2243 | The line is the quoted parts with single spaces between |
| WindowsArgs.SpawnArgs | runtime/polaron_rt.cpp:2229-2243 | From blob to child: NUL-free arguments behind a safe program name arrive as they were |
| KeyHookLaws.EqualsIsEquivalence | src/cli/main.cpp:640-673 | Run on well-typed values of any nesting, the generated `equalsKey` never fails and is reflexive, symmetric and transitive |
| KeyHookLaws.EqualKeysHashAndCompareAlike | src/cli/main.cpp:640-774 | Keys the generated `equalsKey` calls equal have equal generated hashes and compare 0 |
| KeyHookLaws.CompareIsTotalPreorder | src/cli/main.cpp:716-774 | The generated `compareTo` answers -1, 0 or 1, mirrors when swapped, and chains: at most twice is at most, equal only if both were |
| KeyHookLaws.CompareDecidesEqualityIff | src/cli/main.cpp:458-461 | Comparing 0 always means equal keys exactly for the types all of whose key parts, at every depth, are ones `compareTo` looks at; boolean, ubyte, ushort, uint, ulong and address fields are not |
| KeyHookLaws.EqualsMeans | src/cli/main.cpp:640-673 | The generated body computes agreement in every key part |
| KeyHookLaws.HashMeans | src/cli/main.cpp:676-713 | The generated body computes the 17-seeded, 31-fold mix modulo 2^64 of the key parts |
| KeyHookLaws.CompareMeans | src/cli/main.cpp:716-774 | The generated statements compute the first deciding field in declaration order |
| KeyParts.KeyPartIff | src/parser/ast.h:405-430 | A field is part of the key exactly when its value is held in it (no pointer, reference or array) and its type is a built-in one, an enum, String or a value type |
| KeyParts.OrderedIff | src/cli/main.cpp:454-461 | A built-in field takes part in the ordering unless it is boolean, address, ubyte, ushort, uint or ulong |
| KeyParts.EveryBuiltInFieldCounts | src/cli/main.cpp:640-673 | Run on values that differ in a field of any built-in type, the generated `equalsKey` answers false, whatever the other fields |
| KeyParts.OtherFieldsDoNot | src/cli/main.cpp:640-673 | Values that differ only in fields that are not part of the key are equal keys |
| KeyHooks.ClassDecl.SynthesizeHooks | src/cli/main.cpp:487-774 | Exactly the hooks the class does not declare are pushed, in this order, with the generated bodies |
| KeyHooks.ClassDecl.BuildEquals | src/cli/main.cpp:640-673 | The loop builds the left-nested conjunction over the key fields, or `true` for none |
| KeyHooks.ClassDecl.BuildHash | src/cli/main.cpp:676-713 | The loop builds the mix over the same fields |
| KeyHooks.ClassDecl.BuildCompare | src/cli/main.cpp:716-774 | The loop builds the tests over the same fields and the final 0 |
| Vtables.MergeKeepsDispatch | src/cli/main.cpp:1489-1498 | The union of the imported layouts is duplicate-free and covers each bundle, and calling a method through it in a renumbered table reaches what it reached before, for bundles with distinct names |
| Vtables.DispatchKeptIff | src/cli/main.cpp:1063-1084 | Renumbering keeps dispatch for every table of a bundle exactly when the bundle numbers no known method twice |
| Vtables.TablesAgree | src/cli/main.cpp:1063-1084 | Tables of two bundles put into one merged slot only their own entries for the one name of that slot |
| Vtables.UnionIs | src/cli/main.cpp:1493-1497 | Adopting a layout repeats nothing, moves no number already given, and adds exactly the missing names |
| Vtables.UnionAllIs | src/cli/main.cpp:1489-1573 | The same over all imported layouts |
| Vtables.RemapVtable | src/cli/main.cpp:1063-1084 | Only a table one longer than the layout is renumbered; each slot gets its entry or null, and the destructor stays last |
| Vtables.Reconciled | src/cli/main.cpp:1587-1601 | The check passes exactly when every non-empty name of every bundle has a merged slot |
| Vtables.RenumberFor | src/cli/main.cpp:1489-1601 | Merge, check and renumber: the check passes, every named entry is found at its merged slot, the destructor is last |
| IpcRuns.ReceivedAreWholeFrames | runtime/polaron_rt.cpp:1863-2006 | In every interleaving of partial writes, partial reads and failures of either end: the frames received are exactly those that lie whole within the bytes read, in order, and all of them once every byte is read |
| IpcRuns.ReceivedIsWhatWasTaken | runtime/polaron_rt.cpp:1863-2006 | The same for any frames, empty ones and lengths of 2^32 or more included: received are the frames the bytes read so far spell |
| IpcRuns.QuietMeansAllReceived | runtime/polaron_rt.cpp:1863-2006 | Without failures no interleaving gets stuck: when no call can move a byte, everything sent has been received |
| IpcRuns.StepKeepsInvariant | runtime/polaron_rt.cpp:1863-2006 | Every write, read, failure and new frame keeps the wire a prefix of the stream and the bytes read made of received frames and one unfinished one |
| IpcRuns.StaysAlive | runtime/polaron_rt.cpp:1979-2006 | While only frames that can be sent are offered and neither end fails, both ends stay open: the receiver never meets a header of 0 |
| Ipc.Exchange | runtime/polaron_rt.cpp:1957-2006 | In a session that sends before it receives, on the methods themselves: whatever the short writes, short reads and failures, the frames received are a prefix of the frames sent; when no call fails they are all received |
| Ipc.CutStreamYieldsPrefix | runtime/polaron_rt.cpp:1979-2006 | A stream cut anywhere yields exactly the frames that lie whole before the cut |
| Ipc.CutFrameIsNone | runtime/polaron_rt.cpp:1988-2002 | A frame cut anywhere yields nothing |
| Ipc.StreamRoundTripIff | runtime/polaron_rt.cpp:1957-2006 | A stream brings back its frames exactly when none is empty and every length is below 2^32 |
| Ipc.Pipe.WriteAll | runtime/polaron_rt.cpp:1863-1881 | All of the data goes out, or a proper prefix and a failure; it succeeds when every call moves something |
| Ipc.Pipe.ReadAll | runtime/polaron_rt.cpp:1914-1954 | Exactly the next bytes, or a failure; it succeeds when they are there and every call moves something |
| Ipc.Pipe.Send | runtime/polaron_rt.cpp:1957-1975 | The wire gains a prefix of the frame, the whole of it exactly when the length is returned |
| Ipc.Pipe.Receive | runtime/polaron_rt.cpp:1979-2006 | A frame returned is the next one of the stream and is consumed; one that is there is returned when no call fails |
| ChunkedBumps.SlabIsLargeEnough | performance tests/region-sync/region_sync.cpp:226-228 | In every interleaving in which each thread frees only its own slots and holds at most `slotsPerThread`, the shared cursor stays within the slab, for runs of 64 slots and for runs of one |
| ChunkedBumps.StepKeepsInvariant | performance tests/region-sync/region_sync.cpp:177-199 | Every step of every thread, foreign frees included, keeps the partition |
| ChunkedBumps.RegionIsPartitioned | performance tests/region-sync/region_sync.cpp:177-214 | Everything below the cursor is a live slot, on one free list once, or in one thread's unused run |
| ChunkedBumps.HandedWasNotLive | performance tests/region-sync/region_sync.cpp:181-192 | A slot is handed out only when nobody holds it |
| ChunkedBumps.RunKeepsBound | performance tests/region-sync/region_sync.cpp:177-228 | No thread ever owns a full run more than its peak |
| ChunkedBumps.PayloadsAreDisjoint | performance tests/region-sync/region_sync.cpp:37-39 | Payloads of different slots do not overlap |
| ChunkedBumps.Bump.Allocate | performance tests/region-sync/region_sync.cpp:181-192 | The allocator in place performs the specified steps |
| ChunkedBumps.Bump.Free | performance tests/region-sync/region_sync.cpp:194-199 | A freed slot goes to the front of the freeing thread's own list |
| LoopInterchange.Interchange | performance tests/c-reference/matrixmul_ikj.c:20-28 | For every size, inputs and arithmetic, the two nests leave equal arrays, each cell the row-by-column sum accumulated from the left |
| LoopInterchange.MultiplyIjk | performance tests/c-reference/matrixmul.c:19-27 | The original nest fills every cell with its full sum |
| LoopInterchange.MultiplyIkj | performance tests/c-reference/matrixmul_ikj.c:20-28 | The interchanged nest fills every cell with the same sum, although it visits it once per term |
| LoopInterchange.AtIsInjective | performance tests/c-reference/matrixmul_ikj.c:25-25 | Different cells have different places `i*n+j` |
| DecimalText.DecimalRoundTripIff | src/codegen/cgutil.cpp:435-467 | Reading what is printed denotes exactly the signed mantissa if and only if the fraction is below 10^18 |
| DecimalText.PrintAndRead | runtime/polaron_rt.cpp:746-781 | Printer and reader together keep the mantissa, in at most 40 bytes with the terminator |
| DecimalText.PrintedReadsBack | runtime/polaron_rt.cpp:746-781 | What is printed reads back as sign, integer digits and all eighteen fraction digits, trimmed zeros included |
| DecimalText.PrintedFits | runtime/polaron_rt.cpp:776-779 | At most 39 characters and a terminator |
| DecimalText.DecimalStr | runtime/polaron_rt.cpp:746-781 | The loops print the specified text |
| DecimalText.DecimalScaledString | src/codegen/cgutil.cpp:435-467 | The loops drop underscores, split at the first dot, cut or fill the fraction to eighteen digits |
| DecimalMeaning.ScaledMeans | src/codegen/cgutil.cpp:435-467 | Every lexeme, with underscores anywhere, a plus, a minus or no sign, no integer part, no fraction or a fraction of any length, scales to exactly the number it writes times 10^18, cut towards zero, with its sign |
| DecimalMeaning.ScaledIs | src/codegen/cgutil.cpp:435-467 | The text it scales to: a minus kept and a plus dropped, 0 for a missing integer part, and the fraction cut or filled to eighteen digits |
| DecimalMeaning.UnderscoresGo | src/codegen/cgutil.cpp:435-440 | Underscores between any pieces of a lexeme say nothing |
| DecimalMeaning.PrintedIsShortest | runtime/polaron_rt.cpp:746-781 | The printed form is the shortest: a minus exactly for negatives, no needless zero in front, no final zero in the fraction and no point without one |
| DecimalText.ItoaIsTheDecimalForm | runtime/polaron_rt.cpp:3954-3966 | For every 64-bit integer, the least included, the text denotes it, has no needless sign or zero, is the only such text, and has at most 20 characters |
| DecimalText.Itoa | runtime/polaron_rt.cpp:3954-3966 | The digit loops print that text, negating without overflow |

## Left out

Assumptions the model makes:

- The worker pool has been started, allocation succeeds, memory is sequentially consistent, and locks and condition variables do what they promise; time-outs are failures of a call.
- Scheduling is modelled only while the ready queue has room; `Async.PushAppendsIffRoom` says what happens without.
- The heap backend hands out memory nothing else uses; sizes stay below 2^64 - 16; a pointer given to `free` is null, one of the heap's own, or does not by accident carry one of its stamps.
- Memory is modelled in words of eight bytes, so payload sizes that are not multiples of eight are rounded up, and a large block that moves keeps whole words.
- Handles given to the runtime (tasks, channels, pointer sets and maps, pipes) are not null; null keys and null pointers inside them are modelled.
- Overflow of the 64-bit counters of bytes and blocks is not modelled.

Contracts weaker than one might wish:

- ElisionSoundness.ElisionIsSound: the condition on bodies (`TameClass`) is sufficient; a call that may write a mentioned field can still leave the invariant true. Values are copied, so pointers into an object, methods that answer with a reference to part of it kept in locals or parameters, and callees that call back into the object are not modelled; a foreign call may answer with a part of its operands, used within the same expression.
- ElisionSoundness.ExecKeeps: an expression form the analysis does not look into has one operand (`Other`), or one operand and statements that are run where it is evaluated, as often and on the arguments that its operand decides (`Bodied`): arms of a `match`, and lambdas handed to a call. A lambda kept for later is not modelled. `move` and forms like it are calls that may write their operand.
- InvariantReads.EvalOnTwin: an overloaded operator on an object, and a computed property of another object, are the calls they stand for. A bare name that is called is a method of the object if there is one of that name that no closure field hides; a local closure of the same name is not modelled.
- InliningPass.InlineSelf: functions are bodies of a small call-by-value language with memory; whether LLVM accepts a site is an arbitrary answer, and only direct self-calls exist.
- KeyHookLaws.CompareIsTotalPreorder: scalars are integers, so NaN and the order of floating-point values are not covered; String is ordered lexicographically and its hash is any function of its content.
- Ipc.Exchange: the methods' session sends before it receives; `IpcRuns` has all interleavings.
- IpcRuns.ReceivedAreWholeFrames: an end stops at its first failure; what a caller that sends again on a broken connection would get is not modelled.
- ChunkedBumps.SlabIsLargeEnough: one allocator per set of threads, as the harness creates them.
- WindowsArgs.CommandLineRoundTripIff: the child is assumed to use the documented parser; characters are not encoded into bytes.
- DecimalText.DecimalScaledString: says what the loops compute for any text; texts that are no decimal lexeme (a second point, a sign inside, other characters) are given no numeric meaning.
- HeapReuse.NoGrowthBeyondPeak: for one thread; with several, a block freed by another thread goes to that thread's list (`HeapReuse.FreedComesBack`), so what one thread laid out may be waiting in another's list.

Not modelled:

- Keyed persistents (`runtime/polaron_rt.cpp:788-950`): growth places entries by another hash than insertion does.
- `quoteArg` in `src/driver/process.cpp`, which is a different and simpler quoting.
- Lazy pool start-up, channel and task destruction, profiler hooks, backtraces, the environment block of a child process.
- Sockets, files, consoles, certificates, code loading and unloading: calls into the operating system.
- The parser, the analyser, PIR and LLVM themselves; generated bodies are interpreted, not lowered.
- Slots a consumer numbers for its own methods behind the merged layout.
- Diagnostics of the hook synthesiser, and hooks a class writes itself: the laws are about classes whose three hooks are all generated.
- Semantic version comparison, FNV hashing of text, and the benchmarks other than the two matrix nests and the region allocators.
