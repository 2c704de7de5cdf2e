# tinyState: verified models of the runtime's core

tinyState is a C++ runtime for cooperative state machines. This project models the parts of it whose
correctness is hard to see by reading, and proves what they promise. Each part has one Dafny module
for its steps or values and the theorems about them and, where the source changes objects in place,
a second module with the objects themselves, whose methods are proved against the first. `Common.dfy`
holds what several parts share.

| part | theorems | objects |
|---|---|---|
| reference-count collector (`stdObject.cpp`) | `RefGc.dfy`, `RefGcCallers.dfy`, `RefGcEvents.dfy`, `RefGcProgress.dfy` | `StdObjects.dfy` |
| event dispatcher and pool hand-off (`tinyState.cpp`) | `Dispatcher.dfy`, `DispatchSteps.dfy` | `TinyState.dfy` |
| depth-capped nesting (`tinyState.cpp`, `tsGC.cpp`, `sCallSection.h`) | `Nesting.dfy` | `Nesting.dfy` |
| worker pool (`tsThread.cpp`) | `Pool.dfy` | `TsThread.dfy` |
| waiting lines (`stdQueue.h`, `stdLimitSemaphore.cpp`) | `WaitQueue.dfy` | `WaitQueues.dfy` |
| limit semaphore (`stdLimitSemaphore.cpp`) | `LimitSemaphore.dfy`, `LimitOrder.dfy` | `LimitSemaphore.dfy` |
| read/write lock (`stdMutex.cpp`) | `RwLock.dfy` | `RwLock.dfy` |
| string tree (`stdStringTree.cpp`) | `StringTree.dfy` | `StringTreeNodes.dfy` |
| pointer heap (`stdHalfOrderQueue.cpp`) | `HalfOrderQueue.dfy` | `HalfOrderNodes.dfy` |
| fork/join group (`ts2Parallel.cpp`) | `Parallel.dfy` | `ParallelGroup.dfy` |
| FFT (`mthFFT.cpp`) | `Algebra.dfy`, `Fft.dfy` | `Fft.dfy` |
| determinant, product and Cramer's rule (`mthMatrix.cpp`, `mthMatrix.h`) | `Algebra.dfy`, `Determinant.dfy` | `Matrix.dfy`, `MatrixLimits.dfy` |

**Protocols.** A protocol is a `State`, an `Action` type with one constructor per critical section
(or per move inside one), a predicate `Enabled` that says what the source and its stated client
discipline allow, and `Exec(acts)`: the state after any list of actions, where an action that is not
enabled is skipped. A theorem about `Exec(acts)` for all `acts` is a theorem about every
interleaving. History kept only for stating theorems (accepted events, holders, completed jobs) is in
the state too, and never read by the steps that model code. In `TinyState.dfy` and `TsThread.dfy` an
object carries the list of actions taken so far; its `Valid()` says that its fields agree with
`Exec` of that list, so the theorems hold of the object whenever a method returns. What other threads
do while a mutex is released is an arbitrary script. What a step does is stated twice over: from the
history of the calls alone (the last transition asked for, the last watch given, the order in which
callers were queued), and as what the step changes at the moment at which a run takes it.

**Where the promise and the code differ.** Each is shown on a concrete run or input, together with the
condition under which the promise does hold:

- The pool hand-off loses its token when a worker comes in while the object is in a thread state of the
  zombie phase: the C_ZOM test turns it away before thrQueueing_flag is lowered
  (`Dispatcher.ZombieThreadStrands`). `Dispatcher.HandOffInRun` proves that a run hands off exactly at
  every moment if and only if no worker is turned away in it, and `Dispatcher.HandOffExact` that all
  runs of a class do if and only if the class has no such state.
- An idle root bucket does not mean that the collector is done (`RefGc.RootIdleIsNotEnough`); with no
  climber and no claimed child unvisited it does (`RefGc.NothingStranded`).
- Arming a drop watch a second time can break the refEvent queue, because relref does not reset the
  tail's `next` (`StdObjects.ArmedTwice`). `StdObjects.Table.Enqueue` proves the queue right exactly
  when `next` was null, and arming at most once keeps it so (`StdObjects.Table.RelrefSection`).
- finish() of the pool is said to check its conditions together under the mutex; the code reads them one
  after the other without it. A job submitted before the flag is set can be discarded
  (`Pool.LatchedJobDiscarded`), and the flag can be set while a job is between the two queues
  (`Pool.LatchedWithJobInHand`). What teardown loses was submitted after finish() read `ready` as empty
  (`Pool.LostCameAfterTheRead`), and every earlier job is completed (`Pool.EarlyJobsComplete`).
- Callers of the limit semaphore that retry while queued can strand a free slot
  (`LimitSemaphore.StaleEntryStrands`); a run in which nobody does strands none
  (`LimitSemaphore.ReadyRunServes`), and no run does exactly when callers keep to is_ready
  (`LimitSemaphore.ServedIffReady`).
- A caller queued for writing that calls read_lock under readers is granted, and its entry stays in the
  queue (`RwLock.QueuedWriterReads`); `RwLock.QueuedCannotAcquire` says exactly which calls of a queued
  caller are granted.
- `equation` does not check the number of rows of v. With more rows than the matrix it still solves the
  matrix's own rows, puts ones below, and solves the further rows only where v is zero
  (`Matrix.Mat.Equation`, `MatrixLimits.LongSystem`); with fewer rows even the rows given need not be
  solved (`MatrixLimits.ShortSystem`).
- `operator*` sums over the rows of the left matrix instead of its columns: [1 1] times the column (1, 1)
  is 1 (`MatrixLimits.TimesLeavesTermsOut`). `Matrix.Mat.Times` proves each entry right exactly when
  there are at least as many rows as columns, or the terms left out add up to zero.
- ACT_EXE needs its panic: without it a cap at or below the collector's depth delivers nothing, for
  ever (`Nesting.Runtime.Spin`).

## Model

| member | source | states |
|---|---|---|
| `RefGc.InvAlways` | src/classes/ts2/c++/stdObject.cpp:68-263 | in every interleaving of clients, climbers, the collector, wait_stable and finish, the bucket-tree, sleeping and reference-count invariants all hold |
| `RefGc.NothingStranded` | src/classes/ts2/c++/stdObject.cpp:77-131 | each non-root bucket with work has its parent's bit set, a climber standing at it, or is claimed by gc and not yet visited; root idle, no climber and nothing claimed imply that all 101 buckets are idle |
| `RefGc.UnclaimedMeans` | src/classes/ts2/c++/stdObject.cpp:194-229 | the stack of gc activations has nothing claimed exactly when no bucket is claimed and unvisited |
| `RefGc.RootIdleIsNotEnough` | src/classes/ts2/c++/stdObject.cpp:194-208 | a run in which the root is idle and nobody climbs while a child bucket still holds work |
| `RefGc.NoMutualSleep` | src/classes/ts2/c++/stdObject.cpp:171-191 | while the collector lives, an un-notified sleeping finish() or wait_stable() means the collector is awake or notified; after its exit finish() is not left asleep |
| `RefGc.ExitSignalReachesFinish` | src/classes/ts2/c++/stdObject.cpp:232-263 | the one signal at the collector's exit has the same effect whatever waiter the scheduler prefers, and leaves no finish() asleep |
| `RefGc.CountsExact` | src/classes/ts2/c++/stdObject.cpp:68-107 | ref is handles plus the decrement owed to a queued or running refEvent; an object is in at most one list; refEvent fires at most once; ref is zero exactly when queued for deletion; no panic is reached |
| `RefGc.DeletedForever` | src/classes/ts2/c++/stdObject.cpp:209-224 | after deletion no step touches the object again, so it is deleted once |
| `RefGcCallers.CallersAccounted` | src/classes/ts2/c++/stdObject.cpp:171-191 | every call of wait_stable() made in a run is asleep, woken or has returned; finish() counts as called exactly when it was |
| `RefGcCallers.WaitStableWaits` | src/classes/ts2/c++/stdObject.cpp:171-176 | wait_stable() returns exactly when it is called, or looks again after a wakeup, at a moment when the root is idle |
| `RefGcCallers.FinishWaits` | src/classes/ts2/c++/stdObject.cpp:179-191 | finish() returns exactly when it looks again after the collector has left |
| `RefGcCallers.CollectorLeaves` | src/classes/ts2/c++/stdObject.cpp:232-262 | the collector leaves exactly when it finds the root idle after finish() was called |
| `RefGcCallers.RefIsHeld` | src/classes/ts2/c++/stdObject.cpp:68-107 | ref is the references taken less those given back over the whole run, plus the one a queued or running refEvent stands for; an object nobody holds is deleted or listed for it |
| `RefGcCallers.WatchIsLastGiven` | src/classes/ts2/c++/stdObject.cpp:54-59 | the drop watch holds the value it was last given until it fires, and -1 from then on |
| `RefGcCallers.ReleaseMeans` | src/classes/ts2/c++/stdObject.cpp:77-107 | a release fires the watch exactly when it is set and at most watch + 1 references were held; otherwise there is one reference fewer, and the last one dooms the object; no other object changes |
| `RefGcCallers.OwedMeans` | src/classes/ts2/c++/stdObject.cpp:218-224 | the release after refEvent() leaves ref at the number of holders and dooms the object exactly if there is none |
| `RefGcEvents.FiredInOrder` | src/classes/ts2/c++/stdObject.cpp:92-100 | the refEvents of a bucket are called in the order in which they fell due, each once: those called, then those pending, are those that fell due |
| `RefGcProgress.WorkRunsOut` | src/classes/ts2/c++/stdObject.cpp:116-263 | however the collector and the climbers are scheduled, they take no more steps on their own than the work there is when the callers pause |
| `RefGcProgress.ComesToRest` | src/classes/ts2/c++/stdObject.cpp:194-263 | from every state of every run they can be run to rest; then, unless the collector has left, it sleeps, all 101 buckets are idle, no refEvent is outstanding, and every object is deleted or has ref equal to its holders |
| `RefGcProgress.SweptAtRest` | src/classes/ts2/c++/stdObject.cpp:194-263 | the same of any run in which neither has a step left to take |
| `RefGcProgress.ShutdownCompletes` | src/classes/ts2/c++/stdObject.cpp:171-263 | at rest the collector has left exactly if finish() was called, finish() is then awake or has returned, and without it no wait_stable() is left asleep |
| `StdObjects.Table.Append` | src/classes/ts2/c++/stdObject.cpp:94-99 | the pointer writes of the refEvent queue: head, tail and the old tail's next, nothing else |
| `StdObjects.Table.Enqueue` | src/classes/ts2/c++/stdObject.cpp:92-100 | the queue stays a proper list if and only if the new tail's next was null, and then it is the old one with the object appended |
| `StdObjects.ArmedTwice` | src/classes/ts2/c++/stdObject.cpp:92-100 | two objects queued, the bucket taken, and a second firing of the first leaves a broken queue |
| `StdObjects.Table.RelrefSection` | src/classes/ts2/c++/stdObject.cpp:77-115 | the first critical section of relref does exactly the model's step: count, watch, list, panic and where a climb starts; also for an object that waits in the refEvent queue; the queue stays right because a watch is armed at most once |
| `StdObjects.Table.ClimbSection` | src/classes/ts2/c++/stdObject.cpp:116-130 | one turn of the climb does exactly the model's step on the parent's flag byte |
| `StdObjects.Table.ClimbAll` | src/classes/ts2/c++/stdObject.cpp:116-130 | the climbing loop, stopping early at a set bit, leaves every bucket with work reported upwards |
| `StdObjects.Table.Relref` | src/classes/ts2/c++/stdObject.cpp:77-131 | an undisturbed relref: the count, the watch and the list the object is in afterwards, with every bucket with work reported all the way up |
| `StdObjects.Table.TakeSection` | src/classes/ts2/c++/stdObject.cpp:200-208 | gc's critical section hands out exactly the bucket's two lists and flags and leaves it idle, the others as they were |
| `StdObjects.Table.TakeBucket` | src/classes/ts2/c++/stdObject.cpp:200-208 | the objects taken for deletion have no reference left; those taken for refEvent are in no list; what arming once gives still holds |
| `StdObjects.DeleteAll` | src/classes/ts2/c++/stdObject.cpp:209-217 | the deletion loop destroys every object of the detached list in order unless one has references, in which case it reports the panic |
| `StdObjects.Table.FireAll` | src/classes/ts2/c++/stdObject.cpp:218-224 | the refEvent loop: every object of the detached queue has its callback and then its owed release, in order, whatever references the callbacks take; an object is listed for deletion exactly when that was the last reference |
| `StdObjects.EnteringIsUnlisted` | src/classes/ts2/c++/stdObject.cpp:77-107 | in every run, a holder's release that puts an object in a list finds it in none and its watch never fired before |
| `StdObjects.RelrefIsLocal` | src/classes/ts2/c++/stdObject.cpp:77-107 | in any state of a run, relref does what it does in the small state the section is proved against, and touches no other object |
| `Dispatcher.NeverOverlap` | src/classes/ts2/c++/tinyState.cpp:923-1040 | at most one thread is past state_lock: state functions of one object never overlap |
| `Dispatcher.QueueExact` | src/classes/ts2/c++/tinyState.cpp:700-750 | unlocked means an empty queue; accepted events leave in order, each once; a once-only bit is set exactly while one event of its type is queued |
| `Dispatcher.TokenAlways` | src/classes/ts2/c++/tinyState.cpp:972-999 | thrQueueing_flag is set exactly when one token is out, never a second; an event that met a thread state without a worker leaves a token out once the object is unlocked |
| `Dispatcher.ZombieThreadStrands` | src/classes/ts2/c++/tinyState.cpp:926-941 | a run that ends with the flag up and no token when a thread state lies in the zombie phase |
| `Dispatcher.HandOffInRun` | src/classes/ts2/c++/tinyState.cpp:923-1076 | a run hands off exactly at every moment if and only if no worker is turned away by the zombie test in it |
| `Dispatcher.HandOffExact` | src/classes/ts2/c++/tinyState.cpp:923-1076 | all runs of a class hand off exactly if and only if it has no thread state in the zombie phase |
| `DispatchSteps.StateIsLastAsked` | src/classes/ts2/c++/tinyState.cpp:671-681 | in every run the object is in the state last asked for, by a function's answer or by an event that met a state without a function; nothing else moves it |
| `DispatchSteps.RunsTheEventTaken` | src/classes/ts2/c++/tinyState.cpp:951-1003 | the event at the filter, under evaluation or in a running function is the one last taken or last made by the filter; a function runs only where there is one, that of a thread state only on a worker |
| `DispatchSteps.EnterMeans` | src/classes/ts2/c++/tinyState.cpp:923-948 | an event is refused exactly by a zombie or if it is once-only and one of its type waits; the caller becomes the owner exactly if there is none and the object lives; a worker behind an owner takes the flag down |
| `DispatchSteps.MoveMeans` | src/classes/ts2/c++/tinyState.cpp:950-1036 | the owner takes the oldest accepted event not yet taken; a missing function leads to the error state with the same event; a thread state away from the pool raises the flag and owes one insertion if it was down; state_lock is given up exactly when nothing waits |
| `DispatchSteps.ReturnMeans` | src/classes/ts2/c++/tinyState.cpp:1000-1025 | an answer decides the state, whether the same event is evaluated again, the next is taken or the loop ends, and only the last state may throw away what waits |
| `DispatchSteps.FilterMeans` | src/classes/ts2/c++/tinyState.cpp:955-961 | a swallowed event ends the inner loop; what the filter makes of another is evaluated |
| `DispatchSteps.LeaveMeans` | src/classes/ts2/c++/tinyState.cpp:1052-1076 | a leaving thread puts the object in the pool's queue exactly if it owes that |
| `TinyState.Object.InsEvent` | src/classes/ts2/c++/tinyState.cpp:725-750 | _insEvent: what joins the queue and which once-only bit is set |
| `TinyState.Object.DelEvent` | src/classes/ts2/c++/tinyState.cpp:700-709 | _delEvent: the head leaves the queue and its once-only bit is cleared |
| `TinyState.Object.Enter` | src/classes/ts2/c++/tinyState.cpp:923-948 | from taking lm to the first decision: turned away by C_ZOM, queued behind the owner with the token retracted, or owner; what queue, flag and state are then |
| `TinyState.Object.Decide` | src/classes/ts2/c++/tinyState.cpp:966-999 | the evaluation of a state: run here, ask the pool once, or run on the worker |
| `TinyState.Object.Apply` | src/classes/ts2/c++/tinyState.cpp:1000-1025 | the state afterwards for each answer (the one asked for, the last one of all, or the old one), what is left of the queue, and where the loop goes on |
| `TinyState.Object.Evaluate` | src/classes/ts2/c++/tinyState.cpp:962-1022 | the innermost loop, for any script of the other threads, is a run of the dispatcher and ends |
| `TinyState.Object.Drain` | src/classes/ts2/c++/tinyState.cpp:951-1026 | the inner loop, with the filter call, is a run of the dispatcher and ends with an empty queue, a swallowed event or ZOM |
| `TinyState.Object.EventHandler` | src/classes/ts2/c++/tinyState.cpp:923-1076 | the whole handler, whatever happens while lm is released, is a run of the dispatcher that leaves no trace of the calling thread |
| `Nesting.Conserved` | src/classes/ts2/c++/tinyState.cpp:814-921 | what one capped dispatch handles plus what it defers is exactly the tree of sends |
| `Nesting.Capped` | src/classes/ts2/c++/tinyState.cpp:814-921 | no entry without an exemption runs deeper than the cap |
| `Nesting.HandledExactly` | src/classes/ts2/c++/tinyState.cpp:814-921 | an entry is handled, at the depth of its way through the tree, exactly if neither it nor anything above it is plain, below the outermost, beyond the cap and with a collector to take it; the first such entry on a way is deferred, with all below it |
| `Nesting.FitsUnderCap` | src/classes/ts2/c++/tinyState.cpp:814-921 | a tree that fits under the cap is handled at once, in the order of unbounded nesting |
| `Nesting.LateIsPlain` | src/classes/ts2/c++/tinyState.cpp:814-921 | INI dispatches, the collector and pool dispatches are never deferred |
| `Nesting.Runtime.EventHandler` | src/classes/ts2/c++/tinyState.cpp:814-921 | the recursive handler with its depth guard handles and defers exactly what the functions say and restores the depth |
| `Nesting.Runtime.Dispatch` | src/h/ts2/c++/sCallSection.h:96-119 | accounting of one dispatch: handled plus owed grows by exactly the tree, and an escape handles nothing |
| `Nesting.Runtime.ActExe` | src/classes/ts2/c++/tsGC.cpp:225-321 | panics exactly when the cap does not exceed its own depth; otherwise delivers one entry, and that delivery makes progress |
| `Nesting.Runtime.Act` | src/classes/ts2/c++/tsGC.cpp:180-321 | the collector's cycle, giving way at any moment, ends with an empty queue and nothing lost |
| `Nesting.Runtime.Spin` | src/classes/ts2/c++/tsGC.cpp:265-283 | without the panic, any number of deliveries under too small a cap handles nothing and leaves the queue as it was |
| `Nesting.Run` | src/classes/ts2/c++/tsGC.cpp:122-131 | for any root sends on threads of any depth and a cap above the collector's depth: every entry of every tree is handled exactly once, none beyond the cap, and the run ends |
| `Pool.KeepAliveAndConservation` | src/classes/ts2/c++/tsThread.cpp:395-411 | whenever the mutex is free the keep-alive bit is 1 iff ready or run holds a job and every submitted job is in exactly one of ready, run, completed, discarded, dropped; the target is always within the limit |
| `Pool.FirstInFirstOut` | src/classes/ts2/c++/tsThread.cpp:487-487 | the jobs that wait are the last ones submitted, in order: none is overtaken, and while a job waits no younger one has been taken |
| `Pool.HeadMeans` | src/classes/ts2/c++/tsThread.cpp:742-761 | a worker leaves exactly if there are more than the target; else it takes the oldest waiting job, and sleeps only if none waits |
| `Pool.WakeMeans` | src/classes/ts2/c++/tsThread.cpp:751-759 | a signalled worker goes round again; one that timed out takes the oldest waiting job, and leaves only if none waits |
| `Pool.InsMeans` | src/classes/ts2/c++/tsThread.cpp:455-490 | a job goes behind all that wait and sets the bit, unless the pool is folded |
| `Pool.JobMeans` | src/classes/ts2/c++/tsThread.cpp:759-840 | a job taken is run, with the mutex free, and completed when it returns |
| `Pool.RunThreadsMeans` | src/classes/ts2/c++/tsThread.cpp:575-593 | the target follows the request up to the limit; workers are made up to it and none is stopped |
| `Pool.LimitMeans` | src/classes/ts2/c++/tsThread.cpp:641-652 | the limit has a floor of two and the target is cut down to it |
| `Pool.DrainMeans` | src/classes/ts2/c++/tsThread.cpp:947-952 | draining asks for no workers and loses no job |
| `Pool.FoldMeans` | src/classes/ts2/c++/tsThread.cpp:953-1005 | folding gives up exactly the jobs that still wait, in order, and lowers the bit |
| `Pool.FlagHasReasons` | src/classes/ts2/c++/tsThread.cpp:617-632 | whenever the flag is set there were, in this order, a moment with ready empty, one with run empty and a stable collector before it |
| `Pool.QuietFinishLatches` | src/classes/ts2/c++/tsThread.cpp:617-632 | a call that finds both queues empty and the collector stable, undisturbed, sets the flag |
| `Pool.FoldedForGood` | src/classes/ts2/c++/tsThread.cpp:953-1005 | once folded no worker is live, both queues are empty and the bit is 0, after any further calls |
| `Pool.LostCameAfterTheRead` | src/classes/ts2/c++/tsThread.cpp:617-632 | a job discarded or dropped by teardown was submitted after finish() read ready->count as zero |
| `Pool.EarlyJobsComplete` | src/classes/ts2/c++/tsThread.cpp:617-632 | every job submitted before that reading is completed by the time the pool is folded |
| `Pool.LatchedJobDiscarded` | src/classes/ts2/c++/tsThread.cpp:617-632 | a run in which a job submitted before finish() set its flag is discarded at the fold |
| `Pool.LatchedWithJobInHand` | src/classes/ts2/c++/tsThread.cpp:745-760 | a run in which finish() sets its flag while a worker holds a job between ready->del and run->ins |
| `Pool.FoldKeeps` | src/classes/ts2/c++/tsThread.cpp:953-1005 | with no worker left nothing is running when the pool folds |
| `TsThread.TsThread.Ins` | src/classes/ts2/c++/tsThread.cpp:455-490 | queue the job and set the bit, or drop it when the pool is folded |
| `TsThread.TsThread.Create` | src/classes/ts2/c++/tsThread.cpp:545-567 | the loop starts exactly num workers and counts them |
| `TsThread.TsThread.RunThreadsNolock` | src/classes/ts2/c++/tsThread.cpp:575-585 | the target is clamped to the limit and missing workers are created |
| `TsThread.TsThread.LimitThreads` | src/classes/ts2/c++/tsThread.cpp:641-652 | the limit has a floor of two and the target is re-applied under it |
| `TsThread.TsThread.Finish` | src/classes/ts2/c++/tsThread.cpp:617-632 | the three unlocked reads with others acting in between; it sets its flag only if ready was empty when read and the collector stable, and leaves a set flag set |
| `TsThread.TsThread.FinDrained` | src/classes/ts2/c++/tsThread.cpp:947-952 | the target goes to zero and the pool starts to drain |
| `TsThread.TsThread.FinWait` | src/classes/ts2/c++/tsThread.cpp:953-1005 | waits for the workers; then gives up exactly the ready jobs, clears the bit and folds |
| `TsThread.TsThread.LoopHead` | src/classes/ts2/c++/tsThread.cpp:742-761 | the head of the worker loop: leave exactly above the target, take the head of ready, or sleep when it is empty |
| `TsThread.TsThread.PutOnRun` | src/classes/ts2/c++/tsThread.cpp:760-823 | the job taken goes on the run queue and the mutex is released for it |
| `TsThread.TsThread.AfterWait` | src/classes/ts2/c++/tsThread.cpp:751-759 | after the timed wait: around again on a signal, else the head of ready, or leave when it is empty |
| `TsThread.TsThread.AfterJob` | src/classes/ts2/c++/tsThread.cpp:830-840 | the job leaves the run queue and the bit falls with the last one; the mutex is let go only then |
| `TsThread.TsThread.YieldMutex` | src/classes/ts2/c++/tsThread.cpp:739-843 | a worker that holds the mutex lets go of it after at most two steps |
| `TsThread.TsThread.Body` | src/classes/ts2/c++/tsThread.cpp:731-847 | the worker body, with other threads acting whenever the mutex is released, is a run of the pool in which it takes one step a turn until it leaves |
| `WaitQueue.FlatUnique` | src/classes/ts2/c++/stdLimitSemaphore.cpp:37-41 | there is only one line in key order with given buckets |
| `WaitQueue.InsFlat` | src/classes/ts2/c++/stdLimitSemaphore.cpp:50-58 | pushing to the back or front of a bucket flattens to what the list insertion builds, insNeq and the largest key included |
| `WaitQueue.HeadFlat` | src/classes/ts2/c++/stdLimitSemaphore.cpp:66-79 | the front of the smallest bucket is the head of the list, and without it the buckets flatten to its tail |
| `WaitQueue.InsAtIsMiddle` | src/h/ts2/c++/stdQueue.h:98-113 | the insertion in key order puts the element where the loop stops |
| `WaitQueues.LinkedQueue.Ins` | src/h/ts2/c++/stdQueue.h:86-121 | the linked list afterwards spells the insertion, head, tail and count included |
| `WaitQueues.LinkedQueue.FindPlace` | src/h/ts2/c++/stdQueue.h:98-109 | the loop finds the two neighbours of the place |
| `WaitQueues.LinkedQueue.Del` | src/h/ts2/c++/stdQueue.h:186-199 | the head leaves; the rest is unchanged |
| `WaitQueues.LinkedQueue.Check` | src/h/ts2/c++/stdQueue.h:271-284 | the linear scan answers membership |
| `WaitQueues.Buckets.WIns` | src/classes/ts2/c++/stdLimitSemaphore.cpp:50-58 | the buckets, index and count now stand for the list insertion |
| `WaitQueues.Buckets.WHas` | src/classes/ts2/c++/stdLimitSemaphore.cpp:60-63 | the index answers what a linear scan of the list would |
| `WaitQueues.Buckets.WDel` | src/classes/ts2/c++/stdLimitSemaphore.cpp:66-79 | removes and returns the head of the list |
| `WaitQueues.Lockstep` | src/classes/ts2/c++/stdLimitSemaphore.cpp:37-80 | any mix of insertions (nobody twice), removals, membership tests and insNeq changes gets from both lines the answers that replaying it on the sorted list gives, and both count what that leaves waiting |
| `LimitSemaphore.CountIsHolders` | src/classes/ts2/c++/stdLimitSemaphore.cpp:118-167 | in every run, disciplined or not, count is the number of holders |
| `LimitSemaphore.GetKeeps` | src/classes/ts2/c++/stdLimitSemaphore.cpp:118-136 | get takes a slot only below the limit, one at a time, and for its caller |
| `LimitSemaphore.AlwaysServed` | src/classes/ts2/c++/stdLimitSemaphore.cpp:118-224 | under the is_ready discipline a non-empty queue implies that free slots are at most the woken callers yet to retry, through raises and cuts of the limit |
| `LimitSemaphore.ReadyRunServes` | src/classes/ts2/c++/stdLimitSemaphore.cpp:118-224 | a run in which nobody calls get while queued strands no slot, at its end or on the way |
| `LimitSemaphore.StaleEntryStrands` | src/classes/ts2/c++/stdLimitSemaphore.cpp:139-147 | a run without the discipline that leaves a waiter, a free slot and nobody woken |
| `LimitSemaphore.ServedIffReady` | src/classes/ts2/c++/stdLimitSemaphore.cpp:139-147 | no slot is ever stranded if and only if callers keep to is_ready |
| `LimitOrder.SettingsKept` | src/classes/ts2/c++/stdLimitSemaphore.cpp:169-224 | priority mode, insNeq and the limit are what they were last set to; a limit below one is not accepted |
| `LimitOrder.LineInOrder` | src/classes/ts2/c++/stdLimitSemaphore.cpp:130-137 | in every run each waiter stands under the key it asked for (its priority if enablePriority was on at that call, else the largest), in key order, and among equals first or last come according to insNeq at the time |
| `LimitOrder.GetMeans` | src/classes/ts2/c++/stdLimitSemaphore.cpp:118-148 | a slot is granted exactly if fewer hold one than the limit last set; otherwise the caller waits, once, under what it asks for now if it did not wait before |
| `LimitOrder.ReleaseWakesFirst` | src/classes/ts2/c++/stdLimitSemaphore.cpp:150-167 | a release that leaves a slot free wakes the waiter that is served before all others, and nobody else |
| `LimitOrder.RaiseWakes` | src/classes/ts2/c++/stdLimitSemaphore.cpp:200-224 | a raise wakes the first in line, one for each new slot; no other change of the limit wakes anybody |
| `LimitSemaphore.Semaphore.Get` | src/classes/ts2/c++/stdLimitSemaphore.cpp:118-148 | grants below the limit, else queues the caller once: where Ins puts it under its priority, or at the tail with the largest key when priorities are off |
| `LimitSemaphore.Semaphore.Release` | src/classes/ts2/c++/stdLimitSemaphore.cpp:150-167 | panics at zero; otherwise frees a slot and wakes the head if that slot is below the limit |
| `LimitSemaphore.Semaphore.Limit` | src/classes/ts2/c++/stdLimitSemaphore.cpp:200-224 | a raise wakes one waiter per new slot while there are any; a cut wakes nobody; below one is ignored |
| `RwLock.Exclusion` | src/classes/ts2/c++/stdMutex.cpp:32-120 | a writer excludes everyone, readers exclude writers, and callers wait only while the lock is held |
| `RwLock.QueuedCannotAcquire` | src/classes/ts2/c++/stdMutex.cpp:32-86 | a queued caller retrying for what it was queued for gets nothing and changes nothing; which calls of a queued caller are granted, exactly |
| `RwLock.QueuedWriterReads` | src/classes/ts2/c++/stdMutex.cpp:32-86 | a run in which a caller queued for writing is granted a read and stays queued |
| `RwLock.FreeingWakesAll` | src/classes/ts2/c++/stdMutex.cpp:89-120 | whenever a release frees the lock, all who waited have been woken in order and nobody holds it |
| `RwLock.ReleaseFrees` | src/classes/ts2/c++/stdMutex.cpp:89-120 | a writer's release leaves the lock free, the queue empty and all who waited woken in order; a reader's release leaves exactly one hold fewer and does the same when it was the last |
| `RwLock.LockGrants` | src/classes/ts2/c++/stdMutex.cpp:32-86 | reading is granted exactly if no writer holds, writing exactly if nobody does; a caller not granted waits, once |
| `RwLock.AllReleased` | src/classes/ts2/c++/stdMutex.cpp:89-120 | once every hold is released, in any order, the lock is free, nobody waits and the next caller is granted |
| `RwLock.StdMutex.ReadLock` | src/classes/ts2/c++/stdMutex.cpp:32-58 | granted unless a writer holds; else queued once |
| `RwLock.StdMutex.WriteLock` | src/classes/ts2/c++/stdMutex.cpp:61-86 | granted when free; else queued once |
| `RwLock.StdMutex.Release` | src/classes/ts2/c++/stdMutex.cpp:89-120 | a writer's release or the last reader's leaves count 0 and an empty queue with everyone who waited woken in order; any other reader's leaves one reader fewer and the queue alone |
| `StringTree.Match` | src/classes/ts2/c++/stdStringTree.cpp:54-70 | the loop computes the length of the longest common prefix |
| `StringTree.SearchExact` | src/classes/ts2/c++/stdStringTree.cpp:142-158 | search returns e exactly when some path spells the key and ends at e |
| `StringTree.InsExact` | src/classes/ts2/c++/stdStringTree.cpp:73-128 | insertion (with its splits) keeps the tree well formed, stores the key with its entry and leaves every other key alone |
| `StringTree.DelExact` | src/classes/ts2/c++/stdStringTree.cpp:283-322 | deletion (with unlinking and merging) removes exactly the key |
| `StringTree.DelShape` | src/classes/ts2/c++/stdStringTree.cpp:283-322 | deletion keeps the tree well formed and returns what search would have found |
| `StringTree.Refines` | src/classes/ts2/c++/stdStringTree.cpp:73-322 | after any history of insertions and deletions the tree is well formed and stores exactly the finite map the history makes |
| `StringTree.LongestExact` | src/classes/ts2/c++/stdStringTree.cpp:160-187 | the search that remembers partial entries returns the longest hit below the node, else what it was given |
| `StringTree.LongestRefines` | src/classes/ts2/c++/stdStringTree.cpp:160-270 | on the map: the exact entry, else the longest proper prefix with a partial entry and its length, else nothing |
| `StringTree.Canonical` | src/classes/ts2/c++/stdStringTree.cpp:73-322 | two well-formed trees with the same contents have the same shape up to sibling order |
| `StringTree.HistoryIndependent` | src/classes/ts2/c++/stdStringTree.cpp:73-322 | any two histories that end in the same map end in the same tree up to sibling order |
| `StringTree.CountIsKeys` | src/classes/ts2/c++/stdStringTree.cpp:44-52 | count() is the number of keys stored |
| `StringTree.NodesBelowTwiceKeys` | src/classes/ts2/c++/stdStringTree.cpp:73-322 | fewer than twice as many nodes below the root as keys; no nodes without keys |
| `StringTreeNodes.TreeNode.Split` | src/classes/ts2/c++/stdStringTree.cpp:90-115 | the in-place split around a reset node gives the split tree |
| `StringTreeNodes.TreeNode.Ins` | src/classes/ts2/c++/stdStringTree.cpp:73-128 | insertion on linked nodes gives the tree the function gives |
| `StringTreeNodes.TreeNode.TidyUp` | src/classes/ts2/c++/stdStringTree.cpp:305-317 | a node without object is unlinked when childless and swallows an only child |
| `StringTreeNodes.TreeNode.Del` | src/classes/ts2/c++/stdStringTree.cpp:283-322 | deletion on linked nodes gives the tree and the object the function gives |
| `StringTreeNodes.TreeNode.FindChild` | src/classes/ts2/c++/stdStringTree.cpp:148-156 | the sibling loop finds the only child that can lead on |
| `StringTreeNodes.TreeNode.Search` | src/classes/ts2/c++/stdStringTree.cpp:142-158 | search on linked nodes |
| `StringTreeNodes.TreeNode.SearchLongest` | src/classes/ts2/c++/stdStringTree.cpp:160-187 | the remembering search on linked nodes |
| `StringTreeNodes.StringTable.Ins` | src/classes/ts2/c++/stdStringTree.cpp:130-140 | the client's table gains or overwrites exactly one key |
| `StringTreeNodes.StringTable.Del` | src/classes/ts2/c++/stdStringTree.cpp:325-335 | the table loses exactly one key, whose entry is returned |
| `StringTreeNodes.StringTable.Search` | src/classes/ts2/c++/stdStringTree.cpp:229-239 | lookup in the table |
| `StringTreeNodes.StringTable.SearchMatch` | src/classes/ts2/c++/stdStringTree.cpp:241-270 | the exact entry or the longest stored proper prefix marked partial, with match_len; zero when there is neither |
| `HalfOrderQueue.HeightIsLog` | src/classes/ts2/c++/stdHalfOrderQueue.cpp:22-63 | the height is floor(log2 n) + 1 |
| `HalfOrderQueue.InsExact` | src/classes/ts2/c++/stdHalfOrderQueue.cpp:13-63 | insertion keeps counts, balance, shape and heap order and adds exactly one pair |
| `HalfOrderQueue.DelExact` | src/classes/ts2/c++/stdHalfOrderQueue.cpp:64-131 | deletion returns a pair of smallest key, removes exactly it, and keeps counts, balance, shape and heap order |
| `HalfOrderNodes.HeapNode.Ins` | src/classes/ts2/c++/stdHalfOrderQueue.cpp:22-63 | _ins on linked nodes gives the tree the function gives |
| `HalfOrderNodes.HeapNode.CutLeaf` | src/classes/ts2/c++/stdHalfOrderQueue.cpp:79-102 | the first walk of del: counts down along the path, unlinks a leaf of the larger side and keeps its contents |
| `HalfOrderNodes.HeapNode.SinkHere` | src/classes/ts2/c++/stdHalfOrderQueue.cpp:103-129 | the second walk of del: the pair on top sinks to its place |
| `HalfOrderNodes.Queue.Ins` | src/classes/ts2/c++/stdHalfOrderQueue.cpp:13-21 | the queue's contents gain exactly the pair |
| `HalfOrderNodes.Queue.Del` | src/classes/ts2/c++/stdHalfOrderQueue.cpp:64-131 | nothing from the empty queue, else a pair of smallest key, removed exactly once |
| `HalfOrderNodes.Queue.Count` | src/classes/ts2/c++/stdHalfOrderQueue.cpp:132-138 | count() is the number of pairs held |
| `Parallel.ReturnsOnceAtTheEnd` | src/classes/ts2/c++/ts2Parallel.cpp:340-369 | TSE_RETURN is sent at most once, only after the root's body and all siblings; and it has been sent when they are done and no wakeup is pending |
| `Parallel.NobodyForgotten` | src/classes/ts2/c++/ts2Parallel.cpp:302-369 | the chain holds exactly the unfinished siblings, every sibling got a body, a waiting root has a sibling left or a wakeup pending |
| `Parallel.WhoIsAtWork` | src/classes/ts2/c++/ts2Parallel.cpp:302-369 | the siblings at work are those that were started and whose body has not finished; the root is in its body until that has finished |
| `Parallel.AnsweredWhen` | src/classes/ts2/c++/ts2Parallel.cpp:340-369 | TSE_RETURN has been sent only if every started worker has finished, and has been sent if they all have and no wakeup is pending |
| `Parallel.EventMeans` | src/classes/ts2/c++/ts2Parallel.cpp:340-359 | an event that reaches the waiting root finishes the group exactly if no sibling is left, and a wakeup is used up by it |
| `ParallelGroup.Group.IniStart` | src/classes/ts2/c++/ts2Parallel.cpp:302-320 | a sibling goes to the front of the chain and copies the root's body |
| `ParallelGroup.Group.Before` | src/classes/ts2/c++/ts2Parallel.cpp:362-363 | the walk finds the pointer to the worker |
| `ParallelGroup.Group.FinStart` | src/classes/ts2/c++/ts2Parallel.cpp:360-368 | unlinks exactly this worker and wakes the root if it was the last |
| `ParallelGroup.Group.FinStartRoot` | src/classes/ts2/c++/ts2Parallel.cpp:340-359 | waits while the chain is not empty; then drops the body and answers |
| `Fft.RevInvolutive` | src/classes/mth2/c++/mthFFT.cpp:27-41 | bit reversal is an involution of the index range |
| `Fft.Fft.UpsideDown` | src/classes/mth2/c++/mthFFT.cpp:27-41 | the shifting loop computes the bit reversal and stays in range |
| `Fft.Fft.Permute` | src/classes/mth2/c++/mthFFT.cpp:53-54 | every input lands at its reversed index |
| `Fft.Fft.AllLevels` | src/classes/mth2/c++/mthFFT.cpp:55-68 | the outer loop leads from the permuted input to the last level |
| `Fft.Fft.FastFt` | src/classes/mth2/c++/mthFFT.cpp:43-69 | the in-place butterflies after bit reversal compute exactly the naive transform, for every beki >= 1 |
| `Fft.Fft.Exe` | src/classes/mth2/c++/mthFFT.cpp:72-88 | the transform, scaled unless sign is positive |
| `Fft.SplitIsEval` | src/classes/mth2/c++/mthFFT.cpp:57-68 | the even/odd recursion behind the levels is evaluation of the polynomial at powers of the root |
| `Fft.RoundTrip` | src/classes/mth2/c++/mthFFT.cpp:72-88 | transforming, scaling and transforming with the inverse root is the identity over any commutative ring with such a root |
| `Fft.ForwardThenInverse` | src/classes/mth2/c++/mthFFT.cpp:72-88 | exe forward then exe inverse returns the input array |
| `Fft.ComplexIsRing` | src/classes/mth2/c++/mthFFT.cpp:60-62 | complex multiplication and addition meet the ring laws the theorems ask for |
| `Determinant.SwapColumns` | src/classes/mth2/c++/mthMatrix.cpp:9-34 | exchanging two neighbouring columns negates the first-row expansion |
| `Determinant.SwapRows` | src/classes/mth2/c++/mthMatrix.cpp:9-34 | exchanging two neighbouring rows negates it |
| `Determinant.RepeatedRow` | src/classes/mth2/c++/mthMatrix.cpp:9-34 | a repeated row makes it zero |
| `Determinant.Cramer` | src/classes/mth2/c++/mthMatrix.cpp:81-103 | a row of the matrix times the determinants with patched columns is the right-hand side times the determinant |
| `Matrix.Mat.Minor` | src/classes/mth2/c++/mthMatrix.cpp:22-29 | the loops fill the minor without the first row and one column |
| `Matrix.Mat.Determinant` | src/classes/mth2/c++/mthMatrix.cpp:9-34 | the loop with its alternating sign computes the first-row expansion; zero when not square or empty |
| `Matrix.Mat.Patch` | src/classes/mth2/c++/mthMatrix.cpp:97-100 | the determinant with one column replaced by a column of v |
| `Matrix.Mat.Equation` | src/classes/mth2/c++/mthMatrix.cpp:81-103 | the error matrix exactly for a singular, empty or non-square matrix; otherwise every entry is a patched determinant over the determinant, and if v has at least as many rows as A: A*x = v in every row of A, ones below, and in all rows of v if and only if v is zero below |
| `Matrix.Mat.Times` | src/h/mth2/c++/mthMatrix.h:136-151 | operator* refuses shapes that do not fit; every entry is the sum over as many terms as there are rows, and is the product's exactly when rows cover columns or the terms left out add up to zero |
| `Matrix.Mat.WhenProduct` | src/h/mth2/c++/mthMatrix.h:145-147 | when a sum over k terms is the entry of the product |
| `Matrix.Mat.SolveAndMultiply` | src/classes/mth2/c++/mthMatrix.cpp:81-103 | multiplying back is possible exactly when v has as many rows as A, and then returns v |
| `MatrixLimits.LongSystem` | src/classes/mth2/c++/mthMatrix.cpp:94-101 | a system with a further row that the answer leaves unsolved |
| `MatrixLimits.ShortSystem` | src/classes/mth2/c++/mthMatrix.cpp:94-101 | a system with a row missing whose given row the answer does not solve |
| `MatrixLimits.TimesLeavesTermsOut` | src/h/mth2/c++/mthMatrix.h:145-147 | [1 1] times (1, 1) gives 1 where the product is 2 |

## Left out

- Mutexes and condition variables are primitives, with spurious wakeups; the pthread layer (sThreadMutex, sThreadCond), sObject's allocation ledgers, stack sizes and the platform's depth limit are not modelled. The depth cap is a parameter.
- Sockets, descriptors, processes, signals, fwIO's select loop and the JavaScript under src/scripts2 are not modelled.
- Probes, traces, printParent and the thread-information bookkeeping (signal, kill) are diagnostics or platform calls and are not modelled.
- User state functions and filters are arbitrary results; filters are taken to let TSE_THREAD through, as the hand-off needs. The mask of once-only events is a parameter that does not hold TSE_THREAD, which is how inherit() sets it.
- RefGc: clients are disciplined (only holders addref or relref, the drop watch is armed once per object), as the source asks of them; refEvent itself is an arbitrary callback that may addref. The methods of StdObjects are single sections and undisturbed loops; other threads come in between them in RefGc.
- Dispatcher: the pool is the number of ready entries for this object, before the pool is folded; listeners (invoke_state) and the application mutex do not touch the modelled fields and are left out.
- Nesting: a send is a finite tree fixed in advance; the collector's own wakeup inside exe() is not an entry, and jobs given up when the collector is destroyed are left out. The collector's queue hands out any of its entries, since all have the same priority.
- Pool: the count of a queue is read and written in one piece; runThreads(n) is not called once the pool drains; setup and cleanup hooks, the timers that raise and lower the target, and thread_stop, which nothing sets, are left out. currentRunThreads is not claimed to reach the target, since idle workers leave.
- LimitSemaphore: destruction of the semaphore while callers wait is left out, here and in RwLock.
- WaitQueues.LinkedQueue: insertion next to a reference element, deletion by comparison and set_tail are left out; nothing modelled here uses them.
- StringTree: keys hold no NUL and stored objects are not null, so one option stands for obj and partial_flag; reverse lookup by object is left out because an entry at the empty key is reported like "not found".
- StringTreeNodes.TreeNode.Ins: the loop over siblings is a recursion along next here and in Del, because the ghost value of every earlier sibling changes with it; the read-only loops of the searches are loops.
- HalfOrderNodes.HeapNode.CutLeaf: the two walks of del are recursions, because the ghost value of every node on the path changes with them; the source's branch that unlinks a leaf on the right is unreachable and has no counterpart. Keys and counts are unbounded integers.
- Parallel: cancel and destroy, which only send events to the workers, and the choice between TS_STATE and TS_THREAD bodies are left out; spawn is called from a body that has not finished.
- Fft.Fft.FastFt: floating-point rounding is not modelled; the root table is a parameter that holds the powers of the root.
- Matrix.Mat.Equation: exact arithmetic over a field; rounding and the conversion to double inside det are not modelled. For a v with fewer rows than the matrix it says what each entry is, but gives no condition under which the rows are solved all the same.
- stdBalancedTree, stdBuffer, sBufferHandle, stdArrayQueue, sHalfArray, stdSemaphore and the other numeric code are not modelled.
