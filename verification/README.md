# The kernel's core, modelled and proved

This project models the parts of the kernel whose correctness depends on several functions, locks
or processes at once, and proves what they keep. It has six layers and two round trips. In all of
them the table sizes (`MAX_THREADS`, `SCHED_QUEUES`, `YIELD_RUNS`, `MAX_PROC`, `MAX_FILES`,
`MAX_FILEID`, `PIPE_BUFFER_SIZE`, stack and memory sizes) and the number of cores are arbitrary.

| files | what they model |
|---|---|
| SchedModel, SchedInvariant, SchedRuns, SchedWaiting, SchedLaws, SchedOrder, SchedHeader, SchedEffects, Scheduler | the multi-level feedback queue scheduler of `src/kernel/kernel_sched.c`, one step per section under `sched_spinlock`; Scheduler is the imperative form |
| Sequences, RingTheory, ListTheory, ResourceList | the intrusive lists of `include/util.h`: what one splice does to circular doubly linked rings, the list operations as sequence operations, and the operations on heap nodes |
| CondVar, CondWaiters | condition variables of `old/kernel_cc.c`, with wake-ups that race with signals; CondWaiters is the imperative form |
| KernelMonitor, MonitorReturns, MonitorWaiters | the kernel lock of `old/kernel_cc.c`, a semaphore built as a monitor, as an interleaving of per-thread programs; MonitorWaiters shows that it uses its condition variable as CondVar describes |
| ProcTable, ProcInvariant, ProcRuns, ProcWaits, Processes | the process table of `old/kernel_proc.c` with the exit path of `old/kernel_threads.c`; Processes is the imperative form |
| StreamTable, StreamCalls, StreamEffects, Streams | reference-counted file control blocks of `old/kernel_streams.c` and `src/kernel/kernel_streams.c`, shared between processes; Streams is the imperative form |
| Pipe, PipeBuffer | the bounded pipe of `old/kernel_pipe.c`; PipeBuffer is the imperative form on a ring of heap cells |
| ArgPack, Context, Bytes | argument packing of `include/util.h`, and the AVR context switch of `src/arch/avr/context.S` and `src/arch/avr/cpu.c` |

Each imperative routine is proved equal to its step function, and the laws are proved about the
step functions: the invariants over every run, what calls return in the end, and what single
operations change and leave alone.

Clock readings, the scheduling cause of a yield, what a stream's Close returns, and the moment of
every wake-up are parameters or steps of the environment. Locks are atomic.

## Where the code differs from what is written about it

* The scheduler header says that a thread is queued exactly when it is READY and CTX_CLEAN
  (`include/kernel/kernel_sched.h:56-61`). Of a normal thread this is true exactly when no core is
  in the middle of a hand-over to it, and of an idle thread exactly when that is not READY and
  CTX_CLEAN (HeaderHoldsIff); every yield with a thread queued leads to a state in which it is
  false, and such a state is reachable in every kernel (HeaderFails). QueuesExact is the refined
  form that holds always.
* `sched_register_timeout` keeps the invariant exactly when the computed wake-up time, modulo the
  range of the clock, is not `NO_TIMEOUT` (SleepInvIff); a sleeper that meets the other case is
  reachable (SleepFails).
* `rlist_pop_back` splices the sentinel with its last node. That removes just the tail only for a
  list of at most one node; a longer list is emptied (PopBackLaw, PopBackIff).
* The comment in `cpu_initialize_context` gives the byte order of the return address the wrong way
  round; the code is right, since `ret` pops the high byte first (FirstSwap).
* A failed `FCB_reserve` leaves the free list reversed if its rollback ran (ReserveLaw), and
  `FCB_unreserve` leaves a stale counter on a free block, so counters mean something only off the
  free list.
* `exitval` is never reset. A process whose last thread calls ThreadExit without Exit hands its
  parent whatever the previous process in the same control block left (StaleStatus); a status is
  the process's own exactly when it called Exit (WaitDelivers).
* The assertions at the end of `sys_ThreadExit` fail exactly when the last thread of the initial
  process calls it while that process still has children (ExitAssertsIff), as it has after its
  first Exec (ExitAssertsFail).
* It is not true of the kernel monitor that a free kernel with sleeping waiters always has a woken
  thread: between raising the counter and signalling there may be none (SignallerWindow). It is
  true whenever `kernel_mutex` is free (WokenWhileMutexFree), and also, counting the signaller, in
  every state (StepNotStuck). The mutex being held does not make it false: something else may have
  woken a thread beside the signaller (WokenBesideSignaller).

## Model

| member | source | states |
|---|---|---|
| SchedRuns.RunsAreSafe | src/kernel/kernel_sched.c:235-531 | in every run on any number of cores a used thread is in exactly the run queue of its priority iff it is READY, CTX_CLEAN and not in mid hand-off; it is in the timeout list iff STOPPED with a time; never in both; no thread is current on two cores; `active_threads` is the number of used slots |
| SchedInvariant.WakeupInv | src/kernel/kernel_sched.c:349-370 | a wake-up of any used thread keeps the whole scheduler invariant, also one that arrives between a thread's sleep and its hand-off |
| SchedInvariant.SleepInvIff | src/kernel/kernel_sched.c:235-250 | sleeping with a timeout keeps the invariant iff the wake-up time does not come out as NO_TIMEOUT |
| SchedInvariant.ExpireInv | src/kernel/kernel_sched.c:295-305 | an expiry pass keeps the invariant |
| SchedInvariant.SelectInv | src/kernel/kernel_sched.c:313-332 | selecting and handing over a core keeps the invariant |
| SchedInvariant.SelectedIsFree | src/kernel/kernel_sched.c:313-332 | the selected thread is on no other core |
| SchedInvariant.GainInv | src/kernel/kernel_sched.c:494-523 | the second half of a switch keeps the invariant, whether it queues, releases or leaves the previous thread |
| SchedInvariant.GainPrevious | src/kernel/kernel_sched.c:505-521 | the previous thread in `gain` is neither INIT nor RUNNING |
| SchedInvariant.SpawnInv | src/kernel/kernel_sched.c:97-144 | spawning, also with no slot left, keeps the invariant |
| SchedInvariant.CountYieldInv | src/kernel/kernel_sched.c:407-430 | counting a yield and boosting keeps the invariant |
| SchedWaiting.BoundedWaiting | src/kernel/kernel_sched.c:313-344 | whatever the other threads do, a thread queued at priority p is dispatched within p times YIELD_RUNS plus the number of thread slots yields |
| SchedWaiting.YieldRank | src/kernel/kernel_sched.c:407-467 | every yield dispatches a waiting thread or lowers the bound on its wait |
| SchedWaiting.OtherStepRank | src/kernel/kernel_sched.c:349-403 | no wake-up, sleep, hand-off or spawn of other threads raises that bound |
| SchedLaws.BoostLaw | src/kernel/kernel_sched.c:334-344 | a boost keeps the concatenation of all queues, lifts each queued thread exactly one level, empties the last queue and changes no other thread |
| SchedLaws.ExpiryLaw | src/kernel/kernel_sched.c:295-305 | an expiry pass wakes exactly the sleepers whose time has come, in list order, into the queues of their priorities |
| SchedOrder.TimeoutsInOrder | src/kernel/kernel_sched.c:235-305 | after any run the timeout list is sorted by wake-up time, and sleepers with equal times stand in the order of their registrations |
| SchedLaws.RegisterIsStable | src/kernel/kernel_sched.c:235-250 | a sleeper that registers goes behind exactly those that wake no later; the list stays sorted and the others keep their order |
| SchedHeader.HeaderHoldsIff | include/kernel/kernel_sched.h:56-61 | exactly when the header's invariant holds of a thread |
| SchedHeader.SelectBreaksHeader | src/kernel/kernel_sched.c:313-332 | a selected queued thread is READY and CTX_CLEAN and in no queue, so the header's form fails for it |
| SchedHeader.HeaderFails | include/kernel/kernel_sched.h:56-61 | a run from boot, in any kernel with a thread slot, after which it fails |
| SchedHeader.SleepFails | src/kernel/kernel_sched.c:235-250 | a run from boot after which a thread may sleep so that its wake-up time comes out as NO_TIMEOUT and the invariant breaks |
| SchedLaws.WakeupCommutesWithGain | src/kernel/kernel_sched.c:349-403 | waking a thread before or after its core's hand-off gives the same state, so it is queued once |
| SchedLaws.AssertionsNeverFire | src/kernel/kernel_sched.c:270-287 | in no run can an assertion of `sched_make_ready` fail, in a wake-up or in an expiry pass, nor the one on the previous thread in `gain`; the argument of `sleep_releasing` is its callers' obligation |
| Scheduler.Kernel.SchedQueueSelect | src/kernel/kernel_sched.c:313-332 | the choice is that of the step function and never null, which `yield` asserts |
| SchedLaws.IdleExit | src/kernel/kernel_sched.c:533-546 | the idle loop's exit test holds exactly when every spawned thread was released |
| SchedEffects.YieldFeedback | src/kernel/kernel_sched.c:432-456 | after a yield the leaving thread's priority is one level lower, if there is one, for a used-up quantum or a second mutex in a row, one level higher, if there is one, for I/O, and the same for any other cause, whether or not the yield boosts; the cause and the one before it are recorded |
| SchedEffects.YieldOthers | src/kernel/kernel_sched.c:419-456 | a yield leaves the priority and causes of every other thread, but every YIELD_RUNS-th one lifts the queued threads below the first queue by one level |
| SchedEffects.YieldStates | src/kernel/kernel_sched.c:428-459 | it makes the leaving thread READY iff it was RUNNING, and the sleepers whose time has come; it changes no other state, time or phase |
| SchedEffects.YieldCounts | src/kernel/kernel_sched.c:419-426 | yields are counted up to YIELD_RUNS, and no slot is taken or freed |
| SchedEffects.YieldLists | src/kernel/kernel_sched.c:419-459 | before the choice, the queues are lifted if a boost is due, and then the due sleepers go from the timeout list to their queues |
| SchedEffects.YieldChooses | src/kernel/kernel_sched.c:458-466 | among the queues as the boost and the expiry pass leave them, the core gets the first thread of the first non-empty one; with all empty, its current thread if READY and else its own idle thread; no other core changes |
| SchedEffects.SelectsHead | src/kernel/kernel_sched.c:313-327 | that thread leaves its queue, and nothing else in the queues, threads and other cores changes |
| SchedEffects.SelectsCurrentOrIdle | src/kernel/kernel_sched.c:322-332 | with all queues empty a READY current thread goes on and otherwise the idle thread of the core runs |
| SchedEffects.WakeupLaw | src/kernel/kernel_sched.c:349-370 | a thread that sleeps or was never started becomes READY, leaves the timeout list, and is last in the queue of its priority iff it has left its core; any other wake-up changes nothing |
| SchedEffects.SleepMarks | src/kernel/kernel_sched.c:375-403 | a thread that goes to sleep gets the given state and its core is leaving it; queues, slots and other threads stay |
| SchedEffects.SleepLaw | src/kernel/kernel_sched.c:375-403 | it gets the wake-up time, modulo the clock's range, and a place in the timeout list iff it stops with a time-out; no one else is listed or taken off |
| SchedEffects.GainThreads | src/kernel/kernel_sched.c:494-507 | the chosen thread is RUNNING and dirty, the one that left is clean, and no other thread changes |
| SchedEffects.GainLists | src/kernel/kernel_sched.c:504-521 | the thread that left goes to the end of the queue of its priority iff READY and not idle; its slot is freed iff it exited |
| SchedEffects.SpawnLaw | src/kernel/kernel_sched.c:97-144 | the first unused slot gets a fresh thread, or nothing changes if there is none |
| SchedEffects.BootLaw | src/kernel/kernel_sched.c:551-578 | at boot every slot is free, nothing is queued, no yield is counted, and each core runs its own idle thread |
| Scheduler.Kernel.Yield | src/kernel/kernel_sched.c:407-480 | the imperative `yield` takes the state to that of the step function, whose effects are YieldFeedback, YieldOthers, YieldStates and YieldChooses |
| Scheduler.Kernel.Gain | src/kernel/kernel_sched.c:494-531 | likewise `gain` |
| Scheduler.Kernel.SchedWakeupExpiredTimeouts | src/kernel/kernel_sched.c:295-305 | the expiry loop ends and computes the expiry pass |
| Scheduler.Kernel.SchedBoostPriority | src/kernel/kernel_sched.c:334-344 | the nested loops compute the boost |
| Scheduler.Kernel.SchedRegisterTimeout | src/kernel/kernel_sched.c:235-250 | the list search inserts at the place of the step function |
| Scheduler.Kernel.SchedMakeReady | src/kernel/kernel_sched.c:270-287 | under its assertions it computes the step function |
| Scheduler.Kernel.SpawnThread | src/kernel/kernel_sched.c:97-144 | the slot search takes the first unused slot |
| RingTheory.SpliceJoins | include/util.h:391-396 | splicing nodes of different rings [a,x] and [b,y] gives the one ring [a,y,b,x] |
| RingTheory.SpliceSplits | include/util.h:391-396 | splicing two nodes of one ring [a,x,b,y] gives [a,y] and [b,x] |
| RingTheory.SpliceKeeps | include/util.h:391-396 | every ring without the two nodes is left as it was |
| RingTheory.SpliceTwice | include/util.h:391-396 | repeating a splice undoes it, and `next` and `prev` stay mutually inverse |
| RingTheory.RingExists | include/util.h:330-348 | from each node of inverse pointers there is a ring |
| RingTheory.RingIsRingOf | include/util.h:330-348 | that ring is the only one, so the contents of a list are well defined |
| ListTheory.PushFrontLaw | include/util.h:424-424 | pushing a ring [N,Y] in front of list X gives Y, N, X, so a single node becomes the head |
| ListTheory.PushBackLaw | include/util.h:435-435 | pushing it behind gives X, Y, N |
| ListTheory.RemoveLaw | include/util.h:406-406 | removing takes just that node out of its list and makes it a ring of its own |
| ListTheory.PopFrontLaw | include/util.h:446-446 | popping removes and returns the head |
| ListTheory.PopEmpty | include/util.h:446-454 | popping an empty list, from either end, returns the sentinel and changes nothing |
| ListTheory.PopBackLaw | include/util.h:454-454 | what `rlist_pop_back` does: the list is emptied, the returned node keeps the rest |
| ListTheory.PopBackIff | include/util.h:454-454 | it removes just the tail iff the list has no more than one node |
| ListTheory.AppendLaw | include/util.h:503-507 | append gives the concatenation and empties the source |
| ListTheory.PrependLaw | include/util.h:517-521 | prepend likewise, in front |
| ListTheory.RemoveKeeps | include/util.h:406-406 | removing a node leaves every other list alone |
| ListTheory.ReverseLaw | include/util.h:528-536 | turning every node of a ring round reverses the list |
| ResourceList.RlSplice | include/util.h:391-396 | the pointer swaps on heap nodes compute the splice, for all aliasing cases |
| ResourceList.RlistReverse | include/util.h:528-536 | the walk turns every node of the ring exactly once and ends |
| ResourceList.RlistSelect | include/util.h:566-577 | a stable partition: the source keeps the other nodes in order, the matching ones follow the destination's in order |
| ResourceList.RlistEqual | include/util.h:480-493 | true iff the two key sequences are equal |
| ResourceList.RlistFind | include/util.h:548-558 | the first node with the key, or `fail` iff there is none |
| ResourceList.RlistLen | include/util.h:462-471 | the number of nodes |
| ResourceList.RlistAppend | include/util.h:503-507 | push back and remove on the heap compute append |
| CondVar.RunsKeepInv | old/kernel_cc.c:121-202 | in every interleaving the ring holds, once and in order of arrival, exactly the records in use that were not removed; sleepers are on it; signalled waiters are awake and off it |
| CondVar.SignalLaw | old/kernel_cc.c:161-194 | Cond_Signal, with wake-ups racing, signals exactly the first waiter still asleep when it is looked at, drops unsignalled those ahead of it that had been woken otherwise, leaves everyone else asleep and keeps the rest in order; if it signals nobody, nobody was left asleep and no flag was set |
| CondVar.BroadcastLaw | old/kernel_cc.c:197-202 | Cond_Broadcast empties the ring and leaves nobody asleep; whoever nothing else woke was signalled |
| CondVar.ReturnLaw | old/kernel_cc.c:140-152 | `cv_wait` returns 1 iff signalled, its assertion holds, and its record is on the ring no more |
| CondVar.SignalsConserved | old/kernel_cc.c:121-202 | over any run the waiters signalled are the calls that returned 1 plus those yet to return |
| CondVar.SignalIsARun | old/kernel_cc.c:161-173 | the undisturbed loop is one of these interleavings |
| CondWaiters.Condition.RemoveFromRing | old/kernel_cc.c:83-91 | takes one record off the linked ring and keeps `waitset` at its first record, or null |
| CondWaiters.Condition.CvWait | old/kernel_cc.c:121-138 | puts a fresh record last on the ring |
| CondWaiters.Condition.CvSignal | old/kernel_cc.c:161-173 | the loop computes the undisturbed signal |
| CondWaiters.Condition.CondSignal | old/kernel_cc.c:189-194 | computes the undisturbed signal, with the lock of the ring around it |
| CondWaiters.Condition.CondBroadcast | old/kernel_cc.c:197-202 | the loop ends and computes the undisturbed broadcast |
| CondWaiters.Condition.CvReturn | old/kernel_cc.c:140-152 | computes the second half of `cv_wait` and its result |
| KernelMonitor.MutualExclusion | old/kernel_cc.c:234-287 | in every run at most one thread has the kernel, and the counter is one exactly while none has |
| KernelMonitor.StepCounts | old/kernel_cc.c:234-287 | every step keeps counter plus holders at one |
| KernelMonitor.StepNotStuck | old/kernel_cc.c:234-287 | every step keeps: while the kernel is free and a thread waits, a woken thread has yet to test the counter or a signaller has yet to look for a waiter |
| KernelMonitor.RunsKeepInv | old/kernel_cc.c:234-287 | these, one holder of each lock, and a ring of exactly the waiting and just woken threads hold in every state of every run |
| MonitorReturns.ReturnsWithKernel | old/kernel_cc.c:234-269 | in every run a thread that called `kernel_lock` or `kernel_wait` takes the kernel before it gives it up or calls again, and until it does it is still in the call |
| MonitorReturns.ReturnsWithout | old/kernel_cc.c:244-287 | one that called `kernel_unlock` or `kernel_sleep` neither has nor takes the kernel before it calls `kernel_lock` |
| MonitorReturns.ReturnsAfterWakeUp | old/kernel_cc.c:252-287 | `kernel_wait` and `kernel_sleep` take no kernel and make no call before their wake-up |
| MonitorReturns.KeptUntilReleased | old/kernel_cc.c:234-287 | a thread that took the kernel has it until it gives it up itself |
| MonitorReturns.NoneUncalled | old/kernel_cc.c:234-242 | from the start no thread takes the kernel or gives it up without having called `kernel_lock` |
| KernelMonitor.NoDeadlock | old/kernel_cc.c:121-287 | unless all threads are outside or asleep, one of them can take its next step |
| KernelMonitor.TakenInTime | old/kernel_cc.c:234-269 | in every run, with any new calls and wake-ups in between, a free kernel is taken by the time the threads on their way have taken more than Measure(s) steps plus 3 for each wake-up and 2 for each call |
| KernelMonitor.NeverStuckBefore | old/kernel_cc.c:234-269 | until it is taken, whatever calls and wake-ups come, some thread on its way can go on if one contended for it |
| KernelMonitor.WokenWhileMutexFree | old/kernel_cc.c:234-269 | while `kernel_mutex` is free, a free kernel with a waiting thread has one that was woken and has yet to test the counter |
| KernelMonitor.WokenBesideSignaller | old/kernel_cc.c:121-250 | a state of the invariant with a signaller and a woken thread at once |
| KernelMonitor.SignallerWindow | old/kernel_cc.c:244-250 | a reachable state in which the kernel is free, a thread sleeps and none was woken |
| MonitorWaiters.RunFollows | old/kernel_cc.c:234-269 | every run of the monitor is, on `kernel_sem_cv`, a run of the condition variable of CondVar, with matching states throughout |
| MonitorWaiters.KernelSignal | old/kernel_cc.c:244-250 | in every run of the lock from its start, one that gives the kernel up wakes exactly the first waiter still asleep when looked at and leaves the others asleep, or wakes nobody if none was left asleep |
| ProcInvariant.ExecInv | old/kernel_proc.c:120-178 | Exec by a running thread keeps the process-table invariant, also with no control block left |
| ProcInvariant.ThreadExitInv | old/kernel_threads.c:118-194 | a thread's exit keeps it: reparenting, merging the exited lists, becoming a zombie |
| ProcInvariant.WaitChildInv | old/kernel_proc.c:195-259 | a wait call keeps it, whatever pid is asked for |
| ProcInvariant.Rooted | old/kernel_threads.c:137-145 | as long as there is any other process the initial one is alive, so it can adopt children |
| ProcRuns.BootInv | old/kernel_proc.c:48-68 | the table after boot satisfies the invariant |
| ProcRuns.StepInv | old/kernel_proc.c:120-259 | every call and every wake-up keeps the invariant and follows no null pointer |
| ProcRuns.RunsKeepInv | old/kernel_proc.c:48-278 | so does every run |
| ProcRuns.NoOrphans | old/kernel_threads.c:137-155 | each process is in exactly its living parent's list of children, a zombie also in exactly its exited list and without children of its own |
| ProcRuns.ParentsLeadToInit | old/kernel_threads.c:137-145 | the parents of any process are alive and lead to the initial process without cycles |
| ProcRuns.BlocksConserved | old/kernel_proc.c:73-94 | Exec fails iff all control blocks are in use; a recycled one starts without children, exited children or threads, and inherits exactly the parent's files |
| ProcRuns.WaitDelivers | old/kernel_proc.c:185-248 | a wait call collects one ZOMBIE child of the caller with the status it terminated with, its own iff it called Exit; or it collects nothing |
| ProcRuns.EveryStatusOnce | old/kernel_proc.c:185-259 | over every run from boot each terminated process's status is delivered at most once and unchanged, and until then a zombie holds it |
| ProcRuns.WaitAnyLaw | old/kernel_proc.c:220-248 | waiting for any child fails iff there is none, and sleeps iff there are some and all are alive |
| ProcRuns.NoLostWakeUp | old/kernel_threads.c:149-155 | a sleeping parent whose wait could return now was woken for it |
| ProcRuns.ExitAssertsIff | old/kernel_threads.c:158-159 | the assertions at the end of the exit path hold iff the process is not the initial one or that has no children |
| ProcRuns.ExitAssertsFail | old/kernel_threads.c:158-159 | a run from boot after which they would fail |
| ProcRuns.InitExitIsSafe | old/kernel_proc.c:272-277 | after the loop of Exit in the initial process they hold |
| ProcRuns.StaleStatus | old/kernel_proc.c:185-187 | a process that ends without Exit delivers the status left by its control block's previous process |
| ProcWaits.WaitOneLaw | old/kernel_proc.c:195-218 | waiting for a given pid fails, changing nothing, iff it is no child of the caller; sleeps, for that very child, iff it is alive; otherwise returns it with its status |
| ProcWaits.AskedChildReturned | old/kernel_proc.c:195-218 | over every run a call that slept for one child sleeps on while that is alive, and returns its pid, the process being the same one as at the call, with the status it terminated with |
| ProcWaits.AnyChildReturned | old/kernel_proc.c:220-248 | over every run a call that slept for any child sleeps on while there are children and all are alive, fails if there are none, and otherwise returns the first of its exited children |
| ProcWaits.CollectLaw | old/kernel_proc.c:185-193 | a wait call that returns a child takes just that child out of the caller's lists and frees its control block, and changes no other process |
| ProcWaits.NoCollectLaw | old/kernel_proc.c:195-248 | one that returns none changes only whether the caller waits: it does, for what it asked, iff the call blocks |
| ProcWaits.StatusReachesParent | old/kernel_proc.c:261-266 | over every run the status stored by Exit is the one a wait call returns, unless the process stores another before |
| ProcWaits.ExitLaw | old/kernel_threads.c:131-191 | the last thread's exit, and no other, makes the process a zombie without files, with its stored status, and wakes its parent |
| ProcWaits.ExitLists | old/kernel_threads.c:137-155 | its children go to the front of the initial process's, reversed, its exited children behind those there, and itself to the front of its parent's exited children |
| ProcWaits.ThreadsConserved | old/kernel_threads.c:23-36 | over every run the thread count of a process is the threads started less those ended |
| Processes.ProcessTable.constructor | old/kernel_proc.c:48-63 | the loop links the free list through `parent` |
| Processes.ProcessTable.SysExec | old/kernel_proc.c:120-178 | computes the Exec step, with the loop over the file table |
| Processes.ProcessTable.ReparentChildren | old/kernel_threads.c:137-145 | the pop and push loop reverses the children in front of the initial process's |
| Processes.ProcessTable.SysThreadExit | old/kernel_threads.c:118-191 | computes the exit step |
| Processes.ProcessTable.SysWaitChild | old/kernel_proc.c:195-259 | computes the wait step and its outcome; a pid it returns is the one asked for, if one was |
| StreamCalls.ReferencesConserved | old/kernel_streams.c:103-234 | over every run: a block is free iff nothing refers to it; otherwise its counter is the number of file-table entries of all processes plus calls under way; each opened stream was closed once or is carried by exactly one block in use |
| StreamTable.DecrefInv | old/kernel_streams.c:41-50 | giving up one reference keeps this, and the last one closes the stream once |
| StreamTable.ReserveLaw | src/kernel/kernel_streams.c:51-84 | all or nothing: success puts distinct blocks with counter one at the smallest free entries in ascending order; failure changes no file table and keeps the free list up to reversal |
| StreamTable.FreeFidsSmallest | src/kernel/kernel_streams.c:56-63 | no free entry below the last one found was passed over |
| StreamTable.FillLaw | src/kernel/kernel_streams.c:79-82 | the fill loop enters exactly the given blocks at the given places |
| StreamCalls.Dup2Inv | old/kernel_streams.c:186-204 | Dup2 keeps the invariant, also onto an open or the same descriptor |
| StreamCalls.CloseInv | old/kernel_streams.c:165-177 | Close keeps it |
| StreamCalls.OpenPipeInv | old/kernel_pipe.c:36-65 | reserving two blocks and making them the ends of a pipe keeps it |
| StreamCalls.EndIoInv | old/kernel_streams.c:110-163 | the end of a Read or Write that may have outlived its descriptor keeps it |
| StreamCalls.InheritInv | old/kernel_proc.c:141-147 | Exec's copy of the file table keeps it |
| StreamCalls.CleanUpInv | old/kernel_threads.c:178-184 | clearing the file table at exit keeps it |
| StreamEffects.Dup2Law | old/kernel_streams.c:186-204 | Dup2 fails, changing nothing, iff a descriptor is out of range or the first is closed; otherwise the second leads to the first's stream, every other descriptor of every process stays, and the stream it led to is closed iff this was its only reference and it is another one |
| StreamEffects.CloseLaw | old/kernel_streams.c:165-177 | Close clears just that entry, and closes its stream iff nothing else refers to it; of a closed descriptor it changes nothing |
| StreamEffects.OpenStreamLaw | old/kernel_streams.c:211-228 | the lowest closed descriptor leads to the new stream, or, without descriptor, block or device, no descriptor and no stream changes |
| StreamEffects.OpenPipeLaw | old/kernel_pipe.c:36-65 | the two lowest closed descriptors lead to two new streams, the lower to the reader's end, or nothing changes |
| StreamEffects.BeginIoLaw | old/kernel_streams.c:110-163 | a Read or Write under way counts as one reference to its stream |
| StreamEffects.EndIoLaw | old/kernel_streams.c:110-163 | its end gives that reference up and closes the stream iff it was the last |
| StreamEffects.InheritLaw | old/kernel_proc.c:141-147 | Exec opens and closes no stream |
| StreamEffects.CleanUpLaw | old/kernel_threads.c:178-184 | an exit clears the process's own descriptors only, opens nothing and reopens nothing |
| Streams.Files.OpenPipe | old/kernel_pipe.c:36-65 | returns the descriptors that were filled, the reader's first, and the blocks of the two ends, which they name |
| Streams.Files.FcbReserve | src/kernel/kernel_streams.c:51-84 | the search, acquire, rollback and fill loops compute the reservation |
| Streams.Files.SysDup2 | old/kernel_streams.c:186-204 | computes Dup2; returns 0 iff both descriptors are in range and the first is open, and the second then names the first's block |
| Streams.Files.SysClose | old/kernel_streams.c:165-177 | computes Close and its return code |
| Pipe.FifoRun | old/kernel_pipe.c:67-176 | over any calls, bytes delivered followed by bytes buffered are bytes accepted |
| Pipe.EndOfFile | old/kernel_pipe.c:110-150 | a read gets 0 from an empty pipe exactly when the writer is closed |
| Pipe.Drain | old/kernel_pipe.c:110-176 | after the writer closes, reads get the remaining bytes in order without waiting, then 0 |
| Pipe.WriteLaw | old/kernel_pipe.c:67-108 | a write fails iff an end is closed, waits iff the pipe is full and the reader open, and otherwise appends a prefix of the buffer: all of it or as much as fills the pipe |
| Pipe.ReadLaw | old/kernel_pipe.c:110-150 | a read fails iff its end is closed, waits iff the pipe is empty and the writer open, and otherwise takes a prefix of the contents: as much as asked for or all |
| Pipe.Transfer | old/kernel_pipe.c:67-150 | writing what is left and reading, in turns, carries any buffer through a pipe of any size, whole and in order |
| Pipe.CloseLaw | old/kernel_pipe.c:153-199 | closing touches no byte and not the other end, and fails iff it is the reader's end and that is closed |
| Pipe.EndsClosed | old/kernel_pipe.c:153-199 | over any calls each end is closed exactly by its own call, and stays closed |
| PipeBuffer.InitList | old/kernel_pipe.c:214-257 | builds a ring of size + 1 zero cells |
| PipeBuffer.PipeCb.PipeWriteTurn | old/kernel_pipe.c:67-108 | the copy loop computes the write of WriteLaw; its test for an occupied cell never succeeds, even for zero bytes |
| PipeBuffer.PipeCb.PipeReadTurn | old/kernel_pipe.c:110-150 | the copy loop takes from the front and clears the cells |
| ArgPack.RoundTrip | include/util.h:597-672 | of what was packed, the count is argc, each unpacked string is the original one, and the position reached is just past the buffer |
| ArgPack.ArgvPack | include/util.h:619-629 | writes the packed strings, changes nothing behind them and returns their length |
| ArgPack.ArgvLen | include/util.h:597-604 | the length of the packed strings |
| ArgPack.ArgsCount | include/util.h:640-648 | the number of zeros in the buffer |
| ArgPack.ArgvUnpack | include/util.h:664-672 | the starts of the strings and the position behind them |
| Context.SwapRoundTrip | src/arch/avr/context.S:18-143 | a thread swapped out resumes, at any later swap that selects it, with its 32 registers, SREG, SP and return address, if no one wrote its frame and context meanwhile |
| Context.SwapSuspends | src/arch/avr/context.S:18-78 | swapping out leaves the frame on the caller's stack and its address in its context |
| Context.SwapResumes | src/arch/avr/context.S:87-143 | swapping in restores the suspended state |
| Context.FirstSwap | src/arch/avr/cpu.c:146-188 | the first swap to a context whose frame and context word are as `cpu_initialize_context` wrote them enters the function with r0 to r31 zero, SREG 0x80 and SP at the top of the stack block |
| Context.FirstFrameSuspended | src/arch/avr/cpu.c:146-188 | the memory that `cpu_initialize_context` leaves is that of a thread suspended at the entry of the function |
| Context.Avr.CpuSwapContext | src/arch/avr/context.S:18-143 | the instruction sequence computes the swap |
| Context.Avr.CpuInitializeContext | src/arch/avr/cpu.c:146-188 | the downward loop writes the first frame and stores the stack pointer |

## Left out

- CondWaiters.Condition.RemoveFromRing: the pointers of waiter records are a pair of maps in the object instead of fields of heap nodes, and a thread's record is a table entry instead of a stack variable; RlistRemove and RlistPushBack in ResourceList are proved on heap nodes to compute the same pointer changes.
- Processes.ProcessTable.ReparentChildren: the children and exited lists are sequences here; that the ring operations compute push, pop, append and remove is proved in ListTheory.
- Processes.ProcessTable.SysExec: the copy of the arguments and the thread it creates are not in the table; reference counting of the inherited files is InheritFiles in Streams.
- ProcRuns.StepInv: one thread of a process waits at a time, since two waiting for one child would both release its control block (`old/kernel_proc.c:211-214`); the initial process does not end by ThreadExit with children.
- SchedInvariant.SleepInvIff: the clock is a parameter of each step and its wrap-around is not modelled beyond the modulus of the wake-up time.
- ResourceList.RlistSelect: source and destination are different lists. With one list for both, a matching node would be moved behind the others and met again, so the loop of the source would not end.
- KernelMonitor.TakenInTime: locks are taken in one step, without the spinning before it.
- Context.SwapRoundTrip: no interrupt arrives inside the switch.
- The idle loop's body, the preemption timer values, and halting of cores.
- Mutex spinning and its yields.
- Sockets, info streams, terminals and other devices, the system call wrappers, and the standard library stubs.
- ThreadJoin, ThreadDetach, and the records of single threads in a process.
- The simplified live process code (`src/kernel/kernel_proc.c`).
- Memory freed when a pipe is closed, wake-ups between its ends, and `init_list` with initial data.
- Boot, linker script, interrupt vectors, and device registers.
