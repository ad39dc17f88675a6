# TinKer, verified

TinKer is a small cooperative real-time kernel.  This project models its core in Dafny and
proves what that core promises.  Code that works in place (rings, arrays, free lists, the
thread pool, the schedule) is modelled by classes and loops with the source's own branches and
cursors; each method is proved equal to a function on values, and the promises are lemmas about
those functions, mostly about whole runs.

A step is the code between two calls of `tk_yield`, which runs without interference.  A pointer
to a thread is the index of its control block in the pool, and a null pointer is -1.

| file | part of the kernel |
|---|---|
| `Tally.dfy`, `Tcbs.dfy`, `Ring.dfy` | sums; thread control blocks; circular buffers with two cursors |
| `Sems.dfy`, `Itc.dfy`, `ItcTable.dfy` | semaphores as values; in memory: lock stage, unlock stage, removal from the ring; the table of semaphores |
| `SemRuns.dfy`, `TimedRuns.dfy`, `StaleMark.dfy` | runs of `sm_p`/`sm_v` with untimed waits; runs with every mix of waits; a run in which a remembered slot has gone stale, and what it leads to |
| `MsgQueue.dfy` | fixed-size message queues and their runs |
| `Family.dfy`, `FamilyKept.dfy` | parents and children, death, join, burial, the timer |
| `FamilyRuns.dfy`, `JoinRuns.dfy` | runs of the thread life cycle; what `tk_join` promises |
| `Wakers.dfy` | what semaphores and mutexes do to threads, as steps of the life cycle |
| `Schedule.dfy`, `ScheduleRuns.dfy` | the schedule as a value, in rows and in memory, and its runs |
| `Kernel.dfy`, `KernelRuns.dfy` | the kernel object with all its arrays; the end of `tk_join`, and runs that go wrong |
| `Sorting.dfy` | the built-in quicksort and binary search |
| `Mqueue.dfy`, `MqRuns.dfy` | POSIX message queues and their runs |
| `Blocks.dfy`, `Stalloc.dfy`, `StallocRuns.dfy` | the stack allocator: blocks, memory, runs |
| `Mutex.dfy`, `RwLock.dfy` | POSIX mutexes and readers-writer locks, each with its runs |
| `Uptime.dfy` | the two-word millisecond counter and its conversion |

Where the code falls short of what it is for, the code is kept and the exact condition under
which it delivers is proved; most of these come with a run from a fresh start that shows the case:

- `q_send` accepts a message while receivers that were woken have not fetched theirs yet, and may
  then overwrite one: `MsgQueue.SendKeepsMessagesIff`; `MsgQueue.OverrunExample`.
- A thread that times out removes the ring slot it remembers, which may hold another thread by
  then, and afterwards sweeps the ring for timed-out threads, stepping over the one behind each
  that it removes.  However many have timed out, `TimedRuns.TimeoutSparesOthersIff` says when
  nobody else is harmed, and `TimedRuns.TimeoutLeavesIff` when the thread itself leaves the ring;
  in `StaleMark.StaleMarkRun` neither is so.
- An unlock wakes a thread that its ring names, whether or not it still waits there.  If that
  thread is in `tk_join` by then, the assertion about the event fails, and no other step makes it
  fail: `FamilyRuns.StepKeepsInvIff`, `JoinRuns.AlwaysInvIff`, and `Wakers.UnlockKeepsInvIff` for
  one unlock; `StaleHits.JoinCutShort`.  If it waits for a mutex, it leaves `pthread_mutex_lock`
  without it: `MutexRuns.StepKeepsInvIff`, `Wakers.UnlockKeepsBlockedIff`;
  `StaleHits.LockCutShort`.  While all waits are untimed neither happens to `tk_join`:
  `Wakers.UntimedKeepsInv`.
- The loop by which a thread leaves its row of the schedule reads the first slot of the next row
  when its own row is full: `Kernel.Kernel.Bury` and `Kernel.Kernel.Move`, and runs as a whole in
  `ScheduleRuns.StepKeepsInvIff`, keep the schedule in order exactly if nothing spills;
  `KernelRuns.SpilledByDelete`, `KernelRuns.SpilledByMove`.
- Deleting a zombie that its parent has not let go of leaves the parent's count of children too
  high: `FamilyKept.DeleteKeepsFamIff`; `KernelRuns.DeletedTwice`.
- `stalloc_free` keeps the free list in order exactly if the freed block lies above its head, or
  the list is empty and the block's old link null: `Stalloc.Pool.Free`; `StallocRuns.LowestLost`,
  `StallocRuns.LiveListed`.
- `sm_create` leaves a half-made semaphore in its slot exactly if there is memory for the object
  and none for its ring: `ItcTable.Table.SmCreate`.
- The `qsort` of the kernel has no sentinel below the array, and its first downward scan leaves
  the array exactly if all other elements are larger than the last one: `Sorting.Partition`,
  `Sorting.QsortEntry`; `Sorting.QsortLeavesArray`.
- `mq_receive` reports the priority of the slot at the in-cursor, which is that of the message
  exactly if the two slots agree, and 0 until as many messages have been sent as there are slots:
  `Mqueue.MBox.Take`, `Mqueue.ReportsZero`; `Mqueue.WrongPriority`.
- Messages of one priority stay in the order of sending exactly while neither the clock goes back
  nor the serial number wraps within a second: `MqRuns.SendKeepsFifoIff`; `MqRuns.WrapExample`.
- Up-time is right exactly below 1000 * 2^32 milliseconds: `Uptime.ExactIff`; `Uptime.TightBound`.

The priority order of POSIX message queues is that of IEEE Std 1003.1b-1993, sections 15.2.4
(`mq_send`) and 15.2.5 (`mq_receive`).

## Model

| member | source | states |
|---|---|---|
| Ring.Dec | src/tk_itcshared.c:59-63 | stepping an unsigned cursor back, with the underflow caught by a comparison, is stepping back in the circle |
| Ring.HoldsContents | src/tk_itcshared.c:37-41 | what a ring holds, read slot by slot from the out-cursor, is the sequence between the cursors |
| Ring.Append | src/tk_itc.c:51-54 | storing at the in-cursor appends to the ring |
| Ring.PopHead | src/tk_itcshared.c:65-71 | advancing the out-cursor drops the oldest entry and no other |
| Ring.DropLast | src/tk_itcshared.c:72-79 | stepping the in-cursor back drops the newest entry and no other |
| Tcbs.FirstMin | src/tk_itc.c:153-163 | the waiter a priority search selects: none has a numerically lower priority, and all earlier ones a higher one |
| Tcbs.FirstMinUnique | src/tk_itc.c:153-163 | there is only one such waiter |
| Sems.FifoPick | src/tk_itc.c:175-190 | the waiter a FIFO unlock releases: the oldest that is still queueing, or the last one |
| Itc.Semaphore.constructor | src/tk_itc.c:411-424 | a new semaphore has its count of units and an empty ring |
| Itc.Semaphore.LockEnter | src/tk_itc.c:40-72 | lock stage: a unit is taken; or the caller is appended to the ring and queues, with its limit; or it is refused, exactly if the ring holds all it may; the saved mark is the slot behind its own |
| Itc.Semaphore.RemoveBlocked | src/tk_itcshared.c:54-97 | for head, tail, middle and unoccupied slots, across the wrap, the ring loses exactly one waiter, the one in the slot if it is occupied, and the rest keeps its order; token and cursors follow |
| Itc.Semaphore.SweepTimedOut | src/tk_itc.c:88-113 | the clean-up loop of a timed-out thread does what `Sweep` says of the ring and the threads |
| Itc.Semaphore.LockResume | src/tk_itc.c:73-122 | the rest of a timed wait: ERR_TIMEOUT exactly for a thread whose time ran out or that was noted by another's sweep, ERR_OK with nothing changed for one that an unlock released; and what becomes of ring, token and threads |
| Itc.Semaphore.FindByPriority | src/tk_itc.c:153-163 | the search finds the slot of the first waiter of minimal priority |
| Itc.Semaphore.UnlockPrior | src/tk_itc.c:132-173 | a PRIOR unlock releases that waiter and removes it from the ring, the rest in order |
| Itc.Semaphore.UnlockFifo | src/tk_itc.c:175-190 | a FIFO unlock pops waiters up to the oldest that still queues, and releases it |
| Itc.Semaphore.UnlockStage | src/tk_itc.c:124-194 | unlock stage: a unit is added, or one waiter is released as the flags say |
| Itc.Semaphore.ProveConsistency | src/tk_itcshared.c:26-46 | the self-check counts the waiters that queue or are ready |
| Untimed.UnlockReleasesOne | src/tk_itc.c:131-193 | with untimed waits an unlock releases one waiter: the oldest, or the longest-waiting of the best priority |
| Untimed.LockKeepsQueueing | src/tk_itc.c:46-63 | a thread that blocks joins as the last of distinct, queueing waiters |
| Untimed.UnlockKeepsQueueing | src/tk_itc.c:131-193 | waiters stay distinct and queueing through an unlock |
| ItcTable.Table.FindNextEmptySlot | src/tk_itcshared.c:99-109 | the first empty slot in circular order, and failure exactly if there is none |
| ItcTable.Table.SmCreate | src/tk_itc.c:390-425 | each error in its case; a semaphore with its initial count appears in an empty slot, all others are as they were; a failed allocation of the ring leaves the slot taken by an object that is not in order |
| ItcTable.Table.SmDelete | src/tk_itc.c:427-434 | the slot is emptied; all other semaphores are as they were |
| ItcTable.Table.SmP | src/tk_itc.c:436-450 | each error code in its case and nothing changed then; else the lock stage on this semaphore alone |
| ItcTable.Table.SmV | src/tk_itc.c:452-464 | each error code in its case and nothing changed then; else the unlock stage on this semaphore alone |
| SemRuns.LockKeeps | src/tk_itc.c:40-63 | a P keeps token = initial + V's - admitted P's, and arrivals = granted + waiting |
| SemRuns.UnlockKeeps | src/tk_itc.c:131-193 | a V keeps the same books, in order of arrival when the semaphore is FIFO |
| SemRuns.JoinRing | src/tk_itc.c:46-63 | a thread that blocks is then in one ring only, and the Q bits say who is in one |
| SemRuns.LeaveRing | src/tk_itc.c:131-193 | a released thread is in no ring any more, and the Q bits say who is in one |
| SemRuns.StepKeepsInv | src/tk_itc.c:436-464 | every step on any of the semaphores keeps all of this |
| SemRuns.AlwaysInv | src/tk_itc.c:436-464 | in every state of every run: units are conserved, rings hold max(-token, 0) distinct threads, a thread is in at most one ring, and its Q bit is set exactly then |
| SemRuns.ServedInOrder | src/tk_itc.c:175-193 | bounded waiting: the thread at place k of a FIFO ring is released by the time k + 1 V's have happened, in order of arrival |
| TimedRuns.SignalKeepsOk | src/tk_itc.c:124-194 | an unlock among timed waiters keeps token and ring in agreement |
| TimedRuns.LeaveKeepsOk | src/tk_itc.c:73-114 | so does a timed-out thread, whatever slot it remembers |
| TimedRuns.AlwaysAgrees | src/tk_itc.c:46-192 | over every mix of waits, unlocks and expiries: token >= 0 means an empty ring, token <= 0 means -token waiters, and the ring never overfills |
| TimedRuns.LeaveAnswers | src/tk_itc.c:73-120 | in every run a thread with a time limit returns ERR_OK exactly if an unlock has picked it, and then ring, token and threads stay as they are, and ERR_TIMEOUT exactly if its time ran out |
| TimedRuns.FateMet | src/tk_itc.c:46-192 | both go back to the step of the unlock, or of the expiry, with nothing in between |
| TimedRuns.TimeoutSparesOthersIff | src/tk_itc.c:73-114 | with any number of timed-out waiters: all that have not timed out stay in the ring exactly if the remembered slot holds one that has |
| TimedRuns.TimeoutLeavesIff | src/tk_itc.c:88-113 | with any number of timed-out waiters: the thread itself leaves the ring exactly if the remembered slot is its own or the sweep, which skips the waiter behind each it removes, comes to it |
| StaleMark.StaleMarkRun | src/tk_itc.c:40-194 | a run from a fresh semaphore: after two unlocks of PRIOR order a timed-out thread, by the slot it saved itself, removes the innocent head and stays in the ring |
| MsgQueue.QSend | src/tk_itc.c:363-388 | each error code in its case and nothing changed then, ERR_FULL exactly if all slots count as taken; else the message in its slot, the in-cursor moved, and the unlock stage |
| MsgQueue.QReceive | src/tk_itc.c:336-361 | each error code in its case and nothing changed then; the message at the out-cursor if one is free; else a place in the ring |
| MsgQueue.Queue.QFetch | src/tk_itc.c:356-359 | the message at the out-cursor is taken |
| MsgQueue.StepCountsIff | src/tk_itc.c:336-388 | unfetched messages = max(token, 0) + receivers woken but not yet through, after every step, overrun or not; the blocked receivers are in order exactly if nothing elsewhere takes their Q bits |
| MsgQueue.SendKeepsMessagesIff | src/tk_itc.c:372-382 | a send loses no unfetched message exactly if there was room counting woken receivers, or it repeats the message it overwrites |
| MsgQueue.FullCheckProtects | src/tk_itc.c:372-382 | a send is refused exactly if all slots count as taken, and then changes nothing; while no receiver is woken and still to fetch, it loses no unfetched message |
| MsgQueue.TokenAtMostSlots | src/tk_itc.c:372-384 | in every run, overruns or not, the count of free messages never exceeds the number of slots |
| MsgQueue.UnhurriedInOrder | src/tk_itc.c:336-388 | in every run in which woken receivers fetch before the next send, messages are fetched in the order of sending and none is lost |
| MsgQueue.FetchTakesOldest | src/tk_itc.c:356-359 | a fetch takes the oldest unfetched message |
| MsgQueue.FetchedInOrder | src/tk_itc.c:336-388 | in every run without overruns that leaves blocked receivers queueing the k-th fetch returns the k-th message sent, and nothing is lost |
| MsgQueue.OverrunExample | src/tk_itc.c:372-382 | a run in which a message is overwritten before the woken receiver fetches it |
| MsgQueue.SelfCheckHolds | src/tk_itc.c:351-384 | the self-check after the stages never fails in such runs |
| Family.NoneLeftBehind | src/tk.c:506-521 | the scan that stops when the count of children reaches zero leaves no child behind, if the count was right |
| FamilyKept.DiedAt | src/tk.c:213-222 | the state after a death: the thread a zombie with its value and no children, its children without parent, all others untouched |
| FamilyKept.DiedKeepsFam | src/tk.c:213-222 | a death keeps parents alive, counts of children right, and joins waiting for children |
| FamilyKept.ParentCounts | src/tk.c:530-563 | the assertions of `_tk_try_detach_parent`: the parent is valid and its count does not fall below zero |
| FamilyKept.TryDetachKeepsFam | src/tk.c:523-570 | letting go of the parent keeps the family in order |
| FamilyKept.BurialKeepsFamIff | src/tk.c:250-271 | burying a zombie keeps it exactly if the parent has let go |
| FamilyKept.DeleteKeepsFamIff | src/tk.c:234-275 | deleting a thread keeps it exactly if the thread is neither the root nor the idle thread, nor a zombie that its parent may still join |
| FamilyKept.CreateKeepsFam | src/tk.c:342-360 | so does creation by a live thread |
| FamilyKept.DeleteBuriesIff | src/tk.c:234-275 | a live thread is buried by its deletion exactly if its parent has let go of it or waits for it; else it stays as a zombie |
| FamilyKept.JoinKeepsFam | src/tk.c:401-410 | so does blocking in a join |
| FamilyKept.TickKeepsFam | src/tk_switch.c:49-94 | so does the timer's pass over all threads, cut short or not |
| FamilyKept.TickKeepsReady | src/tk_switch.c:49-94 | a ready thread is ready after the timer's pass |
| FamilyKept.TickTimes | src/tk_switch.c:67-79 | after the pass a thread that slept and whose time has come has neither S nor Q and has E_TIMER, and no other thread's sleep, time or event has changed; only the dead may be gone |
| FamilyKept.TickOneBuriesIff | src/tk_switch.c:82-88 | a zombie is buried by the pass exactly if its parent has let go of it or waits for it, and it does not run |
| FamilyKept.TryDetachPasses | src/tk.c:532-558 | of all other threads only the one waiting for the dead thread is woken, with E_CHILDDEATH and its value |
| FamilyKept.TryDetachStill | src/tk.c:532-558 | the waiting parent becomes ready with event and value, and blocks on nothing; but for ties between parents and children nothing else changes |
| FamilyRuns.StepKeepsInvIff | src/tk.c:213-570 | every step of the life cycle keeps the family in order, joins and T bits in step, and the values of the dead, exactly if it is no release or wake of a thread that is in a join |
| FamilyRuns.CutShort | src/tk.c:401-416 | a thread hit in a join runs next with an event that fails the assertion, or waits for a child whose death does not wake it |
| FamilyRuns.DeletePasses | src/tk.c:234-275 | a deletion wakes the parent that waits for the thread and nobody else |
| FamilyRuns.MidwayKeepsInv | src/tk_switch.c:49-94 | all that holds midway through the timer's pass too |
| JoinRuns.StepWakes | src/tk.c:532-558 | a thread is woken from its wait in a join only because the child it waits for died |
| JoinRuns.StepFrees | src/tk.c:532-558 | a thread that stops waiting has been woken by the death, with the child's value, or has been hit by a release or wake |
| JoinRuns.MidwayWaits | src/tk_switch.c:82-88 | the timer's pass wakes nobody who waits for a living child |
| JoinRuns.StepZombie | src/tk.c:213-250 | a thread becomes a zombie only by returning or being deleted, and keeps its value |
| JoinRuns.AlwaysInvIff | src/tk.c:213-570 | the family is in order in every state of a run exactly if none of its steps hits a thread that is in a join |
| JoinRuns.JoinReturnsDeathValue | src/tk.c:401-416 | in every run that hits nobody in a join: a thread about to return from one was waiting when its child died, sees E_CHILDDEATH, and has exactly the value the child died with |
| JoinRuns.ZombieKeepsValue | src/tk.c:394-400 | in every such run a join of a dead child returns the value the child died with |
| JoinRuns.AlwaysAsserted | src/tk.c:530-563 | in every state of every such run both assertions of `_tk_try_detach_parent` hold, and a blocked join waits for a valid child that names the waiter as parent |
| Wakers.LockBlocks | src/tk_itc.c:46-72 | blocking in a semaphore, timed or not, is a step of the life cycle that hits nobody |
| Wakers.MutexBlocks | src/pthread_sync.c:44-56 | so is blocking in a mutex |
| Wakers.UnlockKeepsInvIff | src/tk_itc.c:124-194 | an unlock of a semaphore keeps the life cycle in order exactly if it adds a unit or picks a thread that is not in a join |
| Wakers.UntimedKeepsInv | src/tk_itc.c:124-194 | with untimed waits only it always does |
| Wakers.ResumeKeepsInv | src/tk_itc.c:73-122 | a timed-out thread and its sweep, with the notes to others, disturb no join |
| Wakers.MutexKeepsInvIff | src/pthread_sync.c:94-117 | an unlock of a mutex keeps the life cycle in order exactly if nobody waits or the next owner is not in a join |
| Wakers.BroadcastKeepsInvIff | src/pthread_sync.c:81-91 | a broadcast does exactly if none of those it wakes is in a join |
| Wakers.UnlockKeepsBlockedIff | src/tk_itc.c:124-194 | an unlock of a semaphore leaves the waiters of a mutex queueing exactly if it picks none of them |
| StaleHits.JoinCutShort | src/tk.c:401-416 | the run with the stale mark goes on: the thread left in the ring joins a child and, while the child lives, an unlock makes it ready with an event that fails the assertion |
| StaleHits.LockCutShort | src/pthread_mutex.c:53-61 | or it locks a mutex, and is ready while another thread owns the mutex and it is still among the blocked |
| Schedule.ExactlyOneSlot | src/tk.c:234-500 | a valid thread is in exactly one live slot, in the row of its priority, at the place it notes (the root apart); a thread that is not valid is in none |
| Schedule.LeaveKeepsSched | src/tk.c:257-261 | after the shift every other thread of the row notes its new slot |
| Schedule.EnterKeepsSched | src/tk.c:375-381 | a thread put behind the last live slot is in its row |
| Schedule.MoveKeepsSched | src/tk.c:483-500 | a change of priority moves a thread between rows and changes neither the number of valid threads nor of live slots |
| Schedule.BurialKeepsSched | src/tk.c:250-272 | a burial takes a thread out of its row and leaves the schedule in order |
| Schedule.BurialCounts | src/tk.c:254-263 | and takes one off the number of valid threads and of live slots |
| Schedule.BirthKeepsSched | src/tk.c:342-381 | a new thread adds one to both and is in its row |
| Schedule.DispatchUnique | src/tk.c:572-615 | the dispatcher's choice is determined |
| Schedule.DispatchHighest | src/tk.c:572-615 | no ready thread has a numerically lower priority than the one dispatched |
| ScheduleRuns.StepKeepsInvIff | src/tk.c:234-500 | a creation keeps rows, notes, counters and the 0 in all dead slots; a burial or a change of priority does exactly if nothing spills |
| ScheduleRuns.AlwaysInOneSlot | src/tk.c:234-500 | in every state of every run without a spill a thread is valid exactly if it is in a live slot, the row is that of its priority, dead slots hold 0, and the row lengths add up to the threads in use, the number of valid ones |
| Kernel.Started | src/tk.c:158-211 | the state of a new kernel is in order, with the root and the idle thread |
| Kernel.Kernel.constructor | src/tk.c:158-211 | kernel creation ends in such a state, the idle thread being its own parent |
| Kernel.Kernel.ShiftRow | src/tk.c:257-261 | what the shift loop, with its extra step, leaves in every slot of the schedule and every thread's note, also when the row spills |
| Kernel.Kernel.LeaveRow | src/tk.c:257-267 | a thread leaves its row: the new rows, slots, notes and cursor |
| Kernel.Kernel.Bury | src/tk.c:250-272 | a burial is a step of the runs of the schedule, and keeps the kernel in order exactly if the row was not full or the next one is empty |
| Kernel.Kernel.Move | src/tk.c:483-500 | so is a change of priority |
| Kernel.Kernel.DetachChildren | src/tk.c:506-521 | the loop detaches children as the scan function says |
| Kernel.Kernel.TryDetachParent | src/tk.c:523-570 | the branches of letting go of the parent, with both assertions proved |
| Kernel.Kernel.DeleteThread | src/tk.c:234-275 | deletion as far as pool, rows and counters go, whether the thread is buried, and when exactly the schedule survives it |
| Kernel.Kernel.ChangePrio | src/tk.c:439-504 | the errors, the early return, the move between rows, the hint to yield, and when exactly the schedule survives it |
| Kernel.Kernel.FindFree | src/tk.c:317-320 | the search ends, at the first free control block in circular order |
| Kernel.Kernel.Install | src/tk.c:322-381 | so is a creation, and it always keeps the kernel in order |
| Kernel.Kernel.CreateThread | src/tk.c:289-384 | the errors and flags, or a new ready child of the running thread, with its argument and priority, in the last slot of its row, and no other thread changed but for the parent's count |
| Kernel.Kernel.NextRunable | src/tk.c:572-615 | the first ready thread from the cursor on, in the first row that has one; both assertions of the scan hold |
| Kernel.Kernel.WakeUp | src/tk_switch.c:49-94 | the timer's pass over the threads: sleepers whose time has come are ready, with E_TIMER, and all others sleep on; with burials included it keeps schedule and family in order if the row of each thread it buries does not spill when its turn comes |
| Kernel.Kernel.TickThread | src/tk_switch.c:49-94 | for one thread of that pass: the same of its sleep, and schedule and family stay in order exactly if it is not buried or its row does not spill |
| Kernel.BuriesIff | src/tk_switch.c:82-88 | it is buried exactly if it is dead, does not run, and its parent has let go of it or waits for it |
| Kernel.RoomyFits | src/tk_switch.c:82-88 | it is enough for the whole pass that no zombie sits in a full row |
| Kernel.Kernel.Yield | src/tk_switch.c:96-122 | after a yield sleepers whose time has come are ready, and the dispatcher's choice for the state after the timer's pass is running |
| Kernel.Kernel.Join | src/tk.c:386-410 | the errors, the value of a dead child, which is detached then, or the wait |
| KernelRuns.JoinReturns | src/tk.c:411-416 | in every run of the life cycle that hits nobody in a join: the assertion about the event holds, and the value returned is the one with which the awaited child died |
| Kernel.Kernel.Msleep | src/tk.c:421-437 | the running thread sleeps; nothing else changes |
| KernelRuns.SleepFor | src/tk.c:421-437 | a sleep with a whole pass of the timer ends ready, with E_TIMER, exactly if its time has come |
| Kernel.Kernel.Destructor | src/tk.c:213-224 | the running thread becomes a sleeping zombie with its value, its children detached |
| KernelRuns.DeletedTwice | src/tk.c:234-275 | a new kernel, a thread created and deleted twice: the family is not in order |
| KernelRuns.SpilledByMove | src/tk.c:483-500 | a new kernel, a thread created and given another priority: the schedule is not in order |
| KernelRuns.SpilledByDelete | src/tk.c:234-275 | a new kernel, a thread joined by the root and deleted by another one: the family is in order, the schedule is not |
| Messages.CompMessIsPreorder | src/mqueue.c:459-479 | the comparator of messages is a total preorder |
| Messages.ViewRearranged | src/mqueue.c:481-515 | rearranging slots rearranges the messages they show |
| Messages.RearrangedOwn | src/mqueue.c:481-515 | and leaves every slot a buffer of its own |
| Mqueue.WrappedMultiset | src/mqueue.c:488-512 | the slots are those of the wrapped ring and those outside of it |
| Mqueue.ViewAppended | src/mqueue.c:421-430 | writing to a buffer no pending message uses adds one message and changes none |
| Mqueue.MBox.NumbMess | src/mqueue.c:55-58 | the macro counts the slots in use |
| Mqueue.MBox.SortByPrio | src/mqueue.c:481-515 | the ring is sorted in place, wrapped or not, and slots are only permuted |
| Mqueue.MBox.SendLocked | src/mqueue.c:402-432 | the pending messages become the old ones and the new one, in order of priority, time and serial number |
| Mqueue.MBox.Take | src/mqueue.c:344-355 | the first pending message is taken, the others stay; the priority reported is that of the message exactly if the slots at the two cursors have the same |
| Mqueue.WrongPriority | src/mqueue.c:344-355 | a new queue, a message of priority 5 sent and received: the priority reported is 0 |
| Mqueue.ReportsZero | src/mqueue.c:344-355 | whatever the calls on a new queue: as long as fewer messages are sent than there are slots, all that are received are reported with priority 0 |
| MqDevice.QueueD.Send | src/mqueue.c:402-434 | the code of each failure, which changes nothing; else the message joins and the semaphore is posted |
| MqDevice.QueueD.Await | src/mqueue.c:326-342 | the errors of a receive, or the wait for the semaphore |
| MqRuns.StepKeepsInvIff | src/mqueue.c:342-434 | sends and receives keep all of this; what happens elsewhere does exactly if it leaves blocked receivers queueing |
| MqRuns.NothingLost | src/mqueue.c:342-434 | in every run that leaves blocked receivers queueing: sent = received + pending as multisets, the pending count is the semaphore's count plus granted receivers, and stays below mq_maxmsg |
| MqRuns.GrantedFindsMessage | src/mqueue.c:342-353 | a receiver that has been granted a message finds one |
| MqRuns.TakesHighest | src/mqueue.c:344-353 | what is received has the highest pending priority |
| MqRuns.OneOrder | src/mqueue.c:459-479 | with distinct keys only one order is sorted |
| MqRuns.SendInserts | src/mqueue.c:421-432 | with distinct keys a send refines insertion into a priority queue |
| MqRuns.SendJoins | src/mqueue.c:402-432 | what a send does to the messages in memory is a step of these runs |
| MqRuns.SendKeepsFifoIff | src/mqueue.c:459-479 | equal priorities stay in the order of sending exactly if the new message is of a later second than its equals, or of the same with a higher serial number |
| MqRuns.ReceivedInOrder | src/mqueue.c:342-434 | with a clock that does not go back and no wrap of the serial number, messages of one priority are received in the order of sending, in every run |
| MqRuns.WrapExample | src/mqueue.c:425-427 | when the serial number wraps within a second the later message overtakes |
| Sorting.ScanUp | src/tk_ansi_search.c:48-49 | the upward scan stops at the pivot at the latest |
| Sorting.ScanDown | src/tk_ansi_search.c:50-51 | the downward scan stops at the first slot that is not larger than the pivot, and leaves the array exactly if there is none |
| Sorting.Partition | src/tk_ansi_search.c:44-56 | from any range: the scans stay in the array exactly if some slot below the pivot's holds nothing larger than the pivot; then the pivot has nothing larger below it in the range and nothing smaller above it |
| Sorting.UpperSorted | src/tk_ansi_search.c:58-59 | two sorted parts around the pivot make the range sorted, a permutation of what it was |
| Sorting.Quicksort | src/tk_ansi_search.c:33-62 | for any total preorder and any range: if all scans stay in the array, the range becomes a sorted permutation and nothing else changes; with a sentinel below the range, or a least element in its first slot or in two slots, they do |
| Sorting.QsortEntry | src/tk_ansi_search.c:94-98 | the same for a whole array, with no slot below: with a least element in the first slot or in two slots it is sorted, with the only least at the end the first scan leaves it |
| Sorting.QsortLeavesArray | src/tk_ansi_search.c:50-51 | the elements 2 and 1 are enough |
| Sorting.Bsearch | src/tk_ansi_search.c:64-91 | the position of an equal element, or -p - 1 for an insertion point p |
| Sorting.InsertionPointUnique | src/tk_ansi_search.c:83-90 | there is one insertion point only, and none if the key is present |
| Blocks.RoundUp | bsp/XC167_Keil/stalloc.c:38 | sizes are rounded to even; the largest size wraps to 0 |
| Blocks.FirstFit | bsp/XC167_Keil/stalloc.c:46-56 | the first free block that is large enough, and failure only if none is |
| Blocks.CarveTiles | bsp/XC167_Keil/stalloc.c:61-78 | handing out a block whole or split keeps the pool tiled |
| Blocks.CarveSeparates | bsp/XC167_Keil/stalloc.c:61-78 | and no two free blocks adjacent |
| Blocks.CarveHandsOut | bsp/XC167_Keil/stalloc.c:29-79 | if at least 24 bytes would be left over exactly the bytes asked for are handed out, from the upper end, and the rest stays free; else the whole block; no other block changes |
| Blocks.ReleaseTiles | bsp/XC167_Keil/stalloc_free.c:73-87 | freeing with merging keeps the pool tiled |
| Blocks.ReleaseSeparates | bsp/XC167_Keil/stalloc_free.c:73-87 | and no two free blocks adjacent |
| Blocks.AllFreeIsOne | bsp/XC167_Keil/stalloc_free.c:36-39 | with everything free there is one block |
| Blocks.CarveThenRelease | bsp/XC167_Keil/stalloc_free.c:73-87 | freeing what was just handed out restores the blocks |
| Stalloc.Unlink | bsp/XC167_Keil/stalloc.c:64-67 | unlinking leaves the list of the remaining free blocks in address order |
| Stalloc.SplitLinks | bsp/XC167_Keil/stalloc.c:73-78 | a split from the upper end leaves the list as it is |
| Stalloc.JoinLinked | bsp/XC167_Keil/stalloc_free.c:73-87 | the two merge steps leave lengths and links of the merged blocks |
| Stalloc.FreeIntoEmpty | bsp/XC167_Keil/stalloc_free.c:55-59 | freed into an empty list, a block makes a proper list exactly if its own link is null already |
| Stalloc.FreeBelowHead | bsp/XC167_Keil/stalloc_free.c:63-87 | freed below the head, a block is not where the list starts |
| Stalloc.Pool.constructor | bsp/XC167_Keil/stalloc_init_mem.c:42-57 | the pool begins as one free block |
| Stalloc.Pool.Find | bsp/XC167_Keil/stalloc.c:41-56 | the walk finds the link to the first block that fits, or the end of the list |
| Stalloc.Pool.Alloc | bsp/XC167_Keil/stalloc.c:31-79 | NULL exactly if no free block fits; else of the first that fits exactly the bytes asked for, at its upper end, or all of it if less than 24 bytes would be left over; and the pool is in order |
| Stalloc.Pool.FindPlace | bsp/XC167_Keil/stalloc_free.c:61-68 | the walk finds the free blocks around the freed one |
| Stalloc.Pool.Free | bsp/XC167_Keil/stalloc_free.c:30-88 | the block becomes free and merges with its free neighbours, and the list is in order exactly if its head lies below the block |
| StallocRuns.StepKeepsInv | bsp/XC167_Keil/stalloc_free.c:30-88 | every step that spares the lowest block keeps the pool tiled, with no free neighbours |
| StallocRuns.HeadIsLowest | bsp/XC167_Keil/stalloc_free.c:55-68 | in such runs the head of the list lies below every live block |
| StallocRuns.LiveStays | bsp/XC167_Keil/stalloc.c:61-78 | a live block keeps its place and length until it is freed |
| StallocRuns.TotalIsPool | bsp/XC167_Keil/stalloc_init_mem.c:42-57 | headers and data of all blocks add up to the pool |
| StallocRuns.AlwaysTiled | bsp/XC167_Keil/stalloc_free.c:30-88 | in every state of every such run all this holds, and freeing everything restores the initial block |
| StallocRuns.Perform | bsp/XC167_Keil/stalloc_free.c:30-88 | any such sequence of calls on a pool in memory: headers and free list, in address order, are in order at the end |
| StallocRuns.LowestLost | bsp/XC167_Keil/stalloc_free.c:61-87 | a new pool, with the lowest block handed out whole and freed below the head: the list is not in order |
| StallocRuns.LiveListed | bsp/XC167_Keil/stalloc_free.c:55-59 | a new pool, with everything handed out and the lowest block freed: the list goes on to a live block |
| Mutex.PthreadMutex.LockPrimitive | src/pthread_sync.c:37-59 | a free mutex gets its owner, else the caller is appended to the blocked threads |
| Mutex.PthreadMutex.FindNext | src/pthread_sync.c:97-103 | the search selects the longest-waiting thread of the best priority |
| Mutex.PthreadMutex.CloseGap | src/pthread_sync.c:107-109 | the loop closes the gap and keeps the order |
| Mutex.PthreadMutex.UnlockPrimitive | src/pthread_sync.c:61-120 | ownership passes to that thread, which is woken, or ends |
| Mutex.PthreadMutex.Broadcast | src/pthread_sync.c:81-91 | a broadcast wakes all and leaves the owner as it is |
| MutexRuns.StepKeepsInvIff | src/pthread_mutex.c:53-71 | every lock and unlock keeps blocked threads distinct, queueing and apart from the owner, and none without an owner; what happens elsewhere does exactly if it leaves them queueing |
| MutexRuns.MutualExclusion | src/pthread_mutex.c:53-71 | in every run that leaves blocked threads queueing at most one thread is between lock and unlock |
| MutexRuns.HandOver | src/pthread_sync.c:94-117 | unlock hands over to the longest-waiting thread of the best priority, the others in order |
| MutexRuns.NeverFull | src/pthread_sync.c:53-54 | with room for every thread the array of blocked threads never fills up |
| RwLock.PthreadRwlock.RdEnter | src/pthread_rwlock.c:27-40 | the writers a reader gives way to are those of its priority and the numerically lower ones |
| RwLock.PthreadRwlock.RdCheck | src/pthread_rwlock.c:42-62 | a reader enters exactly if nobody writes and it counted no writer, signals exactly if nobody reads or writes and it counted one, and else waits; the counters of each case |
| RwLock.PthreadRwlock.RdAfterSignal | src/pthread_rwlock.c:46-49 | a reader that has signalled is counted as blocked, and nothing else changes |
| RwLock.PthreadRwlock.RdWake | src/pthread_rwlock.c:50-60 | after a wait the count of writers adds up from wait to wait |
| RwLock.PthreadRwlock.WrCheck | src/pthread_rwlock.c:71-83 | a writer enters exactly if nobody reads or writes; else it is counted by priority and waits |
| RwLock.PthreadRwlock.WrWake | src/pthread_rwlock.c:76-80 | a woken writer is counted out by the priority it has then |
| RwLock.PthreadRwlock.Unlock | src/pthread_rwlock.c:89-151 | which counter a release takes down and whom it wakes |
| RwLockRuns.StepKeepsInv | src/pthread_rwlock.c:27-151 | every step keeps the counters equal to the numbers of holders and waiters |
| RwLockRuns.ReaderGivesWay | src/pthread_rwlock.c:35-51 | a reader that comes enters exactly if nobody writes and no writer is blocked at its priority or a numerically lower one |
| RwLockRuns.WokenReaderGivesWay | src/pthread_rwlock.c:42-60 | a woken reader enters exactly if nobody writes and those it counted before and now, at its priority or a numerically higher one, are none |
| RwLockRuns.WriterEntersAlone | src/pthread_rwlock.c:71-83 | a writer, new or woken, enters exactly if nobody reads or writes |
| RwLockRuns.Exclusion | src/pthread_rwlock.c:27-151 | in every run at most one writer, none while anybody reads, and the sum over priorities is the number of blocked writers even if priorities change |
| RwLockRuns.ReleaseByHolderIff | src/pthread_rwlock.c:98-147 | a release by a holder keeps the counters right; one by a thread that holds nothing makes one wrong, or fails |
| Uptime.Tick.AdvanceMs | src/tk_tick.h:59-65 | an advance adds to the two-word counter, carry and final wrap included |
| Uptime.Tick.GetNanoUptime | src/tk_tick.c:68-78 | seconds and nanoseconds stand for the counter with its upper word taken modulo 1000, plus the sub-tick part |
| Uptime.NothingWraps | src/tk_tick.c:68-78 | no intermediate result leaves 32 bits, and the parts add up |
| Uptime.AfterIsTotal | src/tk_tick.h:59-65 | after any run of advances the counter is their total, but for wraps of the upper word |
| Uptime.ExactIff | src/tk_tick.c:68-78 | over all runs the result is the up-time exactly if the total is below 1000 * 2^32 |
| Uptime.TightBound | src/tk_tick.c:68-78 | that is exactly as long as the seconds fit in 32 bits |

## Left out

- Context switches, stack set-up and interrupt locking (src/tk.c:617-713): a switch is an atomic change of the running thread.
- The preempt list: a yield overwrites its choice at once (src/tk_switch.c:108-117); that a pending request cuts the timer's pass short is modelled.
- Round-robin fairness: the row cursor is never advanced, only reset.
- `tk_detach`: it rejects attached threads, so it detaches nothing.
- Schedule.ExactlyOneSlot: does not cover the note of its slot that the root keeps, because every removal overwrites it.
- Kernel.Kernel.ChangePrio: is not stated for a negative priority or for a full last row, where the code leaves its arrays, nor for a root that leaves its row: its note of its slot is not kept up.
- Kernel.Kernel.DeleteThread: is not stated for a full last row, nor for a root with children, which is its own parent and would be buried by that same note.
- Kernel.Kernel.CreateThread: does not model the row count read for a priority out of range; it is one step, though the new thread's stack is prepared in between; whether the name fits and the stack can be had are parameters, and stack memory is not freed on deletion.
- Kernel.Kernel.WakeUp: a pass with a burial that spills is followed up to that burial only, by `Kernel.Kernel.TickThread`.
- Kernel.Kernel.Destructor: takes the time to wake up as a parameter; a zombie never runs again, so its loop is not modelled.
- Units of time-outs: milliseconds in src/tk_itc.c:37 meet microseconds in src/tk_switch.c:55; times are plain numbers here.
- TimedRuns.AlwaysAgrees: says nothing about which waiter a stale mark removes; `Itc.Semaphore.RemoveBlocked` and `TimedRuns.TimeoutSparesOthersIff` do.
- TimedRuns.LeaveAnswers: is about one semaphore; the unlock of another one whose ring still names the thread ends its wait with ERR_OK, too.
- TimedRuns.TimeoutLeavesIff: assumes that no thread is in the ring twice.
- FamilyRuns.StepKeepsInvIff: the deletion of the root, of the idle thread or of a zombie that may still be joined is no step there; `FamilyKept.DeleteKeepsFamIff` says what it breaks.
- JoinRuns.JoinReturnsDeathValue: is about runs in which no release or wake hits a thread in a join; `StaleHits.JoinCutShort` is one that is not.
- MutexRuns.MutualExclusion: is about runs in which nothing elsewhere takes the Q bit of a thread blocked here, as an unlock does of a semaphore whose ring still names it (`StaleHits.LockCutShort`).
- MqRuns.NothingLost: the same.
- MsgQueue.FetchedInOrder: the same.
- SemRuns.AlwaysInv: leaves out timed waits and the deletion of a semaphore with blocked threads.
- The 32-bit width of `token`.
- MsgQueue.QSend: the slot that the queue's number names is the parameter; the allocations of `q_create` are taken to succeed.
- src/tk_itcny.c, which repeats the ring code without the yields, and variable-size queues.
- Mqueue.MBox.SendLocked: descriptor and access checks of `mq_send`, and the pools of `mq_open`, are not modelled; the clock is a parameter.
- Mqueue.Qsort: stands for the C library's `qsort`; only its result is used, and it sorts a copy with a sentinel, since the ring has no slot below its first.
- Sorting.Quicksort: when a range starts at the first slot, the exact condition is stated for the first partition; for the recursive calls a condition that is enough. The depth counters are left out.
- Stalloc.Pool.Free: into an empty list the code leaves the block's link as it was; the condition says so.
- User data in stack blocks: links and lengths are arrays indexed by address.
- Liveness of the readers-writer lock and POSIX condition variables: a wait or a signal is a point where any other thread may run.
- Uptime.Tick.GetNanoUptime: takes the sub-tick nanoseconds as a parameter below one million, and seconds as an unsigned 32-bit number.
- `Idx` of a thread is kept in an array beside the pool.
- src/tk_mem.c, the file system, drivers, HIXS wrappers and stubs.
