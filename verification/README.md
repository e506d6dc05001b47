# Verified models of an RTOS kernel, its drivers and its protocols

This project models the hard core of a small real-time operating system written in C (the ARM64 tree) together with one
JavaScript helper of its tools, and proves what the code keeps over every run. Where the C code updates a structure step
by step, a class or a method with the same loops and assignments is proved against a function on plain values; the
properties are then proved about those functions, for all inputs and all interleavings.

| files | component |
|---|---|
| `HeapSpec.dfy`, `Heap.dfy`, `HeapRuns.dfy` | first-fit heap: block headers tiling one arena under an address-sorted, doubly linked free list; runs that mix plain and aligned allocation |
| `SyncSpec.dfy`, `SyncLaws.dfy`, `MutexSpec.dfy`, `QueueSpec.dfy`, `Sync.dfy`, `MsgQueue.dfy` | semaphore, event flags, recursive mutex with priority boost, message queue |
| `SchedSpec.dfy`, `Scheduler.dfy` | circular ready rings and round robin |
| `KernelLinks.dfy`, `KernelRuns.dfy`, `KernelCases.dfy` | scheduler and semaphore (or mutex) together, over the one pair of links a task has |
| `VirtqSpec.dfy`, `VirtqSystem.dfy`, `VirtqWrap.dfy`, `Virtqueue.dfy` | virtio split virtqueue driver against a device (section 2.7 of VIRTIO 1.2) |
| `TcpSpec.dfy`, `TcpSystem.dfy`, `TcpAcks.dfy`, `Tcp.dfy`, `Rto.dfy` | TCP sequencing over a lossy network, and the timeout estimator |
| `TimerSpec.dfy`, `TimerRuns.dfy`, `TimerHistory.dfy`, `Timers.dfy` | the two software-timer implementations and their equivalence |
| `ModbusCrc.dfy`, `ModbusSpec.dfy`, `ModbusServer.dfy` | Modbus CRC, data model, server and client |
| `UartSpec.dfy`, `Uart.dfy` | UART rings with semaphore tokens |
| `OpcUaSpec.dfy`, `OpcUa.dfy`, `OpcUaTree.dfy` | OPC UA binary codec and address space |
| `Checksum.dfy` | Internet checksum and the IPv4 header |
| `TaskControl.dfy` | the task control block shared by scheduler and kernel objects |
| `Common.dfy`, `Arith.dfy`, `Bits.dfy` | types, facts about division and modular indices, and alignment masks, shared by the above |

How the code is modelled:

- A critical section (between taking and releasing a lock, or inside an interrupt handler) is one atomic step. Blocking
  calls are loops around such sections; each pass of the loop is a step.
- The specifications of the single kernel objects (`SyncSpec`, `MutexSpec`, `QueueSpec`) cover the runs in which no parked caller makes
  a pass. The code does not guarantee that. `KernelRuns` puts the scheduler and a semaphore together over the shared links and proves that
  it holds in exactly the runs in which nobody blocks while it is in its ready ring (`KernelRuns.AlwaysOutExactly`); the current task gets
  into its ring by a yield, or the end of a time slice, that finds it alone at the top, and in no other way (`SchedSpec.EntersRingExactly`).
  What happens otherwise is under the differences below. The methods of `Sync` and `MsgQueue` also take callers that are still parked.
- What an operation computes is a function; what that means is stated beside it without the function: by the calls made before
  (`SyncLaws`, `QueueSpec.OutcomesExactly`, `TimerHistory`), by the bytes on the wire (`OpcUaSpec.WireForm`, `Checksum.HeaderFields`,
  the literal requests and replies of `ModbusSpec`), or by the least value that will do (`HeapSpec.NeedLeast`).
- What the surroundings decide is a parameter: whether an allocation succeeds, how much room the UART hardware has, the
  current tick, the contents of received frames.
- Fixed-width arithmetic is written out where it matters: size_t in the heap's rounding, 16-bit ring indices, 32-bit
  sequence numbers, Modbus counters and checksum accumulator, 8-bit byte counts, 16-bit lengths. `|`, `&` and shifts on bytes and words
  are bit-vector operations in the CRC and arithmetic on bits elsewhere (`& ~` of the heap is `Bits.AndNot`).
- In `ModbusCrc.dfy` the bit-level operations are small named functions, hidden in proofs about whole messages.

Where the code differs from its own comments, or from what a caller would expect, the code is followed:

- `kernel/sync.c:233` says the last unlock wakes the highest-priority waiter; it wakes the most recently parked one, and
  whoever takes the mutex next inherits nothing from those still parked (`MutexSpec.HandOver`, `MutexSpec.HolderOutranksExactly`).
- `kernel/sync.c:31-40` and `kernel/scheduler.c:96-112` link a task through the same `next` and `prev`. A task that blocks while it is in its ready
  ring breaks that ring (`KernelRuns.ParkKeepsRingsExactly`), so that the next task of its priority to become ready follows a null
  pointer (`KernelRuns.NextReadyFaults`). If nothing ready outranks it, it also keeps the processor and passes again while it
  is parked (`KernelRuns.KeepsProcessorExactly`), which drops the tasks behind it from the wait list: a lost wake-up (`KernelCases.ListStaysExactly`,
  `KernelCases.SecondPassDrops`, `KernelCases.LostWakeUp`).
- `kernel/scheduler.c:283-284` links a sleeping task in when its time comes, also one that kept the processor and is still in its ring; the
  others of that ring are then in it no more (`KernelCases.ReaddDropsOthers`).
- `kernel/sync.c:163` raises the priority field of an owner that may be in a ready ring; a later removal then works on the wrong list
  (`KernelCases.BoostBreaksRing`).
- `kernel/interrupt.c:256-262` takes a periodic timer with delay 0; the next tick's handler then never returns (`TimerSpec.TickEndsExactly`,
  `TimerSpec.ZeroPeriodSpins`).
- `kernel/sync.c:129` says the scheduler will add the woken task to the ready list. Neither `sync.c` nor `scheduler.c` does: waking
  only sets the state READY, and a task that is in no ring is never chosen (`SchedSpec.NeverChosen`). What the models of
  `sync.c` promise a woken task therefore holds from the moment something runs it.
- `kernel/scheduler.c:233` says the ring is rotated on a yield; the assignment changes nothing, since the caller has just been
  linked in before the head (`Scheduler.Scheduler.Rotation`). Tasks of equal priority take turns all the same, exactly as long as the
  caller is in no ring (`SchedSpec.RoundRobinExactly`). A yield while alone at the top leaves the caller in its ring; from then
  on neither yielding nor sleeping gives up the processor (`SchedSpec.AloneThenUnfair`, `SchedSpec.GivesUpExactly`).
- `drivers/timer/timer.c` calls its list sorted; renewing periodic timers in place can unsort it, exactly when a renewed timer comes
  to lie ahead of one due earlier (`TimerRuns.DriverSortedExactly`, `TimerRuns.ScanUnsorts`), without changing what fires
  (`TimerRuns.Bisimilar`).
- `net/stack/tcp.c:360` handles a FIN without comparing its sequence number, so a FIN that overtakes data cuts the stream short
  (`TcpSystem.FinCompletesExactly`, `TcpSystem.StreamCut`).
- `net/stack/tcp.c:120` takes a smoothed time of 0 for a first measurement (`Rto.ZeroRestarts`).
- `opcua_find_node` compares text ids' namespace and type but returns only numeric ids.

## Model

| member | source | states |
|---|---|---|
| HeapSpec.NeedHoldsRequest | ARM64-RTOS/kernel/memory.c:71-75 | the masked size holds request and header exactly when the 64-bit addition does not wrap |
| HeapSpec.NeedLeast | ARM64-RTOS/kernel/memory.c:71-75 | short of that wrap it is the least multiple of 16 that is at least 48 and leaves the request 32 bytes for the header; after a wrap it is 48 |
| HeapSpec.ServedExactly | ARM64-RTOS/kernel/memory.c:65-118 | a request is served exactly when some free block is 32 bytes larger than it, from the lowest such block, with at most 47 bytes to spare; the rest stays one free block and no other block changes |
| HeapSpec.CarveKeeps | ARM64-RTOS/kernel/memory.c:83-108 | allocation keeps the arena tiled and coalesced; the new block is at the fitting block's address, large enough, and too small to have been split further |
| HeapSpec.CarveLive | ARM64-RTOS/kernel/memory.c:83-112 | allocation adds exactly the returned block to the live ones |
| HeapSpec.ReleaseKeeps | ARM64-RTOS/kernel/memory.c:133-174 | release keeps the arena tiled with no two free blocks touching |
| HeapSpec.ReleaseLive | ARM64-RTOS/kernel/memory.c:123-177 | release takes exactly that block out of use |
| HeapSpec.ReleaseUndoesCarve | ARM64-RTOS/kernel/memory.c:65-177 | freeing the block just allocated restores the heap exactly |
| HeapSpec.ExtentsDisjoint | ARM64-RTOS/kernel/memory.c:65-118 | payloads of different blocks never overlap and lie inside the arena |
| HeapSpec.RunKeeps | ARM64-RTOS/kernel/memory.c:52-177 | after any run of allocations and legal frees the blocks tile the arena and no two free ones touch |
| HeapSpec.NothingLive | ARM64-RTOS/kernel/memory.c:156-174 | with nothing live the heap is one arena-sized block |
| HeapSpec.FreeAllInAnyOrder | ARM64-RTOS/kernel/memory.c:123-177 | freeing every live block once, in any order, restores that block |
| HeapSpec.AlignedInside | ARM64-RTOS/kernel/memory.c:193-197 | for every alignment the masked address leaves room for the word below it and for the request; for a power of two it is aligned |
| HeapSpec.AlignedPlaced | ARM64-RTOS/kernel/memory.c:193-197 | for a power of two the pointer is the first multiple of it that leaves 8 bytes below; alignments below 16 count as 16 |
| Bits.MaskRoundsExactly | ARM64-RTOS/kernel/memory.c:194-194 | `& ~(a - 1)` rounds every address down to a multiple of a exactly when a is a power of two |
| Bits.AndNotBounds | ARM64-RTOS/kernel/memory.c:194-194 | for any a at all it takes away at most a - 1 |
| HeapRuns.MixedRunKeeps | ARM64-RTOS/kernel/memory.c:65-211 | after any legal run mixing all four calls the arena is tiled and coalesced and every aligned pointer in use lies, with the word below it, in the payload of a live block of its own |
| HeapRuns.AlignedApart | ARM64-RTOS/kernel/memory.c:182-211 | from heap_init on, what two aligned pointers in use may touch, the word below each included, never overlaps |
| Heap.KernelHeap.constructor | ARM64-RTOS/kernel/memory.c:52-60 | one free block, linked |
| Heap.KernelHeap.Split | ARM64-RTOS/kernel/memory.c:83-96 | the tail becomes a free block linked right after; no other block changes |
| Heap.KernelHeap.Unlink | ARM64-RTOS/kernel/memory.c:100-108 | the free list without that block, still well linked |
| Heap.KernelHeap.Alloc | ARM64-RTOS/kernel/memory.c:65-118 | NULL exactly when size is 0 or no free block is 32 bytes larger than the request (any free block does when the size wraps), otherwise the lowest-addressed one that is; the free list stays the address-sorted list of exactly the free blocks |
| Heap.KernelHeap.AllocBlock | ARM64-RTOS/kernel/memory.c:77-117 | the search over the free list takes the lowest-addressed free block that fits, split or whole |
| Heap.KernelHeap.Position | ARM64-RTOS/kernel/memory.c:136-142 | the neighbours in address order |
| Heap.KernelHeap.Insert | ARM64-RTOS/kernel/memory.c:144-154 | the block linked between them |
| Heap.KernelHeap.AbsorbNext | ARM64-RTOS/kernel/memory.c:156-164 | the next block merged in and off the list |
| Heap.KernelHeap.AbsorbPrev | ARM64-RTOS/kernel/memory.c:166-174 | merged into the previous block and off the list |
| Heap.KernelHeap.Free | ARM64-RTOS/kernel/memory.c:123-177 | the specified release, all invariants kept |
| Heap.KernelHeap.AllocAligned | ARM64-RTOS/kernel/memory.c:182-202 | NULL exactly when no free block has room for the request, the alignment (16 at least), 8 bytes and the header; otherwise the lowest such block is used, the pointer, the word below it and its extent lie in its payload, and for a power of two it is the first multiple there |
| Heap.KernelHeap.FreeAligned | ARM64-RTOS/kernel/memory.c:204-211 | releases the block recorded below the pointer |
| Heap.KernelHeap.GetStats | ARM64-RTOS/kernel/memory.c:313-344 | the walk ends; used + free = total, and largest is the true largest free block |
| Heap.UsedCounts | ARM64-RTOS/kernel/memory.c:313-344 | nothing counts as used in a free heap; an allocation adds, and a release takes away, exactly the size of its block |
| Sync.WaitList.Add | ARM64-RTOS/kernel/sync.c:32-40 | the caller heads the list, which stays well linked exactly when the caller was not in it; a caller that headed it already is left linked to itself |
| Sync.WaitList.RemoveFirst | ARM64-RTOS/kernel/sync.c:42-53 | the first leaves, the rest stay well linked |
| SyncSpec.SemStepKeeps | ARM64-RTOS/kernel/sync.c:79-133 | each step conserves tokens and loses no wake-up |
| SyncSpec.SemSafety | ARM64-RTOS/kernel/sync.c:72-133 | from sem_init on, in every interleaving in which no parked caller makes a pass: count = initial - taken + posted, never negative, and while anyone is parked it does not exceed the woken tasks that have still to take their next pass |
| SyncLaws.GotExactly | ARM64-RTOS/kernel/sync.c:79-133 | from sem_init on, sem_wait and sem_trywait get a token exactly when more were there and posted than handed out before |
| SyncLaws.WhoMoves | ARM64-RTOS/kernel/sync.c:79-133 | a refused sem_wait parks its caller, a successful one does not, a post wakes one parked task, and nobody else moves |
| SyncLaws.LastInFirstOut | ARM64-RTOS/kernel/sync.c:32-53 | the post after a refused wait wakes that caller and leaves those parked before it as they were |
| Sync.Semaphore.WaitPass | ARM64-RTOS/kernel/sync.c:79-102 | one pass of the wait loop does that step for every caller that is not parked; a caller that still is takes its token all the same or breaks the list |
| Sync.Semaphore.TryWait | ARM64-RTOS/kernel/sync.c:104-116 | takes a token or changes nothing |
| Sync.Semaphore.Post | ARM64-RTOS/kernel/sync.c:118-133 | adds a token and wakes one |
| SyncSpec.EventStepKeeps | ARM64-RTOS/kernel/sync.c:254-306 | no step leaves a parked waiter whose condition holds |
| SyncSpec.EventSafety | ARM64-RTOS/kernel/sync.c:247-306 | from event_init on, in every interleaving in which no parked caller makes a pass, every parked waiter's condition is false |
| SyncLaws.FlagsExactly | ARM64-RTOS/kernel/sync.c:247-306 | from event_init on, a flag is set exactly when some event_set of it has no later event_clear of it and no later successful clearing wait on it |
| SyncLaws.MetExactly | ARM64-RTOS/kernel/sync.c:254-282 | a wait succeeds exactly when all its flags stand, or for an any-wait one of them |
| SyncLaws.SetServes | ARM64-RTOS/kernel/sync.c:254-299 | after an event_set whose mask meets a wait, its next pass succeeds unless those flags were taken in between |
| SyncLaws.WaitMoves | ARM64-RTOS/kernel/sync.c:254-282 | a refused wait is parked and changes no flag, a successful one is not parked, and nobody else moves |
| SyncLaws.SetWakes | ARM64-RTOS/kernel/sync.c:284-299 | event_set wakes every parked waiter and nobody else |
| Sync.EventFlags.WaitPass | ARM64-RTOS/kernel/sync.c:254-282 | one pass of the wait loop, with the flags handed out; a caller that is still parked and has to wait breaks the list |
| Sync.EventFlags.Set | ARM64-RTOS/kernel/sync.c:284-299 | sets flags and wakes every waiter |
| Sync.EventFlags.Clear | ARM64-RTOS/kernel/sync.c:301-306 | clears flags |
| MutexSpec.StepKeeps | ARM64-RTOS/kernel/sync.c:147-242 | each call keeps exclusion, nesting depth, exact priorities and wake-ups |
| MutexSpec.Safety | ARM64-RTOS/kernel/sync.c:138-242 | from mutex_init on, in every interleaving in which no parked caller makes a pass: at most one holder, lock_count = its nesting depth, its priority = the highest base priority of itself and those that blocked in its tenure, everyone else at base priority, and a free mutex with parked waiters has one pending |
| MutexSpec.GrantedExactly | ARM64-RTOS/kernel/sync.c:147-211 | in every reachable state lock and trylock succeed exactly when nobody else holds the mutex; a refused trylock changes nothing, a refused lock parks the caller, and nobody else moves |
| MutexSpec.ResumedExactly | ARM64-RTOS/kernel/sync.c:156-186 | the same for the next pass of a woken caller |
| MutexSpec.HolderNotBelow | ARM64-RTOS/kernel/sync.c:160-165 | the holder never runs below its acquire-time priority or that of a task that blocked on it |
| MutexSpec.LastUnlockRestores | ARM64-RTOS/kernel/sync.c:229-231 | the last unlock restores the acquire-time priority |
| MutexSpec.HolderOutranksExactly | ARM64-RTOS/kernel/sync.c:156-186 | in every reachable state with a holder: no parked task outranks it exactly when every parked task that did not block in this tenure has a base priority of at most the holder's priority |
| MutexSpec.TakenBy | ARM64-RTOS/kernel/sync.c:167-211 | whoever takes a free mutex, by either call, holds it at its own base priority and inherits nothing from the tasks parked |
| MutexSpec.HandOver | ARM64-RTOS/kernel/sync.c:233-239 | the most recently parked task is woken; whoever takes the mutex next, that task or a quicker one, outranks those still parked exactly when its base priority is at least each of theirs |
| MutexSpec.WaiterCanOutrankHolder | ARM64-RTOS/kernel/sync.c:233-239 | a run from the fresh mutex into a state with a waiter that outranks the holder |
| Sync.Mutex.LoopPass | ARM64-RTOS/kernel/sync.c:156-186 | boost the owner and park, or take the mutex; a caller that is still parked and has to wait breaks the list |
| Sync.Mutex.Lock | ARM64-RTOS/kernel/sync.c:147-187 | recursive lock, or one such pass |
| Sync.Mutex.TryLock | ARM64-RTOS/kernel/sync.c:189-211 | takes it if free or already held by the caller |
| Sync.Mutex.Unlock | ARM64-RTOS/kernel/sync.c:213-242 | only the owner's unlock counts; the last one restores and wakes |
| QueueSpec.StepKeeps | ARM64-RTOS/kernel/sync.c:330-414 | each pass keeps the FIFO's accounting and both wake-up bounds |
| QueueSpec.Safety | ARM64-RTOS/kernel/sync.c:311-414 | in every interleaving in which no parked caller makes a pass, the received messages are a prefix of the sent ones, short by exactly the number queued, which never exceeds capacity; nobody stays parked on a queue that could serve it with no one pending |
| QueueSpec.OutcomesExactly | ARM64-RTOS/kernel/sync.c:330-414 | after every such run a send succeeds exactly while fewer than capacity accepted messages are undelivered, a receive exactly while one is, and the k-th successful receive delivers the k-th accepted message; otherwise the caller is parked if it may wait, and only then |
| MsgQueue.RingPush | ARM64-RTOS/kernel/sync.c:351-359 | writing the slot at tail appends to the FIFO and keeps every queued message byte for byte |
| MsgQueue.RingPop | ARM64-RTOS/kernel/sync.c:395-402 | advancing head drops exactly the oldest |
| MsgQueue.Queue.constructor | ARM64-RTOS/kernel/sync.c:311-328 | an empty queue over the buffer |
| MsgQueue.Queue.CopyIn | ARM64-RTOS/kernel/sync.c:351-357 | the copy loop fills the tail slot and nothing else |
| MsgQueue.Queue.CopyOut | ARM64-RTOS/kernel/sync.c:394-399 | the copy loop returns the head slot |
| MsgQueue.Queue.Send | ARM64-RTOS/kernel/sync.c:330-371 | one pass of the loop refines the FIFO's send; a caller that is still parked and has to wait breaks the list |
| MsgQueue.Queue.Receive | ARM64-RTOS/kernel/sync.c:373-414 | one pass of the loop refines the FIFO's receive, returning the FIFO's head; a caller that is still parked and has to wait breaks the list |
| SchedSpec.YieldRotates | ARM64-RTOS/kernel/scheduler.c:228-270 | among tasks sharing the top priority a yield runs the next and sends the caller to the end |
| SchedSpec.RunSane | ARM64-RTOS/kernel/scheduler.c:96-270 | in every run of starting, yielding, sleeping and terminating in which only tasks in no ring are made ready, nobody is queued twice, and the current task, if queued at all, heads its own ring and is not RUNNING |
| SchedSpec.FromStart | ARM64-RTOS/kernel/scheduler.c:96-336 | the same from the empty scheduler on, through scheduler_start |
| SchedSpec.StartsHighest | ARM64-RTOS/kernel/scheduler.c:319-336 | scheduler_start runs the head of the highest ring that is not empty and takes it off, or else the idle task |
| SchedSpec.NeverChosen | ARM64-RTOS/kernel/sync.c:125-130 | a task in no ring is never chosen by any run of the scheduler until something links it in, whatever its state says |
| SchedSpec.GivesUpExactly | ARM64-RTOS/kernel/scheduler.c:220-270 | in every reachable state sleeping or terminating gives up the processor exactly when the caller is in no ring or outranked |
| SchedSpec.GivenUpForGood | ARM64-RTOS/kernel/scheduler.c:220-270 | a caller in no ring that sleeps, blocks or terminates never runs again, in any run, until something links it in |
| SchedSpec.RoundRobin | ARM64-RTOS/kernel/scheduler.c:228-270 | k >= 2 sharing tasks each run exactly once in any k consecutive turns, and the order repeats |
| SchedSpec.RoundRobinExactly | ARM64-RTOS/kernel/scheduler.c:228-270 | in every reachable state with k >= 2 tasks at the top: from every moment on each runs once in k turns exactly when the current one is in no ring |
| SchedSpec.HandsOver | ARM64-RTOS/kernel/scheduler.c:228-270 | in every reachable state, exactly when a yield runs somebody else, for a caller RUNNING or not |
| SchedSpec.AloneStaysQueued | ARM64-RTOS/kernel/scheduler.c:257-268 | a yield alone at the top leaves the caller READY in its own ring |
| SchedSpec.EntersRingExactly | ARM64-RTOS/kernel/scheduler.c:228-270 | in every reachable state, the one step that leaves the current task in a ring when it was in none is a yield of a RUNNING task with nothing of at least its priority ready |
| SchedSpec.AloneThenUnfair | ARM64-RTOS/kernel/scheduler.c:228-270 | after that, any task of its priority that becomes ready is never run by yields, however many |
| SchedSpec.StartPreempts | ARM64-RTOS/kernel/scheduler.c:199-218 | starting a task that outranks all runs it at once; the caller waits at the end of its ring, or where it was if it was queued |
| SchedSpec.RemovalNeedsPriority | ARM64-RTOS/kernel/scheduler.c:114-129 | removal keeps the list heads and the rings in agreement exactly when the priority field names the ring or the removed task is not its head |
| Scheduler.Ring.Add | ARM64-RTOS/kernel/scheduler.c:96-112 | the circular ring refines a queue: appended at the end |
| Scheduler.Ring.Remove | ARM64-RTOS/kernel/scheduler.c:114-129 | the circular ring refines a queue: removed from anywhere |
| Scheduler.Scheduler.GetHighestReady | ARM64-RTOS/kernel/scheduler.c:131-139 | the head of the highest non-empty ring, or the idle task |
| Scheduler.Scheduler.ReadyListAdd | ARM64-RTOS/kernel/scheduler.c:96-112 | that ring's queue grows, all others and their links stay |
| Scheduler.Scheduler.ReadyListRemove | ARM64-RTOS/kernel/scheduler.c:114-129 | that ring's queue shrinks, all others and their links stay |
| Scheduler.Scheduler.ScheduleLocked | ARM64-RTOS/kernel/scheduler.c:257-270 | the specified switch, rings kept |
| Scheduler.Scheduler.TaskYield | ARM64-RTOS/kernel/scheduler.c:228-238 | the specified yield, rings kept |
| Scheduler.Scheduler.Rotation | ARM64-RTOS/kernel/scheduler.c:233-234 | the rotation assigns the head its own value |
| Scheduler.Scheduler.TaskCreate | ARM64-RTOS/kernel/scheduler.c:150-197 | refused exactly for a priority out of range or a full table, where the idle task counts once scheduler_start listed it; otherwise a new suspended task, in no ring |
| Scheduler.Scheduler.Begin | ARM64-RTOS/kernel/scheduler.c:319-336 | the idle task takes a table slot if there is one, and the head of the highest ring, or else the idle task, runs |
| Scheduler.Scheduler.TaskStart | ARM64-RTOS/kernel/scheduler.c:199-218 | nothing unless the task is suspended; else queues it and, if the scheduler runs and the task outranks the caller, yields, whatever state the caller is in |
| Scheduler.Scheduler.Leave | ARM64-RTOS/kernel/scheduler.c:220-226 | a terminating (or sleeping) caller keeps the processor exactly when it heads the highest ring; rings kept |
| KernelRuns.CleanRun | ARM64-RTOS/kernel/scheduler.c:96-270 | over every joint run of scheduler and semaphore in which nobody blocks while it is in its ready ring, the code on the shared links follows no null pointer and does what the queue and semaphore specifications say; the semaphore sees callers come back only after they were woken |
| KernelRuns.JointSafety | ARM64-RTOS/kernel/sync.c:79-133 | from sem_init and an empty scheduler on, in every such run: all rings and the wait list well linked and disjoint, tokens conserved, no wake-up lost |
| KernelRuns.ParkKeepsRingsExactly | ARM64-RTOS/kernel/sync.c:32-40 | in every state of such a run, blocking keeps the ready rings linked exactly when the caller is in none of them |
| KernelRuns.NextReadyFaults | ARM64-RTOS/kernel/scheduler.c:105-109 | after a caller blocked in its ring, making any other task of its priority ready follows a null pointer |
| KernelRuns.KeepsProcessorExactly | ARM64-RTOS/kernel/sync.c:83-91 | a blocking caller keeps the processor, and so passes again while it is parked, exactly when it is in its ring and nothing ready outranks it |
| KernelRuns.ParkedOutExactly | ARM64-RTOS/kernel/sync.c:83-91 | blocking keeps every parked task out of the rings and off the processor exactly when the caller was in no ring |
| KernelRuns.AlwaysOutExactly | ARM64-RTOS/kernel/sync.c:79-133 | over every joint run: no parked task is ever in a ring or current exactly when nobody blocks while it is in its ring |
| KernelRuns.BlockedForGood | ARM64-RTOS/kernel/sync.c:118-133 | a caller that blocks in no ring never runs again, however often the semaphore is posted, until something links it into a ring |
| KernelCases.ListStaysExactly | ARM64-RTOS/kernel/sync.c:32-40 | adding a task leaves some well-linked wait list exactly when the task was not in it |
| KernelCases.SecondPassDrops | ARM64-RTOS/kernel/sync.c:32-53 | a pass by a task that is parked already, and its wake-up, leave it first in the list and drop exactly the tasks behind it |
| KernelCases.StrandedForGood | ARM64-RTOS/kernel/sync.c:32-53 | those tasks are never woken by any run of posts and passes unless one of them makes a pass itself |
| KernelCases.LostWakeUp | ARM64-RTOS/kernel/sync.c:79-133 | a run of ten steps from the boot state into a lost wake-up: a token is left, nobody woken has still to pass, and no number of posts wakes the parked task |
| KernelCases.ReaddDropsOthers | ARM64-RTOS/kernel/scheduler.c:277-288 | linking in the head of a ring again leaves a ring of it alone, and so keeps the ring exactly when it was alone |
| KernelCases.RaisedIs | ARM64-RTOS/kernel/sync.c:160-165 | the boost on the task control blocks is the boost of the mutex specification |
| KernelCases.BoostBreaksRing | ARM64-RTOS/kernel/sync.c:156-176 | blocking on a mutex whose owner is the next ready task and ranks lower runs the owner but leaves it the head of its old list, unlinked; the next task of that priority to become ready then follows a null pointer |
| KernelCases.BoostBreaksRingReached | ARM64-RTOS/kernel/sync.c:147-187 | one run of scheduler and mutex from the boot state that gets there, with the mutex specification run alongside |
| VirtqSystem.InitialInv | ARM64-RTOS/drivers/eth/eth.c:246-249 | a fresh queue of a size dividing 2^16 satisfies the invariant |
| VirtqSystem.OfferKeeps | ARM64-RTOS/drivers/eth/eth.c:299-361 | posting a chain, or failing to, keeps the whole invariant (the transmit side is eth.c:430-500) |
| VirtqSystem.OfferedExactly | ARM64-RTOS/drivers/eth/eth.c:299-361 | in every reachable state a submission is taken up exactly when a buffer is available and at least two descriptors are not in flight; the device then finds it behind all others, in the slot just published, with the buffer saved; otherwise no chain is added |
| VirtqSystem.ReapKeeps | ARM64-RTOS/drivers/eth/eth.c:505-529 | consuming a used entry gives back exactly its descriptors and buffer (the receive side is eth.c:374-425) |
| VirtqSystem.ReapedExactly | ARM64-RTOS/drivers/eth/eth.c:505-529 | the loop goes on exactly while a completed chain is not reaped, and each round gives back the oldest one: its buffer, its saved entry and its descriptors, and nothing else |
| VirtqSystem.DeviceTakeKeeps | ARM64-RTOS/drivers/eth/eth.c:347-353 | the device taking the next published head keeps the invariant |
| VirtqSystem.DeviceCompleteKeeps | ARM64-RTOS/drivers/eth/eth.c:380-397 | the device completing chains in any order keeps the invariant |
| VirtqSystem.NextSlots | ARM64-RTOS/drivers/eth/eth.c:511-515 | the slot either side reads next holds the oldest unconsumed head: no slot was overwritten before it was read |
| VirtqSystem.StepKeeps | ARM64-RTOS/drivers/eth/eth.c:275-529 | every step of either side keeps ownership, saved buffers, rings and accounting |
| VirtqSystem.Safety | ARM64-RTOS/drivers/eth/eth.c:204-529 | from virtq_init on, in every interleaving with an honest device and across every wrap of the 16-bit indices: each descriptor is owned once, has a saved buffer exactly when it heads a chain in flight, and each buffer offered is given back exactly once unless still in flight |
| VirtqSystem.OwnedOnce | ARM64-RTOS/drivers/eth/eth.c:275-294 | the free chain and the chains in flight partition the descriptors |
| VirtqSystem.SavedIffInFlight | ARM64-RTOS/drivers/eth/eth.c:341-346 | a descriptor has a saved buffer exactly when it heads a chain in flight |
| VirtqSystem.FreedExactlyOnce | ARM64-RTOS/drivers/eth/eth.c:505-529 | no buffer is given back twice; one offered and not in flight has been given back |
| VirtqSystem.IndicesDiffer | ARM64-RTOS/drivers/eth/eth.c:511-511 | wrapped indices differ exactly while something is unconsumed |
| VirtqSystem.RingSizeExact | ARM64-RTOS/drivers/eth/eth.c:347-353 | the slot of a wrapped 16-bit index is the slot of the true count for exactly the ring sizes dividing 2^16 |
| VirtqWrap.WrapOverwrites | ARM64-RTOS/drivers/eth/eth.c:347-353 | a run on a ring of 3: after 65535 frames, two frames offered at once share a slot, and the device reads the newer one in place of the older |
| Virtqueue.Queue.constructor | ARM64-RTOS/drivers/eth/eth.c:204-249 | the free chain 0, 1, ..., num-1 |
| Virtqueue.Queue.AllocDesc | ARM64-RTOS/drivers/eth/eth.c:275-284 | pops the chain, or -1 |
| Virtqueue.Queue.FreeDesc | ARM64-RTOS/drivers/eth/eth.c:289-294 | pushes onto the chain |
| Virtqueue.Queue.RxAddBuffer | ARM64-RTOS/drivers/eth/eth.c:299-361 | the two-descriptor submission, or nothing changed |
| Virtqueue.Queue.TxSend | ARM64-RTOS/drivers/eth/eth.c:430-500 | the one-descriptor submission, or nothing changed |
| Virtqueue.Queue.RxTake | ARM64-RTOS/drivers/eth/eth.c:380-397 | one receive completion |
| Virtqueue.Queue.TxTake | ARM64-RTOS/drivers/eth/eth.c:511-526 | one transmit completion |
| Virtqueue.Queue.TxProcess | ARM64-RTOS/drivers/eth/eth.c:505-529 | the loop frees every finished buffer once, in ring order |
| TcpSystem.StepKeeps | ARM64-RTOS/net/stack/tcp.c:183-423 | each step of either end keeps the connection invariant |
| TcpSystem.AcceptedData | ARM64-RTOS/net/stack/tcp.c:342-358 | data accepted because seq = rcv_nxt continues the prefix |
| TcpSystem.Safety | ARM64-RTOS/net/stack/tcp.c:183-423 | over every run with loss, duplication and reordering, both ways: bytes queued are a prefix of bytes sent, and until the peer's FIN is taken (SYN-RECEIVED, ESTABLISHED, FIN-WAIT-1, FIN-WAIT-2) rcv_nxt = IRS + 1 + bytes queued (section 3.10.7.4 of RFC 9293) |
| TcpSystem.QueuedExactly | ARM64-RTOS/net/stack/tcp.c:342-358 | a data segment is queued exactly when ESTABLISHED and it starts at the first missing byte |
| TcpSystem.FinCompletesExactly | ARM64-RTOS/net/stack/tcp.c:360-390 | in every reachable state that takes a FIN (ESTABLISHED, FIN-WAIT-1 if it acknowledges, FIN-WAIT-2) any FIN of the peer closes the stream, and the bytes queued are then all the peer ever sends exactly when its number is the one expected |
| TcpSystem.StreamCut | ARM64-RTOS/net/stack/tcp.c:336-367 | a run from unopened sockets that ends in CLOSE-WAIT with a sent byte missing |
| TcpSystem.NothingAfterFin | ARM64-RTOS/net/stack/tcp.c:360-406 | after a FIN that is taken no sequence of segments changes the socket |
| TcpSystem.GuardWraps | ARM64-RTOS/net/stack/tcp.c:342-358 | at 2^32 bytes the guard accepts the first segment again, so the bound is needed |
| TcpSystem.GuardWrapsReached | ARM64-RTOS/net/stack/tcp.c:183-423 | the handshake and 2^17 segments of 2^15 bytes get there, and the first of them is queued a second time |
| TcpAcks.RepliesExactly | ARM64-RTOS/net/stack/tcp.c:330-390 | data that is queued and a FIN that is taken are each answered by one acknowledgement if there is a buffer, and nothing else is; it carries the number behind the last byte, or behind the FIN |
| TcpAcks.AckSafety | ARM64-RTOS/net/stack/tcp.c:183-423 | over every run with loss, duplication and reordering, every acknowledgement on the wire is for the SYN and bytes its sender has queued, or for all of them and the FIN |
| TcpAcks.QueuedIsAcked | ARM64-RTOS/net/stack/tcp.c:342-358 | in every reachable state, queueing data with a buffer at hand puts an acknowledgement of all bytes queued on the wire |
| TcpAcks.OpensUnacknowledged | ARM64-RTOS/net/stack/tcp.c:524-529 | the SYN of either side is unacknowledged when it goes out; the last acknowledgement closes a socket waiting for it |
| TcpAcks.Conversation | ARM64-RTOS/net/stack/tcp.c:183-423 | with nothing lost, for all initial numbers and all data: the handshake opens both sides, whatever either says arrives whole and in order however long it is, and the closing FIN is taken and acknowledged |
| Tcp.Socket.SendSegment | ARM64-RTOS/net/stack/tcp.c:183-221 | numbers the segment and advances snd_nxt |
| Tcp.Socket.Input | ARM64-RTOS/net/stack/tcp.c:299-406 | the state machine of one segment |
| Tcp.Socket.InputEstablished | ARM64-RTOS/net/stack/tcp.c:336-367 | its ESTABLISHED case |
| Tcp.Socket.Output | ARM64-RTOS/net/stack/tcp.c:415-423 | sends in ESTABLISHED only |
| Tcp.Socket.Connect | ARM64-RTOS/net/stack/tcp.c:509-531 | initial sequence number and SYN |
| Tcp.Socket.Close | ARM64-RTOS/net/stack/tcp.c:660-672 | FIN according to state |
| Rto.Estimator.constructor | ARM64-RTOS/net/stack/tcp.c:142-151 | the initial estimate |
| Rto.Estimator.Measure | ARM64-RTOS/net/stack/tcp.c:116-137 | one integer update |
| Rto.NoOverflow | ARM64-RTOS/net/stack/tcp.c:116-137 | no intermediate value leaves 32 bits up to a minute |
| Rto.StaysInRange | ARM64-RTOS/net/stack/tcp.c:116-137 | samples in [lo, hi] keep srtt in [lo, hi] and rto in [200, 60000] for ever (section 2 of RFC 6298) |
| Rto.Converges | ARM64-RTOS/net/stack/tcp.c:116-137 | a constant sample r settles, in finitely many steps and for good, at r-7 <= srtt <= r (srtt = r from above) with rttvar <= 7 |
| Rto.TracksExact | ARM64-RTOS/net/stack/tcp.c:116-137 | over any samples, none of which meets a smoothed time of 0 (as none does when all are at least 1), the integer estimator stays within 8 (srtt), 12 (rttvar) and 56 (rto) of the unrounded one of section 2 of RFC 6298 |
| Rto.ZeroRestarts | ARM64-RTOS/net/stack/tcp.c:120-124 | a sample that meets a smoothed time of 0 starts afresh: after 0 and 1000 the code has 1000, the standard 125 |
| TimerSpec.StartFacts | ARM64-RTOS/kernel/interrupt.c:256-290 | starting replaces what was pending under that timer; the list stays sorted and duplicate-free |
| TimerSpec.SortedTickFacts | ARM64-RTOS/kernel/interrupt.c:312-344 | a tick fires each due timer once, renews the periodic ones, and leaves a sorted list with nothing expired |
| TimerSpec.RoundsServe | ARM64-RTOS/kernel/interrupt.c:318-341 | on a sorted list where no due periodic timer has period 0, the handler's rounds end and are the specified tick |
| TimerSpec.TickEndsExactly | ARM64-RTOS/kernel/interrupt.c:318-341 | on every sorted list the handler returns exactly when no due active periodic timer has period 0 |
| TimerSpec.ZeroPeriodSpins | ARM64-RTOS/kernel/interrupt.c:256-290 | starting a periodic timer with delay 0 on the empty list: the next tick's handler never returns |
| TimerSpec.ScanTickFacts | ARM64-RTOS/drivers/timer/timer.c:145-186 | the scan does the same to the pending set, in any list order |
| TimerSpec.FiredInOrder | ARM64-RTOS/kernel/interrupt.c:312-344 | both handlers fire the due timers in the order of the list, the kernel's therefore by expiry (the driver's is drivers/timer/timer.c:145-186) |
| TimerSpec.ScanSortedExactly | ARM64-RTOS/drivers/timer/timer.c:145-186 | a tick leaves a sorted list sorted exactly when each due periodic timer is renewed to no later than any surviving timer behind it will say |
| TimerRuns.KernelRefines | ARM64-RTOS/kernel/interrupt.c:256-344 | over every run the sorted list behaves as the set of pending timers |
| TimerRuns.DriverRefines | ARM64-RTOS/drivers/timer/timer.c:344-411 | over every run the scanned list does too |
| TimerRuns.Bisimilar | ARM64-RTOS/drivers/timer/timer.c:145-186 | for every event sequence both fire the same timers at every step and keep the same pending (timer, expiry) pairs; the kernel's list stays sorted |
| TimerRuns.DriverSortedExactly | ARM64-RTOS/drivers/timer/timer.c:145-411 | over every run the driver's list is always sorted exactly when every tick meets that condition |
| TimerRuns.ScanUnsorts | ARM64-RTOS/drivers/timer/timer.c:160-164 | a run from the empty list, of two starts and three ticks, that ends unsorted |
| TimerRuns.NoDrift | ARM64-RTOS/kernel/interrupt.c:312-344 | a period-p timer started at t and left alone fires exactly at t+p, t+2p, ... |
| TimerRuns.ArmedOnSchedule | ARM64-RTOS/kernel/interrupt.c:256-290 | starting puts a timer on that schedule |
| TimerHistory.FiresExactly | ARM64-RTOS/kernel/interrupt.c:256-344 | both implementations, over every sequence of starts, stops and ticks from empty: a timer fires exactly at the ticks its last start asks for if it was not stopped since, once for a one-shot timer and at every multiple for a periodic one |
| Timers.Service.Link | ARM64-RTOS/kernel/interrupt.c:280-286 | the sorted insertion loop and its relinking |
| Timers.Service.Unlink | ARM64-RTOS/kernel/interrupt.c:292-310 | the removal loop and its relinking |
| Timers.Service.Stop | ARM64-RTOS/drivers/timer/timer.c:388-411 | the timer is inactive and off the list |
| Timers.Service.KernelTick | ARM64-RTOS/kernel/interrupt.c:312-344 | with no due periodic timer of period 0 the loop terminates and does the sorted tick |
| Timers.Service.DriverStart | ARM64-RTOS/drivers/timer/timer.c:344-383 | refuses delay 0, otherwise restarts the timer |
| Timers.Service.DriverTick | ARM64-RTOS/drivers/timer/timer.c:145-195 | the scanning loop does the scan tick |
| ModbusCrc.TableRight | ARM64-RTOS/protocols/modbus/modbus.c:33-66 | each of the 256 table entries is eight bitwise steps of its index |
| ModbusCrc.LookupRight | ARM64-RTOS/protocols/modbus/modbus.c:71-73 | one table round equals eight bitwise steps |
| ModbusCrc.ModbusCrc16 | ARM64-RTOS/protocols/modbus/modbus.c:68-75 | the table-driven loop computes the bitwise CRC of every byte string |
| ModbusCrc.CalculateModbusCrc | devtools/shared/src/utils/protocol.js:94-109 | the bitwise loop computes the same function |
| ModbusCrc.ResidueZero | ARM64-RTOS/protocols/modbus/modbus.c:68-75 | a frame leaves residue 0 exactly when its last two bytes are the CRC, low byte first (section 6.2.2 of MODBUS over Serial Line V1.02) |
| ModbusCrc.CheckValue | ARM64-RTOS/protocols/modbus/modbus.c:68-75 | the digits 1 to 9 give 0x4B37, which fixes start value and polynomial |
| ModbusCrc.CrcInjective | ARM64-RTOS/protocols/modbus/modbus.c:68-75 | a message never merges two register values |
| ModbusCrc.AdjacentErrorsDetected | ARM64-RTOS/protocols/modbus/modbus.c:68-75 | two equal-length messages differing only within two adjacent bytes have different CRCs |
| ModbusCrc.BuildRtuFrame | devtools/shared/src/utils/protocol.js:74-87 | address, function, data, CRC; the receiver's residue is 0 |
| ModbusSpec.OneBitChanges | ARM64-RTOS/protocols/modbus/modbus.c:313-320 | setting or clearing one bit of a byte changes no other |
| ModbusSpec.PackedBit | ARM64-RTOS/protocols/modbus/modbus.c:148-156 | bit k of reply byte i is item 8i+k; padding bits are 0 |
| ModbusSpec.PackRoundTrip | ARM64-RTOS/protocols/modbus/modbus.c:148-156 | unpacking packed bits gives them back |
| ModbusSpec.ExceptionExactly | ARM64-RTOS/protocols/modbus/modbus.c:114-379 | a reply is an exception exactly when the request is unknown, out of range or a bad coil value, with that code, and then nothing changed |
| ModbusSpec.OnlyAddressedChanges | ARM64-RTOS/protocols/modbus/modbus.c:114-379 | no request changes an item it does not address |
| ModbusSpec.CoilsReadBack | ARM64-RTOS/protocols/modbus/modbus.c:302-333 | coils written at any unaligned address read back packed, padding zero (sections 6.1 and 6.11 of MODBUS Application Protocol V1.1b3) |
| ModbusSpec.RegistersReadBack | ARM64-RTOS/protocols/modbus/modbus.c:335-361 | registers written read back unchanged (sections 6.3 and 6.12) |
| ModbusSpec.CoilsReadBackLater | ARM64-RTOS/protocols/modbus/modbus.c:114-379 | they still do after any run of requests that writes none of them |
| ModbusSpec.RegistersReadBackLater | ARM64-RTOS/protocols/modbus/modbus.c:114-379 | registers written still read back after any run of requests that writes none of them |
| ModbusSpec.SingleCoil | ARM64-RTOS/protocols/modbus/modbus.c:246-278 | switching one coil on or off stores what the multiple write of that coil stores and echoes the request |
| ModbusSpec.SingleRegister | ARM64-RTOS/protocols/modbus/modbus.c:280-300 | setting one register stores what the multiple write of it stores and echoes the request |
| ModbusSpec.SingleCoilReadBack | ARM64-RTOS/protocols/modbus/modbus.c:246-278 | it reads back as written, byte for byte, through any run of requests that spares it (section 6.5) |
| ModbusSpec.SingleRegisterReadBack | ARM64-RTOS/protocols/modbus/modbus.c:280-300 | so does a register (section 6.6) |
| ModbusSpec.ReadsExactly | ARM64-RTOS/protocols/modbus/modbus.c:122-244 | the four reads reply with the function, the byte count and exactly the addressed part of coils, discrete inputs, holding or input registers, and change nothing |
| ModbusSpec.WritesEcho | ARM64-RTOS/protocols/modbus/modbus.c:246-361 | a write that is carried out is answered by its first five bytes |
| ModbusSpec.MultipleWriteBytes | ARM64-RTOS/protocols/modbus/modbus.c:302-361 | the two multiple writes byte by byte |
| ModbusSpec.BitIs | ARM64-RTOS/protocols/modbus/modbus.c:148-156 | bit k of a byte is the one worth 2^k |
| ModbusSpec.FlaggedIs | ARM64-RTOS/protocols/modbus/modbus.c:99-108 | an exception reply carries the function with its top bit set |
| ModbusServer.DataModel.PutBit | ARM64-RTOS/protocols/modbus/modbus.c:315-319 | one coil of the packed table changes |
| ModbusServer.DataModel.ReadBits | ARM64-RTOS/protocols/modbus/modbus.c:140-157 | the packing loops build the specified reply |
| ModbusServer.DataModel.WriteBits | ARM64-RTOS/protocols/modbus/modbus.c:313-320 | the unpacking loop writes exactly the addressed coils |
| ModbusServer.DataModel.WriteWords | ARM64-RTOS/protocols/modbus/modbus.c:346-349 | the register loop writes exactly the addressed registers |
| ModbusServer.Server.ProcessRequest | ARM64-RTOS/protocols/modbus/modbus.c:114-379 | refines the plain map; requests = responses + errors always; a failed allocation loses the reply, never the effect |
| ModbusServer.Server.Poll | ARM64-RTOS/protocols/modbus/modbus.c:406-455 | header checked and answered with the same transaction number; other units and short frames change nothing |
| ModbusServer.WireFields | ARM64-RTOS/protocols/modbus/modbus.c:444-448 | the header byte by byte: transaction, protocol 0, length of unit and PDU high byte first, unit |
| ModbusServer.Client.BuildRequest | ARM64-RTOS/protocols/modbus/modbus.c:500-525 | the PDU under its header; the transaction number advances, wrapping |
| ModbusServer.Client.WriteMultipleRegisters | ARM64-RTOS/protocols/modbus/modbus.c:610-647 | OK exactly when everything worked and the range fits, and then exactly those registers are written; after any other status nothing or exactly that was written |
| ModbusServer.Client.ReadHoldingRegisters | ARM64-RTOS/protocols/modbus/modbus.c:540-575 | OK exactly when everything worked and the range fits, and then it delivers the server's registers; nothing on the server changes |
| UartSpec.TxStepKeeps | ARM64-RTOS/drivers/uart/uart.c:370-416 | each writer step and transmit interrupt keeps the invariant |
| UartSpec.TxSafety | ARM64-RTOS/drivers/uart/uart.c:147-219 | in every interleaving free tokens + writers holding one + bytes waiting = 255 or 256, bytes leave in the order stored, a waiting byte means the transmit interrupt is on, and each writer's stored bytes are a prefix of its data |
| UartSpec.FailsOnlyOnce | ARM64-RTOS/drivers/uart/uart.c:388-392 | a token fails to store a byte exactly when 255 bytes wait, and that happens at most once in a run |
| UartSpec.SentExactly | ARM64-RTOS/drivers/uart/uart.c:186-212 | however the hardware's room is spread over interrupts, it gets the oldest waiting bytes, as many as there is room for, each for a token; with all sent the interrupt is off |
| UartSpec.StoredExactly | ARM64-RTOS/drivers/uart/uart.c:388-413 | with fewer than 255 bytes waiting a byte goes to the end of the ring; an idle transmitter starts with as many as there is room for, an active one is left alone |
| UartSpec.RxStepKeeps | ARM64-RTOS/drivers/uart/uart.c:153-182 | each reader step and receive interrupt keeps the invariant |
| UartSpec.ReaderFindsByte | ARM64-RTOS/drivers/uart/uart.c:432-444 | a reader that got past the semaphore finds a byte |
| UartSpec.RxSafety | ARM64-RTOS/drivers/uart/uart.c:421-447 | in every interleaving one token or reader per waiting byte, and bytes are read in the order accepted |
| UartSpec.ArriveExactly | ARM64-RTOS/drivers/uart/uart.c:156-175 | a damaged frame changes nothing; an undamaged one is stored and signalled, unless 255 bytes wait |
| UartSpec.AcceptedExactly | ARM64-RTOS/drivers/uart/uart.c:153-182 | in every interleaving the bytes accepted are those of the undamaged frames received, in order, less the ones that found 255 bytes waiting; all of them exactly when none did |
| Uart.ContentPush | ARM64-RTOS/drivers/uart/uart.c:388-392 | the ring refuses exactly at 255 bytes and otherwise appends |
| Uart.ContentPop | ARM64-RTOS/drivers/uart/uart.c:190-194 | advancing tail drops the oldest byte |
| Uart.Transmitter.WriteSection | ARM64-RTOS/drivers/uart/uart.c:385-413 | the writer's critical section does that step |
| Uart.Transmitter.DrainTo | ARM64-RTOS/drivers/uart/uart.c:399-405 | the FIFO filling loop |
| Uart.Transmitter.Interrupt | ARM64-RTOS/drivers/uart/uart.c:186-212 | the transmit part of the handler |
| Uart.Receiver.Interrupt | ARM64-RTOS/drivers/uart/uart.c:152-183 | the receive part of the handler; damaged frames are skipped, a full ring drops the byte |
| Uart.Receiver.ReadSection | ARM64-RTOS/drivers/uart/uart.c:436-443 | the reader's critical section |
| OpcUaSpec.Got64 | ARM64-RTOS/protocols/opcua/opcua.c:53-84 | 64-bit numbers read back, low byte first |
| OpcUaSpec.StringRoundTrip | ARM64-RTOS/protocols/opcua/opcua.c:89-119 | a string reads back up to its first NUL, a null string as null |
| OpcUaSpec.NumericRoundTrip | ARM64-RTOS/protocols/opcua/opcua.c:124-182 | a numeric id reads back, whichever of the three forms it got |
| OpcUaSpec.TextRoundTrip | ARM64-RTOS/protocols/opcua/opcua.c:143-181 | a text id reads back |
| OpcUaSpec.TextDecoded | ARM64-RTOS/protocols/opcua/opcua.c:174-179 | of the length on the wire only the low 16 bits count |
| OpcUaSpec.ShortestForm | ARM64-RTOS/protocols/opcua/opcua.c:126-142 | no bytes decoding to a numeric id are shorter than the encoder's form (section 5.2.2.9 of OPC 10000-6) |
| OpcUaSpec.NodeBytes | ARM64-RTOS/protocols/opcua/opcua.c:124-151 | a node id byte by byte, low bytes first |
| OpcUaSpec.RoundTrip | ARM64-RTOS/protocols/opcua/opcua.c:187-296 | decoding an encoded value with any bytes after it yields the value and those bytes (section 5.2.2.16 of OPC 10000-6) |
| OpcUaSpec.RoundTripExactly | ARM64-RTOS/protocols/opcua/opcua.c:187-296 | the round trip holds for exactly the values without NUL in text and without Guid or ByteString ids |
| OpcUaSpec.WireForm | ARM64-RTOS/protocols/opcua/opcua.c:187-241 | a value byte by byte: the type's number, then numbers low byte first in two's complement, a string behind its length, a null string as length -1 (sections 5.1.2 and 5.2.2 of OPC 10000-6) |
| OpcUaSpec.AlsoDecoded | ARM64-RTOS/protocols/opcua/opcua.c:153-296 | the decoder takes any byte but 0 as true and ignores the upper half of a node id's first byte; it skips a form it does not know |
| OpcUaSpec.PrefixFree | ARM64-RTOS/protocols/opcua/opcua.c:187-296 | two encodings with a common continuation are of one value |
| OpcUaSpec.StreamRoundTrip | ARM64-RTOS/protocols/opcua/opcua.c:187-296 | a run of values written one after another reads back |
| OpcUa.WriteU32 | ARM64-RTOS/protocols/opcua/opcua.c:45-51 | the four shifted bytes, nothing else touched |
| OpcUa.ReadU32 | ARM64-RTOS/protocols/opcua/opcua.c:71-77 | the number at the buffer's position |
| OpcUa.EncodeString | ARM64-RTOS/protocols/opcua/opcua.c:89-105 | length loop and copy loop write the specified bytes and nothing else |
| OpcUa.DecodeString | ARM64-RTOS/protocols/opcua/opcua.c:107-119 | the string and the position after it |
| OpcUa.EncodeNodeId | ARM64-RTOS/protocols/opcua/opcua.c:124-151 | writes the specified bytes and nothing else |
| OpcUa.DecodeNodeId | ARM64-RTOS/protocols/opcua/opcua.c:153-182 | the id and the position after it; an unknown form leaves the caller's id |
| OpcUa.EncodeVariant | ARM64-RTOS/protocols/opcua/opcua.c:187-241 | writes the specified bytes and nothing else |
| OpcUa.DecodeVariant | ARM64-RTOS/protocols/opcua/opcua.c:243-296 | the value and the position after it |
| OpcUaTree.FindRecursive | ARM64-RTOS/protocols/opcua/opcua.c:359-374 | the first match of the depth-first order |
| OpcUaTree.FirstMatchIs | ARM64-RTOS/protocols/opcua/opcua.c:359-374 | found exactly when some node of the tree has that numeric id |
| OpcUaTree.Relinked | ARM64-RTOS/protocols/opcua/opcua.c:344-347 | the two pointer assignments insert the node as its parent's first child, anywhere in the tree |
| OpcUaTree.InsertFindsOthers | ARM64-RTOS/protocols/opcua/opcua.c:324-381 | adding a node changes no search for another id |
| OpcUaTree.InsertFindsNew | ARM64-RTOS/protocols/opcua/opcua.c:324-381 | a search for the new numeric id finds it, or an earlier node of the same id |
| OpcUaTree.Server.AddNode | ARM64-RTOS/protocols/opcua/opcua.c:324-355 | the tree with the node inserted; a second parentless node stays out of the tree |
| OpcUaTree.Server.FindNode | ARM64-RTOS/protocols/opcua/opcua.c:357-381 | the first match; never anything for a text id |
| Checksum.HtonsTwice | ARM64-RTOS/net/stack/net_core.c:62-65 | htons is its own inverse |
| Checksum.HtonlTwice | ARM64-RTOS/net/stack/net_core.c:67-71 | htonl is its own inverse |
| Checksum.InetChecksum | ARM64-RTOS/net/stack/net_core.c:79-98 | the complement of the one's complement sum, after at most two folding rounds |
| Checksum.NoOverflow | ARM64-RTOS/net/stack/net_core.c:81-91 | the 32-bit sum is safe for every content of a length exactly up to 131074 bytes |
| Checksum.StoredChecksumVerifies | ARM64-RTOS/net/stack/net_core.c:400-410 | storing the checksum in the zeroed field makes the check yield 0 |
| Checksum.OneWordDetected | ARM64-RTOS/net/stack/net_core.c:344-349 | one changed word passes exactly when congruent modulo 65535 and the sum is not 0 |
| Checksum.ByteOrderIndependent | ARM64-RTOS/net/stack/net_core.c:79-98 | summing in the processor's byte order stores the bytes network order asks for (section 2 of RFC 1071) |
| Checksum.BuiltHeaderAccepted | ARM64-RTOS/net/stack/net_core.c:341-410 | every header built passes the receiver's check |
| Checksum.HeaderDamage | ARM64-RTOS/net/stack/net_core.c:334-349 | damage to one word of a built header goes unnoticed exactly when it exchanges 0 and 65535 |
| Checksum.HeaderFields | ARM64-RTOS/net/stack/net_core.c:381-410 | every field of a built header is where section 3.1 of RFC 791 puts it, high byte first |
| Checksum.HeaderLengthIs | ARM64-RTOS/net/stack/net_core.c:342-342 | the low half of the first byte counts the header's 32-bit words |
| Checksum.IpLayer.BuildHeader | ARM64-RTOS/net/stack/net_core.c:381-410 | the fields in network order under a checksum that verifies (section 3.1 of RFC 791) |
| Checksum.IpLayer.VerifyHeader | ARM64-RTOS/net/stack/net_core.c:341-349 | accepts exactly the headers that check to 0 |

## Left out

- Spinlocks, interrupt masking, context switching, register access and boot code: critical sections and handlers are atomic steps instead.
- The block pools, the DMA pool and the buffer reference counts of `zbuf.c`: buffers are byte sequences.
- The x86_64 copies of the modelled files, which repeat the same text.
- Heap.KernelHeap.AllocAligned: sizes and alignments whose sum wraps 64 bits are excluded, as the code does not check them.
- Real-time behaviour of waits: a message queue call either does not wait or waits until woken, as the code ignores any other timeout value.
- Sync.Semaphore.Post: the count is unbounded, so the wrap of a 32-bit count is not modelled; likewise the mutex's lock_count and the scheduler's task count.
- Sync.EventFlags.WaitPass: a flag word is the set of its bit positions, because the operations on it are only union, intersection and difference.
- MutexSpec.Safety: runs of mutex and ready rings together are not characterised; of their combination `KernelCases.BoostBreaksRing` is stated, since a boost can leave a ready task in the ring of its old priority, and `SchedSpec.NeverChosen`, since waking links nothing.
- KernelRuns.JointSafety: one semaphore; event flags and message queues block by the same wait list functions, so `KernelCases.ListStaysExactly` and `KernelCases.StrandedForGood` are about them too.
- Scheduler.Scheduler.TaskYield: yields by the idle task are excluded; a time slice that ends is an ordinary yield.
- SchedSpec.RunSane: the tick makes ready only tasks in no ring; what it does with a sleeping task that kept the processor is `KernelCases.ReaddDropsOthers`.
- Timers.Service.KernelTick: a handler that never returns is no method here; `TimerSpec.TickEndsExactly` says exactly when it does not.
- Scheduler.Scheduler.TaskCreate: null arguments, the stack frame and the task's name.
- Scheduler.Ring.Add: `ready_list[p]` is an object holding the head pointer, so that each ring has its own ghost queue.
- Virtqueue.Queue.RxAddBuffer: descriptor addresses, lengths and flags, memory barriers and notifications are not modelled; whether the buffer pool delivers is a parameter (the size the code asks for is larger than any buffer holds).
- VirtqSystem.Safety: the device is honest and the ring size divides 2^16, which the standard demands and the code does not check.
- Virtqueue.Queue.RxTake: one loop iteration, without handing the frame to the network layer; the refill after it is an ordinary submission.
- TcpSystem.Safety: each socket opens once and carries less than 2^32 bytes each way; a segment failing the checksum counts as lost; the checksum's own byte order is not modelled.
- Tcp.Socket.Input: listening sockets accept in place as the code does; the backlog, resets and the retransmission timer, which the code never arms, are not modelled.
- Tcp.Socket.Close: returning the socket to the pool is not modelled.
- TimerRuns.Bisimilar: callbacks do not start or stop timers, delays are at least 1 tick, and the tick counter does not wrap.
- TcpAcks.Conversation: one segment is in flight at a time and every buffer is available; what loss does is `TcpSystem.Safety`.
- Timers.Service.Link: the timers' link fields are one map from timers to timers, and a pointer to a list pointer is the timer that holds it, or none for the list head.
- ModbusServer.DataModel.WriteWords: the application's two register tables are different arrays, and so are its two bit tables; a table registered under both roles is not modelled.
- ModbusServer.Server.ProcessRequest: requests shorter than their function code implies, and quantities beyond the standard's limits (2000 and 1968 coils, 125 and 123 registers), are excluded, because the code reads past the request or truncates the byte count there; the application's callbacks are not called.
- ModbusServer.Server.Poll: accepting the connection and queueing the reply; a reply is always sent.
- ModbusServer.Client.WriteMultipleRegisters: the server answers at once or not at all; single writes and coil reads on the client side only repeat its pattern.
- Uart.Transmitter.WriteSection: semaphores are their counts here; parking and waking are those of `Sync.Semaphore`. Statistics counters, the receive callback and baud rates are left out.
- OpcUaSpec.RoundTrip: a decoder that would read past the bytes given yields `Short`; the code does not check. Types without payload in the encoder (date, Guid and others) carry only their type.
- OpcUaTree.Server.AddNode: names, values and access levels of nodes do not take part.
- Checksum.IpLayer.VerifyHeader: the header length field must lie within the packet, which the code does not check; routing and address resolution are left out.
- OPC UA services, PROFINET, ARP, UDP, ICMP, address translation tables, and the user interface of the tools: fixed layouts or shallow branches.
