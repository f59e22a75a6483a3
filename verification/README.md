# RT-Thread allocators, IPC objects and robot movement in Dafny

This project models the memory allocators, the inter-process communication objects and the
formatter of the RT-Thread kernel, the copy loops of the Ethernet driver, and the movement
thread of the robot that runs on it, and proves properties of the models.

Code that works in place is a class whose methods change fields and arrays as the C code
does; each method is proved against a function of the old state, and the properties are
proved about that function. Pointers are addresses (natural numbers); the words of a header
are entries of a map from addresses.

## Layout

* `Tiling`, `Links`, `Bytes`, `Chains`, `Sequences`, `Lanes`, `Arithmetic`: block sequences that
  tile a range, doubly linked rings, bytes below and between headers, singly linked chains,
  sequences without repetition, queues with an urgent lane, remainders.
* `MemHeapModel`, `MemHeapRuns`, `MemHeap`, `MemHeapMoves`: the memory heap `memheap.c` as block
  list and free ring; its runs; the class on link words, counters and payload bytes; moving
  reallocations among other threads.
* `RtList`, `WaitQueue`, `Ipc`: the list of `rtservice.h`, the order of the waiting lists,
  and what the IPC objects share. `Semaphore`, `Mutex`, `EventSet`, `Mailbox`,
  `MessageQueue`: each object of `ipc.c` as a state machine whose steps are the regions with
  interrupts disabled, with a class that performs them.
* `SmallHeapModel`, `SmallHeap`: the system heap `mem.c`. `MemPool`: the block pools of
  `mempool.c`.
* `Numerals`, `Formatter`, `FormatSpec`, `AlignedAlloc`: the number printer, the bounded
  formatter, what its formats mean, and the aligned allocation of `kservice.c`.
* `Ethernet`: transmit and receive copy loops of `drv_eth.c`.
* `Robot`: the movement thread of `tasks.c` on an n by n grid.

## Assumptions

* Header sizes are symbolic multiples of 4. A heap starts aligned; the memory heap has room
  for two headers and a minimal block.
* A region between disabling and enabling interrupts, and a section under a heap's lock, is
  one step. A resumed thread leaves its waiting list and becomes ready with an error code;
  a timeout or a signal removes a waiting thread with another one.
* A thread calls an operation only while it neither waits nor has a call in progress. The
  priority of a thread does not change while it waits.
* The `long` that numbers are printed from has 32 bits. An argument that is missing or of the
  wrong kind, undefined in C, reads as 0 or as the null string.
* The uninitialised `stuck` of the movement thread starts as 0.

## Where the code is not what its comments promise

* The strict test `size < available_size` of the memory heap refuses a request for exactly
  all that is free (`MemHeapRuns.AllocFails`); the offset limit of the small heap refuses the
  last block if it fits exactly (`SmallHeapModel.AllocFails`).
* In a system heap smaller than MIN_SIZE a request can search forever
  (`SmallHeap.Allocator.SearchGoesOn`). Realloc can return null for the very size a block was
  allocated with; `SmallHeapModel.ReallocFails` says exactly when it returns null, and
  `SmallHeapModel.ReallocSameRequestFails` is an instance. It can leave a block below the
  minimum size; `SmallHeapModel.ReallocBelowMinimum` says exactly when.
* The message size of a queue is kept in 16 bits; `MessageQueue.SlotHoldsMessage` says exactly when
  a slot then has room for a message.
* A memory pool without a block has a word written outside it (`MemPool.LastWordInPool`).
* `divide` takes base 8 for 16, and precision 0 prints no digits: `Formatter.OctalReadsBackIff`
  and `Formatter.ReadsBackIff` say exactly when what is printed reads back.
* `rt_malloc_align` aligns every pointer exactly for powers of two, and its size may wrap
  around (`AlignedAlloc.AlignsIffPowerOfTwo`, `AlignedAlloc.TotalCovers`).
* A frame longer than the ring of transmit buffers overwrites its own beginning and is sent all
  the same (`Ethernet.SendTooLong`); `Ethernet.GathersIff` says exactly which frames survive.
* In a room without obstacles the robot cleans the border and nothing else
  (`Robot.OnlyBorderCleaned`).
* A robot counts as stuck exactly where all but the way back is blocked
  (`Robot.EndsIffCornered`), also where the way back is open (`Robot.EndsWithWayBack`).

## Model

| member | source | states |
|---|---|---|
| MemHeapModel.InitWellFormed | RVC_Oses/rt-thread/src/memheap.c:128-181 | A fresh heap is well formed and its free bytes are `pool - 2 * HEADER`. |
| MemHeapRuns.AllocWellFormed | RVC_Oses/rt-thread/src/memheap.c:224-378 | Allocation keeps the heap well formed: blocks tile the pool, no two free neighbours, the ring lists exactly the free blocks once each, every block aligned and at least the minimum. |
| MemHeapRuns.AllocAdds | RVC_Oses/rt-thread/src/memheap.c:255-364 | A successful allocation adds exactly one block, of at least the rounded size, that was free before, and nothing else changes in what is allocated. |
| MemHeapRuns.AllocFails | RVC_Oses/rt-thread/src/memheap.c:239-377 | Allocation returns null exactly if no free block is large enough or the request equals the whole free memory (the entry test is strict); the heap is then unchanged. |
| MemHeapRuns.FreedGoesFirst | RVC_Oses/rt-thread/src/memheap.c:699-714 | A block that was released and not merged to the left is the next one an allocation takes that it can hold. |
| MemHeapRuns.RestGoesFirst | RVC_Oses/rt-thread/src/memheap.c:289-303 | What was left of a block that was just cut is the next one an allocation takes that it can hold. |
| MemHeapRuns.ExactLastBlockRefused | RVC_Oses/rt-thread/src/memheap.c:239 | The single free block of a fresh heap cannot be allocated whole, although it fits. |
| MemHeapModel.SplitTakeEffect | RVC_Oses/rt-thread/src/memheap.c:273-322 | A split hands out the front and accounts one more header: free bytes drop by size plus header. |
| MemHeapModel.WholeTakeEffect | RVC_Oses/rt-thread/src/memheap.c:327-346 | Without a split the whole block is handed out and only its payload is counted. |
| MemHeapRuns.FreeWellFormed | RVC_Oses/rt-thread/src/memheap.c:663-719 | A release keeps the heap well formed, takes exactly that block out of what is allocated, and leaves the high-water mark alone. |
| MemHeapModel.ReleasedRingMatches | RVC_Oses/rt-thread/src/memheap.c:669-714 | After both merges the free ring again holds exactly the free blocks, once each. |
| MemHeapModel.FreeAtBytes | RVC_Oses/rt-thread/src/memheap.c:666-691 | A release gives back the payload and one header for every merge. |
| MemHeapModel.GrowWellFormed | RVC_Oses/rt-thread/src/memheap.c:460-510 | Growing in place moves the start of the free right neighbour and keeps the heap well formed. |
| MemHeapModel.GrowEffect | RVC_Oses/rt-thread/src/memheap.c:460-510 | Growing in place exchanges the block for a larger one at the same address and takes exactly the difference from the free bytes. |
| MemHeapModel.ShrinkWellFormed | RVC_Oses/rt-thread/src/memheap.c:546-603 | Shrinking cuts the block, merges the rest to the right and keeps the heap well formed. |
| MemHeapModel.ShrinkBytes | RVC_Oses/rt-thread/src/memheap.c:572-603 | Free bytes after a shrink: the bytes cut off, less a header unless the right neighbour was free. |
| MemHeapRuns.SameUsedSameBlocks | RVC_Oses/rt-thread/src/memheap.c:619-719 | The block list is determined by what is allocated, whatever the history of splits and merges. |
| Tiling.CanonicalForm | RVC_Oses/rt-thread/src/memheap.c:668-706 | Two tilings without free neighbours that have the same allocated blocks are equal. |
| MemHeapRuns.AllocThenFree | RVC_Oses/rt-thread/src/memheap.c:224-719 | Releasing what was just allocated restores the block list, split and merges undone. |
| MemHeapRuns.ActWellFormed | RVC_Oses/rt-thread/src/memheap.c:224-719 | Every locked section keeps the heap well formed. |
| MemHeapRuns.PeakIsHighWater | RVC_Oses/rt-thread/src/memheap.c:320-332 | In every run from any state `max_used_size` is the largest `pool_size - available_size` of any state passed, or the old value if larger. |
| MemHeapRuns.PeakSinceInit | RVC_Oses/rt-thread/src/memheap.c:129-131 | From a fresh heap it is exactly the high-water mark. |
| MemHeapRuns.EmptyIsFresh | RVC_Oses/rt-thread/src/memheap.c:663-719 | A heap with nothing live has the block list of a fresh one. |
| MemHeapRuns.ReleaseAll | RVC_Oses/rt-thread/src/memheap.c:619-719 | Releasing all live blocks, in any order, leads to the block list of a fresh heap. |
| MemHeapRuns.ReallocMeaning | RVC_Oses/rt-thread/src/memheap.c:393-610 | A realloc that returns a pointer exchanges the old block for one of at least the new size and touches no other; one that returns null leaves the heap unchanged. |
| MemHeapRuns.ReallocFails | RVC_Oses/rt-thread/src/memheap.c:414-610 | Exactly when realloc of a block to a nonzero size returns null: the block is too small, its right neighbour gives it no room, and no free block is large enough or the request equals all that is free; the heap is then unchanged. |
| MemHeapRuns.ReallocStays | RVC_Oses/rt-thread/src/memheap.c:428-546 | Exactly when the pointer comes back unchanged: the block is large enough or its free right neighbour gives it the room; it then has the size asked for, or its own if too little would be cut off. |
| MemHeapRuns.ReallocNothing | RVC_Oses/rt-thread/src/memheap.c:413-416 | Realloc of a null pointer is an allocation and returns null exactly where that does. |
| MemHeapRuns.ReallocIsRun | RVC_Oses/rt-thread/src/memheap.c:393-610 | Every realloc is one of the sections a run is made of, or two of them. |
| MemHeapRuns.ReallocWellFormed | RVC_Oses/rt-thread/src/memheap.c:393-610 | Every realloc, to zero bytes included, keeps the heap well formed. |
| Links.RingInsert | RVC_Oses/rt-thread/src/memheap.c:299-303 | Inserting into a doubly linked ring, on the link words. |
| Links.RingRemove | RVC_Oses/rt-thread/src/memheap.c:305-309 | Removing from a doubly linked ring, on the link words. |
| Links.RingInverse | RVC_Oses/rt-thread/src/memheap.c:155-173 | On a ring `next` and `prev` are inverse to each other. |
| MemHeap.MemoryHeap.Init | RVC_Oses/rt-thread/src/memheap.c:116-189 | The headers written at initialisation represent the fresh heap. |
| MemHeap.MemoryHeap.FindFit | RVC_Oses/rt-thread/src/memheap.c:255-266 | The search loop returns the first free block of the ring that is large enough, or the list head. |
| MemHeap.MemoryHeap.Alloc | RVC_Oses/rt-thread/src/memheap.c:224-378 | The link and counter writes compute the model's allocation; bytes allocated before and after are untouched; on failure the object is unchanged. |
| MemHeap.MemoryHeap.Coalesce | RVC_Oses/rt-thread/src/memheap.c:668-719 | The two merges and the insertion produce the released block list and free ring. |
| MemHeap.MemoryHeap.Free | RVC_Oses/rt-thread/src/memheap.c:619-726 | The link and counter writes compute the model's release; allocated bytes are untouched. |
| MemHeap.MemoryHeap.GrowItem | RVC_Oses/rt-thread/src/memheap.c:460-515 | The grow branch on the headers, with allocated bytes kept. |
| MemHeap.MemoryHeap.ShrinkItem | RVC_Oses/rt-thread/src/memheap.c:546-606 | The shrink branch on the headers, with allocated bytes kept. |
| MemHeap.MemoryHeap.MoveItem | RVC_Oses/rt-thread/src/memheap.c:523-530 | The moving branch with nothing else running: the first bytes of the new block are the old payload, other live payloads are untouched, null changes nothing. |
| MemHeapMoves.StepLeaves | RVC_Oses/rt-thread/src/memheap.c:224-726 | A locked section, or a thread's writes to its own block, leave every block they do not name allocated, with the same extent and bytes. |
| MemHeapMoves.CopyArrives | RVC_Oses/rt-thread/src/memheap.c:526 | While bytes are copied one by one, sections and writes of other threads in between, the source stays as it was and the bytes copied so far stay in the new block. |
| MemHeapMoves.MoveArrives | RVC_Oses/rt-thread/src/memheap.c:517-530 | The moving branch among other threads: whatever sections and writes run between its parts and between the bytes it copies, if they name neither block, the first min(old, new) bytes held at the call arrive, exactly the old block is released, and every other block not named is as it was. |
| MemHeap.MemoryHeap.Realloc | RVC_Oses/rt-thread/src/memheap.c:393-610 | Realloc on the headers computes the model's realloc and keeps the first min(old, new) payload bytes on all paths; null for a nonzero size leaves everything unchanged. |
| Bytes.HeaderWritesKeepAllocated | RVC_Oses/rt-thread/src/memheap.c:289-320 | Writing headers of the old and the new block list cannot touch a byte that is allocated in both. |
| Bytes.MoveKeeps | RVC_Oses/rt-thread/src/memheap.c:523-528 | Allocate, copy, release: every byte allocated before and after keeps its value and the copy holds the old bytes. |
| Bytes.CopyBytes | RVC_Oses/rt-thread/src/kservice.c:219-295 | rt_memcpy between areas that do not overlap copies exactly those bytes. |
| RtList.ListMemory.Init | RVC_Oses/rt-thread/include/rtservice.h:47-50 | An initialised node is the head of an empty list. |
| RtList.ListMemory.InsertAfter | RVC_Oses/rt-thread/include/rtservice.h:58-65 | The four pointer writes insert the node behind its neighbour in the ring. |
| RtList.ListMemory.InsertBefore | RVC_Oses/rt-thread/include/rtservice.h:73-80 | The pointer writes are sequence insertion; before the head means at the end. |
| RtList.ListMemory.Remove | RVC_Oses/rt-thread/include/rtservice.h:86-92 | The pointer writes are sequence deletion; the node becomes an empty list. |
| RtList.ListMemory.Len | RVC_Oses/rt-thread/include/rtservice.h:107-119 | The loop returns the number of members. |
| RtList.ListMemory.FindSlot | RVC_Oses/rt-thread/src/ipc.c:128-142 | The walk stops at the first waiter with a greater priority number, or at the head. |
| RtList.ListMemory.Suspend | RVC_Oses/rt-thread/src/ipc.c:109-157 | Suspending queues the thread where its priority belongs, behind its equals; under FIFO at the end. |
| RtList.ListMemory.Resume | RVC_Oses/rt-thread/src/ipc.c:178-191 | Resuming unlinks the first waiter. |
| RtList.ListMemory.ResumeAll | RVC_Oses/rt-thread/src/ipc.c:207-241 | All waiters leave in order and the list is empty. |
| WaitQueue.FirstGreater | RVC_Oses/rt-thread/src/ipc.c:128-142 | Everything before the position has at most the newcomer's priority number, the waiter at it a greater one. |
| WaitQueue.RunOrdered | RVC_Oses/rt-thread/src/ipc.c:115-154 | In every run of arrivals and departures the queue is sorted by priority, first come first served among equals. |
| WaitQueue.EnqueueJoins | RVC_Oses/rt-thread/src/ipc.c:109-157 | A newcomer goes to the end under FIFO and behind the last thread that goes before it by priority; nobody else moves. |
| WaitQueue.EnqueueInLine | RVC_Oses/rt-thread/src/ipc.c:126-154 | Under priority order a list without a thread in front of one with a smaller number stays so when a thread joins. |
| Ipc.ResumeAllMeaning | RVC_Oses/rt-thread/src/ipc.c:207-241 | After resuming all, exactly the waiters have been resumed with an error and nobody else is affected. |
| Semaphore.StepInv | RVC_Oses/rt-thread/src/ipc.c:467-627 | Every step keeps: a positive value implies no waiters, and a thread is in one place only. |
| Semaphore.RunInv | RVC_Oses/rt-thread/src/ipc.c:467-627 | The same over every run, timeouts, signals and resets included; a positive value means that nobody waits. |
| Semaphore.TokensConserved | RVC_Oses/rt-thread/src/ipc.c:486-547 | Between resets, initial tokens plus successful releases equal value plus successful takes plus hand-offs on their way, for every interleaving. |
| Semaphore.AtMostInitial | RVC_Oses/rt-thread/src/ipc.c:486-627 | Successful takes never exceed the initial value plus the successful releases. |
| Semaphore.TakeAnswers | RVC_Oses/rt-thread/src/ipc.c:482-552 | A take succeeds exactly if the value is positive, fails exactly if it is 0 and so is the time, and waits in its place in line otherwise. |
| Semaphore.ReleaseAnswers | RVC_Oses/rt-thread/src/ipc.c:606-637 | A release wakes the first waiter or adds one to the value, and is refused exactly if nobody waits and the value is at its maximum. |
| Semaphore.ResetAnswers | RVC_Oses/rt-thread/src/ipc.c:667-684 | A reset fails exactly the waiters and sets the value, cut to 16 bits. |
| Semaphore.AbortAnswers | RVC_Oses/rt-thread/src/ipc.c:521-551 | A timeout or a signal takes exactly its thread off the list, with its error, and does nothing else. |
| Semaphore.WokenReturns | RVC_Oses/rt-thread/src/ipc.c:539-551 | A waiting thread leaves the list by a release, a timeout or signal, or a reset, and its take returns success, that error or RT_ERROR, whatever runs before it does. |
| Semaphore.PollFailsIff | RVC_Oses/rt-thread/src/ipc.c:486-500 | In every run between resets a take with time 0 fails exactly if all tokens, initial and released, have been taken or are on their way. |
| Semaphore.RunInLine | RVC_Oses/rt-thread/src/ipc.c:115-154 | In every run the waiting list stays in line. |
| Semaphore.SemaphoreObject.Take | RVC_Oses/rt-thread/src/ipc.c:467-552 | The fields change as the step says, and the caller gets its result. |
| Semaphore.SemaphoreObject.Return | RVC_Oses/rt-thread/src/ipc.c:539-551 | A resumed taker returns the error it was resumed with. |
| Semaphore.SemaphoreObject.Release | RVC_Oses/rt-thread/src/ipc.c:589-637 | The token goes to the first waiter or into the value; a full value reports an error. |
| Semaphore.SemaphoreObject.Reset | RVC_Oses/rt-thread/src/ipc.c:655-688 | All waiters are resumed with an error and the value is set, modulo 2^16. |
| Mutex.StepInv | RVC_Oses/rt-thread/src/ipc.c:923-1177 | Every step keeps: value is 0 or 1; no owner, value 1 and hold 0 are equivalent; waiters imply an owner that is not among them. |
| Mutex.RunInv | RVC_Oses/rt-thread/src/ipc.c:923-1177 | The same over every run without signal wake-ups: value 1 exactly without owner, and then hold 0 and nobody waiting. |
| Mutex.Overflow | RVC_Oses/rt-thread/src/ipc.c:956-960 | A release never overflows, and a take reports it exactly when the owner re-enters with the counter at its maximum. |
| Mutex.HandOff | RVC_Oses/rt-thread/src/ipc.c:1120-1155 | The final release hands ownership to the first waiter, with hold 1. |
| Mutex.DepthIsGranted | RVC_Oses/rt-thread/src/ipc.c:923-1177 | In every run the successful takes less releases of each thread are the hold count the state grants it. |
| Mutex.MutualExclusion | RVC_Oses/rt-thread/src/ipc.c:923-1177 | In every run from rt_mutex_init at most one thread is ahead in takes, and none is behind. |
| Mutex.TakeAnswers | RVC_Oses/rt-thread/src/ipc.c:948-1010 | A take succeeds exactly if the mutex is free or the caller's own below its maximum; owned by another it fails exactly with time 0 and waits in its place in line otherwise. |
| Mutex.ReleaseAnswers | RVC_Oses/rt-thread/src/ipc.c:1098-1177 | A release succeeds exactly for the owner and changes nothing for others; the last one passes the mutex to the first waiter or frees it. |
| Mutex.AbortAnswers | RVC_Oses/rt-thread/src/ipc.c:1000-1038 | A timeout takes exactly its thread off the list, with its error, and does nothing else. |
| Mutex.WokenReturns | RVC_Oses/rt-thread/src/ipc.c:1012-1038 | A waiting thread leaves the list by a release or a timeout, and its take returns success, with the mutex its own, or that error, whatever runs before it does. |
| Mutex.PollFailsIff | RVC_Oses/rt-thread/src/ipc.c:986-995 | In every run from rt_mutex_init a take with time 0 fails exactly if another thread is ahead in takes or has been handed the mutex. |
| Mutex.RunInLine | RVC_Oses/rt-thread/src/ipc.c:115-154 | In every run the waiting list stays in line. |
| Mutex.MutexObject.Take | RVC_Oses/rt-thread/src/ipc.c:896-1040 | The fields change as the step says: re-entry, acquisition, timeout or waiting. |
| Mutex.MutexObject.Release | RVC_Oses/rt-thread/src/ipc.c:1079-1186 | The fields change as the step says: refusal, one level less, hand-over or free. |
| EventSet.ServeShrinks | RVC_Oses/rt-thread/src/ipc.c:1454-1508 | Serving only takes bits away, and delivers only bits that were set. |
| EventSet.ServeLeavesUnsatisfied | RVC_Oses/rt-thread/src/ipc.c:1454-1508 | Nobody left waiting is satisfied by the bits that remain. |
| EventSet.ServeConsumes | RVC_Oses/rt-thread/src/ipc.c:1495-1506 | Bits delivered with CLEAR reach no later waiter of the same send and are not set afterwards. |
| EventSet.ServeKeepsTheRest | RVC_Oses/rt-thread/src/ipc.c:1497-1499 | A bit disappears only if some CLEAR waiter received it. |
| EventSet.ServeDelivers | RVC_Oses/rt-thread/src/ipc.c:1463-1482 | An AND waiter receives all its bits, an OR waiter a nonempty part of them. |
| EventSet.StepInv | RVC_Oses/rt-thread/src/ipc.c:1429-1672 | Every step keeps: no suspended thread's condition is met by the bits that are set. |
| EventSet.NeverSatisfiedWaiter | RVC_Oses/rt-thread/src/ipc.c:1429-1672 | The same in every reachable state. |
| EventSet.ServeInOrder | RVC_Oses/rt-thread/src/ipc.c:1454-1508 | Whether a waiter is served by a send is decided by the bits those in front of it have left, and it gets all its bits, or those of them that are left. |
| EventSet.ServeCounts | RVC_Oses/rt-thread/src/ipc.c:1495-1506 | A send takes a bit away exactly if it delivers it with CLEAR, and that once. |
| EventSet.StepBit | RVC_Oses/rt-thread/src/ipc.c:1450-1506 | After a step other than a reset a bit is set exactly if it was set or is sent and is not delivered with CLEAR, at once or to a waiter. |
| EventSet.ClearedAtMostSent | RVC_Oses/rt-thread/src/ipc.c:1450-1614 | In every run a bit is delivered with CLEAR at most as often as it was set at the start or sent. |
| EventSet.StaysSet | RVC_Oses/rt-thread/src/ipc.c:1450-1614 | In every run without resets in which nobody takes it with CLEAR, a bit is set at the end exactly if it was set or sent. |
| EventSet.RecvAnswers | RVC_Oses/rt-thread/src/ipc.c:1586-1640 | A receiver is served at once exactly if all its bits are set, or one under OR; it gets all of them, or those set, and CLEAR clears exactly these; otherwise it fails with timeout 0 and waits in its place in line with any other. |
| EventSet.SendAnswers | RVC_Oses/rt-thread/src/ipc.c:1440-1518 | After a send every thread that waited either waits on, and could not go on, or is resumed with all its bits, or some of them under OR. |
| EventSet.AbortAnswers | RVC_Oses/rt-thread/src/ipc.c:1640-1672 | A timeout or a signal takes exactly its thread off the list, with its error, and does nothing else. |
| EventSet.NoBitsAnswers | RVC_Oses/rt-thread/src/ipc.c:1440-1569 | Sending no bit, or asking for none, fails at once and changes nothing. |
| EventSet.ResetAnswers | RVC_Oses/rt-thread/src/ipc.c:1690-1704 | A reset clears all bits and fails exactly the waiters. |
| EventSet.WokenReturns | RVC_Oses/rt-thread/src/ipc.c:1650-1672 | A waiting thread leaves the list by a send, a timeout or signal, or a reset, and its receive returns its bits or that error, whatever runs before it does. |
| EventSet.RunInLine | RVC_Oses/rt-thread/src/ipc.c:115-154 | In every run the waiting list stays in line. |
| EventSet.EventObject.ServeWaiters | RVC_Oses/rt-thread/src/ipc.c:1454-1508 | The loop of a send over the waiting list is the left-to-right fold. |
| EventSet.EventObject.MeetsCondition | RVC_Oses/rt-thread/src/ipc.c:1463-1489 | The test on one waiter, and the bits it is handed. |
| EventSet.EventObject.Send | RVC_Oses/rt-thread/src/ipc.c:1429-1518 | One send sets the bits and serves the list. |
| EventSet.EventObject.Recv | RVC_Oses/rt-thread/src/ipc.c:1554-1672 | A receiver takes its bits at once, times out or waits. |
| Mailbox.StepInv | RVC_Oses/rt-thread/src/ipc.c:2009-2344 | Every step keeps: while receivers wait every queued word has a woken receiver on its way, and dually for senders and free places. |
| Mailbox.RunKeepsWakeups | RVC_Oses/rt-thread/src/ipc.c:2009-2344 | No wake-up is lost in any interleaving, also when another thread gets in first. |
| Mailbox.QuiescentWaiting | RVC_Oses/rt-thread/src/ipc.c:2009-2344 | When all woken threads have run, receivers wait only on an empty mailbox and senders only on a full one. |
| Mailbox.FirstInFirstOut | RVC_Oses/rt-thread/src/ipc.c:2071-2329 | Without urgent words and resets every word sent is received exactly once, in order, or is still queued. |
| Mailbox.ExactlyOnce | RVC_Oses/rt-thread/src/ipc.c:2071-2329 | Urgent or not, without resets every word posted is received exactly once or is still queued. |
| Mailbox.NormalsInOrder | RVC_Oses/rt-thread/src/ipc.c:2071-2329 | In every run without resets, urgent words in between or not, the words of normal sends come out in the order of sending, each exactly once, or are still queued. |
| Mailbox.RecvAnswers | RVC_Oses/rt-thread/src/ipc.c:2245-2339 | A receive, first or woken, gets the next word exactly if one is queued and wakes the first sender; else it fails exactly with timeout 0 and waits in its place in line otherwise. |
| Mailbox.SendAnswers | RVC_Oses/rt-thread/src/ipc.c:2001-2100 | A send, first or woken, posts its word exactly if there is room and wakes the first receiver; else it fails exactly with timeout 0 and waits in its place in line otherwise. |
| Mailbox.UrgentAnswers | RVC_Oses/rt-thread/src/ipc.c:2160-2200 | An urgent send posts its word in front exactly if there is room, wakes the first receiver, and never waits. |
| Mailbox.AbortAnswers | RVC_Oses/rt-thread/src/ipc.c:1990-2350 | A timeout or a signal takes exactly its thread off its list, with its error, and does nothing else. |
| Mailbox.ReceiverReturns | RVC_Oses/rt-thread/src/ipc.c:2294-2310 | A receiver that left the list woken by a word goes through the loop when it runs; after a timeout, signal or reset it returns that error, whatever ran before. |
| Mailbox.SenderReturns | RVC_Oses/rt-thread/src/ipc.c:2048-2066 | The same for a sender. |
| Mailbox.ResetAnswers | RVC_Oses/rt-thread/src/ipc.c:2370-2402 | A reset leaves no word and no waiting thread, and who waited finds an error. |
| Mailbox.PollFailsIff | RVC_Oses/rt-thread/src/ipc.c:2001-2253 | In every run without resets a poll comes back empty exactly if every word has been received, and a send with timeout 0 is refused exactly if as many as fit have not. |
| Mailbox.RunInLine | RVC_Oses/rt-thread/src/ipc.c:115-154 | In every run both waiting lists stay in line. |
| Mailbox.WindowAt | RVC_Oses/rt-thread/src/ipc.c:2071-2075 | The window of queued words and the offsets in modular arithmetic. |
| Mailbox.MailboxObject.OffsetsMeet | RVC_Oses/rt-thread/src/ipc.c:2071-2087 | `in_offset` is `(out_offset + entry) mod size`, and word i of the queue is at `(out_offset + i) mod size`. |
| Mailbox.MailboxObject.PutBack | RVC_Oses/rt-thread/src/ipc.c:2071-2087 | A send appends to the queue; the RT_MB_ENTRY_MAX branch is never taken. |
| Mailbox.MailboxObject.PutFront | RVC_Oses/rt-thread/src/ipc.c:2169-2183 | An urgent word is prepended by rewinding `out_offset`. |
| Mailbox.MailboxObject.TakeFront | RVC_Oses/rt-thread/src/ipc.c:2317-2329 | A receive removes the first word. |
| Mailbox.MailboxObject.TrySend | RVC_Oses/rt-thread/src/ipc.c:2009-2106 | One pass of the send loop. |
| Mailbox.MailboxObject.TryRecv | RVC_Oses/rt-thread/src/ipc.c:2253-2344 | One pass of the receive loop. |
| Mailbox.MailboxObject.Send | RVC_Oses/rt-thread/src/ipc.c:1979-2106 | Sending up to the point where the thread returns or waits. |
| Mailbox.MailboxObject.Resend | RVC_Oses/rt-thread/src/ipc.c:2048-2106 | What a resumed sender does with the time that remains. |
| Mailbox.MailboxObject.Urgent | RVC_Oses/rt-thread/src/ipc.c:2150-2204 | An urgent send on the ring and the waiting list. |
| Mailbox.MailboxObject.Recv | RVC_Oses/rt-thread/src/ipc.c:2224-2350 | Receiving up to the point where the thread returns or waits. |
| Mailbox.MailboxObject.Rerecv | RVC_Oses/rt-thread/src/ipc.c:2294-2350 | What a resumed receiver does with the time that remains. |
| Mailbox.MailboxObject.Reset | RVC_Oses/rt-thread/src/ipc.c:2370-2402 | All waiters of both lists leave with an error and the ring is empty. |
| MessageQueue.StepInv | RVC_Oses/rt-thread/src/ipc.c:2726-3238 | Every step, unlocked copies included, keeps slots apart and counted, no wake-up lost, and each thread in one stage of its call. |
| MessageQueue.RunInv | RVC_Oses/rt-thread/src/ipc.c:2726-3238 | The same over every interleaving, on the slots of the pool. |
| MessageQueue.EverySlotSomewhere | RVC_Oses/rt-thread/src/ipc.c:2830-3160 | Every slot of the pool is on the free list, in the queue or held by a thread. |
| MessageQueue.LinkOrder | RVC_Oses/rt-thread/src/ipc.c:2843-2854 | A slot flagged as urgent goes to the front of the queue and any other to its end. |
| MessageQueue.FirstInFirstOut | RVC_Oses/rt-thread/src/ipc.c:2843-3148 | Without urgent sends and resets messages come out exactly once, in the order they were linked, or are still queued. |
| MessageQueue.ExactlyOnce | RVC_Oses/rt-thread/src/ipc.c:2843-3148 | Urgent or not, without resets every message linked comes out exactly once or is still queued. |
| MessageQueue.MessageArrives | RVC_Oses/rt-thread/src/ipc.c:2830-2990 | A message is queued where its call says, behind all others for a normal send and in front of them for an urgent one, with the caller's bytes at its front, whatever ran before and after they were copied. |
| MessageQueue.StepFlagged | RVC_Oses/rt-thread/src/ipc.c:2830-2990 | The flag kept with a slot says whether a normal or an urgent send claimed it. |
| MessageQueue.NormalsInOrder | RVC_Oses/rt-thread/src/ipc.c:2843-3148 | In every run without resets, urgent messages in between or not, the messages whose slots normal sends claimed come out in the order in which they were linked, each exactly once, or are still queued. |
| MessageQueue.RecvAnswers | RVC_Oses/rt-thread/src/ipc.c:3057-3150 | A receive, first or woken, takes the first message exactly if one is queued; else it fails exactly with timeout 0 and waits in its place in line otherwise. |
| MessageQueue.SendAnswers | RVC_Oses/rt-thread/src/ipc.c:2743-2831 | A send, first or woken, gets a slot exactly if its message is not too long and a slot is free; too long a message fails, and without a slot it fails exactly with timeout 0 and waits in its place in line otherwise. |
| MessageQueue.UrgentAnswers | RVC_Oses/rt-thread/src/ipc.c:2935-2965 | An urgent send gets a slot under the same conditions and never waits. |
| MessageQueue.WakeAnswers | RVC_Oses/rt-thread/src/ipc.c:2856-3183 | Linking wakes the first receiver; putting a slot away frees it and wakes the first sender; nobody else is woken. |
| MessageQueue.AbortAnswers | RVC_Oses/rt-thread/src/ipc.c:2731-3110 | A timeout or a signal takes exactly its thread off its list, with its error, and does nothing else. |
| MessageQueue.ReceiverReturns | RVC_Oses/rt-thread/src/ipc.c:3099-3115 | A receiver that left the list woken by a message goes through the loop when it runs; after a timeout, signal or reset it returns that error, whatever ran before. |
| MessageQueue.SenderReturns | RVC_Oses/rt-thread/src/ipc.c:2787-2805 | The same for a sender. |
| MessageQueue.ResetAnswers | RVC_Oses/rt-thread/src/ipc.c:3201-3244 | A reset leaves no message and no waiting thread, frees as many slots as were queued, and who waited finds an error. |
| MessageQueue.PollFailsIff | RVC_Oses/rt-thread/src/ipc.c:2743-3070 | In every run without resets a poll comes back empty exactly if every linked message has been unlinked, and a send with timeout 0 is refused exactly if every slot is queued or held. |
| MessageQueue.RunInLine | RVC_Oses/rt-thread/src/ipc.c:115-154 | In every run both waiting lists stay in line. |
| Lanes.InOrder | RVC_Oses/rt-thread/src/ipc.c:2843-2854 | Whatever goes to the front of the queue in between, what goes to its end comes out first in, first out. |
| MessageQueue.QuiescentWaiting | RVC_Oses/rt-thread/src/ipc.c:2726-3183 | When all woken threads have run, receivers wait only on an empty queue and senders only when every slot is queued or held. |
| MessageQueue.HeldSlotIsPrivate | RVC_Oses/rt-thread/src/ipc.c:2836-2839 | While a thread copies, no interleaving changes its slot or the bytes in it. |
| MessageQueue.ReceivedText | RVC_Oses/rt-thread/src/ipc.c:3135-3160 | A receiver, whether it had waited or not, gets the first min(size, msg_size) bytes of the message that was first when it took it, whatever ran in between. |
| MessageQueue.SentText | RVC_Oses/rt-thread/src/ipc.c:2836-2854 | A message is queued with the sender's bytes at its front, whatever ran in between. |
| MessageQueue.EndToEnd | RVC_Oses/rt-thread/src/ipc.c:2836-3160 | From an idle queue, without urgent sends and resets, the k-th message taken is the k-th one linked, and the bytes received are those its sender copied in as far as both go, whatever ran while either copied. |
| MessageQueue.PoolSlotsDistinct | RVC_Oses/rt-thread/src/ipc.c:2499-2505 | The slots laid out at initialisation do not overlap and lie behind the base, one stride each. |
| MessageQueue.SlotsInPool | RVC_Oses/rt-thread/src/ipc.c:2485-2505 | Link word and payload of every slot lie inside the pool handed over, and no two slots overlap. |
| MessageQueue.SlotHoldsMessage | RVC_Oses/rt-thread/src/ipc.c:2485-2490 | A slot has room for a message of the size asked for exactly if that, rounded up, fits into 16 bits. |
| MessageQueue.MessageQueueObject.constructor | RVC_Oses/rt-thread/src/ipc.c:2463-2514 | The loop threads all slots on the free list, the last one first. |
| MessageQueue.MessageQueueObject.LinkLast | RVC_Oses/rt-thread/src/ipc.c:2843-2865 | Head, tail, link words and entry are those of the longer queue; the RT_MQ_ENTRY_MAX branch is never taken. |
| MessageQueue.MessageQueueObject.LinkFirst | RVC_Oses/rt-thread/src/ipc.c:2977-2994 | The same for an urgent message. |
| MessageQueue.MessageQueueObject.PopQueue | RVC_Oses/rt-thread/src/ipc.c:3135-3148 | The first slot is unlinked and the tail reset with the last one. |
| MessageQueue.MessageQueueObject.Send | RVC_Oses/rt-thread/src/ipc.c:2726-2831 | Sending up to the point where the thread returns, waits or has a slot; a message that is too long is refused. |
| MessageQueue.MessageQueueObject.Fill | RVC_Oses/rt-thread/src/ipc.c:2836-2839 | The unlocked part of a send changes only the thread's own slot. |
| MessageQueue.MessageQueueObject.Link | RVC_Oses/rt-thread/src/ipc.c:2841-2884 | The second region of a send links the slot and wakes a receiver. |
| MessageQueue.MessageQueueObject.Recv | RVC_Oses/rt-thread/src/ipc.c:3036-3148 | Receiving up to the point where the thread returns, waits or has a slot. |
| MessageQueue.MessageQueueObject.PutAway | RVC_Oses/rt-thread/src/ipc.c:3156-3183 | The second region of a receive frees the slot and wakes a sender. |
| MessageQueue.MessageQueueObject.Reset | RVC_Oses/rt-thread/src/ipc.c:3201-3244 | All waiters leave with an error and the queued slots are free again; slots held by threads stay with them. |
| SmallHeapModel.InitWellFormed | RVC_Oses/rt-thread/src/mem.c:203-258 | A fresh heap is one free block, well formed, with nothing in use. |
| SmallHeapModel.AllocAdds | RVC_Oses/rt-thread/src/mem.c:304-389 | A successful malloc adds exactly one block of at least the rounded size, and `used_mem` and `max_mem` follow it. |
| SmallHeapModel.AllocLowest | RVC_Oses/rt-thread/src/mem.c:304-310 | Of the free blocks it accepts malloc takes the lowest. |
| SmallHeapModel.FitsIff | RVC_Oses/rt-thread/src/mem.c:304-310 | The offset limit of the search only ever rejects the last block, and that only if it fits exactly. |
| SmallHeapModel.AllocFails | RVC_Oses/rt-thread/src/mem.c:271-402 | Exactly when malloc returns null; the heap is then unchanged. |
| SmallHeapModel.WholeHeapRefused | RVC_Oses/rt-thread/src/mem.c:304-306 | A whole fresh heap cannot be allocated, four bytes less can. |
| SmallHeapModel.SearchNeverEnds | RVC_Oses/rt-thread/src/mem.c:297-306 | In a heap smaller than MIN_SIZE an accepted request raises the size above the heap's, the limit wraps around and the search never stops. |
| SmallHeapModel.FreeWellFormed | RVC_Oses/rt-thread/src/mem.c:553-614 | A release takes out exactly one block, subtracts its header and payload from `used_mem`, and leaves no two free neighbours. |
| SmallHeapModel.ShrinkWellFormed | RVC_Oses/rt-thread/src/mem.c:471-504 | A shrink exchanges the block for its front, subtracts the difference and leaves no two free neighbours. |
| SmallHeapModel.AllocThenFree | RVC_Oses/rt-thread/src/mem.c:271-614 | Releasing what was just allocated restores the block list. |
| SmallHeapModel.EmptyIsFresh | RVC_Oses/rt-thread/src/mem.c:156-194 | A heap with nothing live has one free block again. |
| SmallHeapModel.ReallocMeaning | RVC_Oses/rt-thread/src/mem.c:421-514 | Realloc exchanges the old block for one of at least the new size, or returns null and changes nothing, or releases for size 0. |
| SmallHeapModel.ReallocFails | RVC_Oses/rt-thread/src/mem.c:428-514 | Exactly when realloc to a nonzero size returns null: the size exceeds the heap, or the block neither has it nor can be cut to it and no free block takes a copy; the heap is then unchanged. |
| SmallHeapModel.ReallocStays | RVC_Oses/rt-thread/src/mem.c:428-504 | Exactly when the pointer comes back unchanged: the block has the rounded size already or can be cut to it. |
| SmallHeapModel.ReallocNothing | RVC_Oses/rt-thread/src/mem.c:428-443 | Realloc of a null pointer is an allocation. |
| SmallHeapModel.ReallocBelowMinimum | RVC_Oses/rt-thread/src/mem.c:463-514 | Exactly when realloc leaves a block below the minimum that malloc observes: at most 8 bytes asked for, and the block has that size or is cut to it. |
| SmallHeapModel.ReallocIsRun | RVC_Oses/rt-thread/src/mem.c:421-514 | Every realloc is a run of at most two locked sections, so that the results about runs hold of it. |
| SmallHeapModel.ActMeaning | RVC_Oses/rt-thread/src/mem.c:271-614 | Every locked section keeps the heap well formed and moves `max_mem` exactly as used memory demands. |
| SmallHeapModel.PeakIsHighWater | RVC_Oses/rt-thread/src/mem.c:348-368 | In every run `max_mem` is the high-water mark of `used_mem`. |
| SmallHeapModel.RunToEmpty | RVC_Oses/rt-thread/src/mem.c:203-614 | A run from a fresh heap that ends with nothing live ends with the fresh block list. |
| SmallHeap.Allocator.SearchWalk | RVC_Oses/rt-thread/src/mem.c:304-306 | After n links from `lfree` the search is at the block that the walk of the block list names, heap_end at last and for ever. |
| SmallHeap.Allocator.SearchGoesOn | RVC_Oses/rt-thread/src/mem.c:297-310 | In a heap smaller than MIN_SIZE such a request finds no header on the links from `lfree`, after any number of them, that ends the loop or fits. |
| SmallHeap.PathInverse | RVC_Oses/rt-thread/src/mem.c:156-194 | `prev` undoes `next` everywhere but at heap_end. |
| SmallHeap.Allocator.FindFit | RVC_Oses/rt-thread/src/mem.c:304-310 | The search loop finds the lowest acceptable block, starting at `lfree`. |
| SmallHeap.Allocator.NextFree | RVC_Oses/rt-thread/src/mem.c:379-386 | The loop after an allocation moves `lfree` to the lowest free block or heap_end. |
| SmallHeap.Allocator.Malloc | RVC_Oses/rt-thread/src/mem.c:271-403 | The header writes compute the model's malloc; the pointer is aligned; allocated bytes are untouched; null changes nothing. |
| SmallHeap.Allocator.PlugHoles | RVC_Oses/rt-thread/src/mem.c:156-194 | plug_holes produces the merged block list with `lfree` its lowest free block. |
| SmallHeap.Allocator.Free | RVC_Oses/rt-thread/src/mem.c:553-614 | The header writes compute the model's release; allocated bytes are untouched; a null pointer or one outside the heap changes nothing. |
| SmallHeap.Allocator.ShrinkItem | RVC_Oses/rt-thread/src/mem.c:471-504 | The shrinking branch on the headers. |
| SmallHeap.Allocator.Realloc | RVC_Oses/rt-thread/src/mem.c:421-514 | Realloc computes the model's realloc and keeps the first min(old, new) bytes; null for a nonzero size changes nothing; a pointer outside the heap is given back and changes nothing. |
| SmallHeap.SystemHeapInit | RVC_Oses/rt-thread/src/mem.c:203-258 | No heap exactly if the area has no room for two headers. |
| MemPool.StepInv | RVC_Oses/rt-thread/src/mempool.c:311-450 | Every step keeps: each block is free once or live, and while threads wait at most as many blocks are free as woken threads are on their way. |
| MemPool.RunInv | RVC_Oses/rt-thread/src/mempool.c:311-450 | The same over every interleaving, on the blocks of the pool. |
| MemPool.QuiescentWaiting | RVC_Oses/rt-thread/src/mempool.c:327-444 | When all woken threads have run, threads wait only if every block is live. |
| MemPool.FreeThenAlloc | RVC_Oses/rt-thread/src/mempool.c:379-431 | A released block is the next one allocated, and that restores the state. |
| MemPool.AllocAnswers | RVC_Oses/rt-thread/src/mempool.c:327-398 | An allocation, first or woken, gets the first free block exactly if one is free; else it is denied exactly with time 0 and waits in front of all others otherwise. |
| MemPool.FreeAnswers | RVC_Oses/rt-thread/src/mempool.c:407-450 | A release frees exactly its block, puts it first, and wakes the first waiter and nobody else. |
| MemPool.AbortAnswers | RVC_Oses/rt-thread/src/mempool.c:339-378 | A timeout or a signal takes exactly its thread off the list, with its error, and does nothing else. |
| MemPool.WaiterReturns | RVC_Oses/rt-thread/src/mempool.c:339-378 | A waiter that was woken by a release goes through the loop when it runs; after a timeout or signal it is denied with that error, whatever ran before. |
| MemPool.PollFailsIff | RVC_Oses/rt-thread/src/mempool.c:327-337 | In every run an allocation with time 0 is denied exactly if every block is live. |
| MemPool.PayloadsDisjoint | RVC_Oses/rt-thread/src/mempool.c:114-120 | Blocks of the layout lie inside the pool and do not overlap. |
| MemPool.LastWordInPool | RVC_Oses/rt-thread/src/mempool.c:116-123 | The word written behind the loop is inside the area handed over exactly if that holds a block, or the way down wraps round the address space into it. |
| MemPool.LivePayloadsApart | RVC_Oses/rt-thread/src/mempool.c:104-125 | In every state reached from a fresh pool the live blocks lie in the area handed over, do not overlap, and have room for as many bytes as were asked for. |
| MemPool.Pool.constructor | RVC_Oses/rt-thread/src/mempool.c:81-128 | The loop builds the chain of all blocks in address order; with no block at all only the stray word is written. |
| MemPool.Pool.TryAlloc | RVC_Oses/rt-thread/src/mempool.c:327-398 | One pass of the allocation loop on the chain, the counter and the first words. |
| MemPool.Pool.Alloc | RVC_Oses/rt-thread/src/mempool.c:311-398 | Allocation up to the point where the thread returns or waits, last come first in line. |
| MemPool.Pool.Free | RVC_Oses/rt-thread/src/mempool.c:407-450 | The word in front of a live payload names the pool; the block becomes the head of the chain and a waiter is woken. |
| Numerals.Divide | RVC_Oses/rt-thread/src/kservice.c:609-637 | Quotient and remainder by 10, or by 16 for every other base. |
| Numerals.DigitLoop | RVC_Oses/rt-thread/src/kservice.c:716-723 | The temporary buffer holds the digits last one first and is never overrun. |
| Numerals.WordDigits | RVC_Oses/rt-thread/src/kservice.c:670-674 | A 32-bit word has at most ten digits. |
| Numerals.NumeralReads | RVC_Oses/rt-thread/src/kservice.c:716-723 | The digits of every number read back to it. |
| Numerals.NumeralShape | RVC_Oses/rt-thread/src/kservice.c:684-723 | Numerals have no superfluous zero in front, and their letters are large or small as asked for. |
| Numerals.SkipAtoi | RVC_Oses/rt-thread/src/kservice.c:639-646 | skip_atoi reads the decimal number at the front and stops behind it. |
| Numerals.AtoiUndoesPrinting | RVC_Oses/rt-thread/src/kservice.c:639-646 | skip_atoi undoes unpadded decimal printing, and no intermediate value exceeds the number. |
| Formatter.PrintedReadsBack | RVC_Oses/rt-thread/src/kservice.c:656-815 | For every word, width, flags and precision other than 0 the printed field reads back to the number, the most negative one included. |
| Formatter.FieldWidth | RVC_Oses/rt-thread/src/kservice.c:725-814 | The field is as wide as asked for or as sign and digits need. |
| Formatter.ReadsBackIff | RVC_Oses/rt-thread/src/kservice.c:656-815 | A printed field reads back to its number exactly if the precision is not 0 or the number is 0. |
| Formatter.OctalReadsBackIff | RVC_Oses/rt-thread/src/kservice.c:615-637 | What is printed for base 8, read in base 8, is the number exactly if its magnitude is below 8 (with precision 0, if it is 0): the digits are hexadecimal ones. |
| Formatter.PrintNumber | RVC_Oses/rt-thread/src/kservice.c:656-815 | print_number puts exactly the field's characters that fit below the end and returns the position behind the whole field. |
| Formatter.ParseField | RVC_Oses/rt-thread/src/kservice.c:870-932 | The loops compute the field whose meaning `FormatSpec.FieldParsed` states. |
| FormatSpec.FieldParsed | RVC_Oses/rt-thread/src/kservice.c:870-932 | For a directive of any flag characters, width, precision and qualifier, numbers or asterisks, the parsed field has the flags whose characters occur, those numbers or the next arguments, and that qualifier. |
| FormatSpec.NumberLaid | RVC_Oses/rt-thread/src/kservice.c:686-814 | print_number puts each character in its place: blanks, sign, digits; or sign, zeros, digits under '0'; or sign, digits, blanks under '-', which wins. |
| FormatSpec.OperandValue | RVC_Oses/rt-thread/src/kservice.c:1040-1064 | With h the low 16 bits are printed, with their own sign for signed conversions. |
| FormatSpec.PrintsInteger | RVC_Oses/rt-thread/src/kservice.c:870-1074 | Every integer directive prints the number its argument stands for, with sign, zeros, blanks and letters as its flags, width, precision and conversion character say, each in its place. |
| FormatSpec.PrintsOther | RVC_Oses/rt-thread/src/kservice.c:937-1038 | %c, %s, %p and %% with any flags, width and precision, and what other characters print. |
| FormatSpec.LonePercent | RVC_Oses/rt-thread/src/kservice.c:1027-1038 | A percent sign at the end of the format prints itself. |
| FormatSpec.PadsFortyTwo | RVC_Oses/rt-thread/src/kservice.c:877-881 | %05d of 42 is 00042, %-5d is 42 and three blanks, and '-' wins over '0'. |
| Formatter.PrintString | RVC_Oses/rt-thread/src/kservice.c:963-993 | %s: the string cut and padded. |
| Formatter.PrintDirective | RVC_Oses/rt-thread/src/kservice.c:937-1074 | One directive puts its text as far as it fits and leaves the rest of format and arguments. |
| Formatter.VsnPrintf | RVC_Oses/rt-thread/src/kservice.c:830-1089 | Into n characters: the first min(L, n - 1) of the unbounded output and a terminating 0, nothing else changed, and L returned; nothing at all for n = 0. |
| Formatter.LiteralText | RVC_Oses/rt-thread/src/kservice.c:860-868 | Text without percent signs stands for itself. |
| Formatter.PrintsDecimal | RVC_Oses/rt-thread/src/kservice.c:1028-1074 | %d prints what reads back to the signed value. |
| Formatter.PrintsUnsigned | RVC_Oses/rt-thread/src/kservice.c:1022-1074 | %u, %x and %X print the digits that read back to the unsigned value. |
| Formatter.PrintsText | RVC_Oses/rt-thread/src/kservice.c:963-993 | %s prints the string up to its terminating 0. |
| Formatter.PrintsChar | RVC_Oses/rt-thread/src/kservice.c:940-961 | %c prints one byte. |
| Formatter.PrintsPercent | RVC_Oses/rt-thread/src/kservice.c:1012-1015 | %% prints a percent sign and takes no argument. |
| AlignedAlloc.MaskIsRemainder | RVC_Oses/rt-thread/src/kservice.c:1313 | Masking with a power of two less one is the remainder. |
| AlignedAlloc.ClearMask | RVC_Oses/rt-thread/src/kservice.c:1319 | Masking with the complement clears the low bits. |
| AlignedAlloc.AlignedBehind | RVC_Oses/rt-thread/src/kservice.c:1312-1320 | For a power of two the result is aligned and one word to one alignment behind the block's start. |
| AlignedAlloc.AlignsIffPowerOfTwo | RVC_Oses/rt-thread/src/kservice.c:1312-1320 | The masks align every pointer exactly if the rounded alignment is a power of two. |
| AlignedAlloc.TotalCovers | RVC_Oses/rt-thread/src/kservice.c:1303-1307 | The block asked for covers size and word exactly if the 32-bit sum does not wrap around. |
| AlignedAlloc.MallocAlign | RVC_Oses/rt-thread/src/kservice.c:1292-1329 | The pointer is aligned, the word before it names the block and both it and the size bytes are inside, no byte allocated before is touched, releasing that block restores the block list, and null comes back exactly if the allocation of size and alignment fails. |
| AlignedAlloc.BackWordSurvives | RVC_Oses/rt-thread/src/kservice.c:1322-1343 | Through any history of heap calls and of writes by users to what they were given, the word in front of the pointer stays. |
| AlignedAlloc.BackedSurvives | RVC_Oses/rt-thread/src/kservice.c:1322-1344 | After any such history in which the block stays allocated the pointer is still backed by the same block, and releasing what the word names releases exactly that block. |
| AlignedAlloc.FreeAlign | RVC_Oses/rt-thread/src/kservice.c:1338-1344 | The four bytes in front of the pointer are read and exactly the block they name is released. |
| Ethernet.HoldsMore | RVC_Oses/libraries/HAL_Drivers/drv_eth.c:214-242 | Copying the next piece to where the frame goes on extends the frame held by the ring. |
| Ethernet.GathersIff | RVC_Oses/libraries/HAL_Drivers/drv_eth.c:199-243 | From a ring that holds a frame the frame can be gathered again exactly if its bytes repeat from ring to ring, as those of a frame that fits trivially do. |
| Ethernet.GathersIffFits | RVC_Oses/libraries/HAL_Drivers/drv_eth.c:199-243 | Hence every frame of a length can be gathered exactly if the length fits into the ring. |
| Ethernet.SendTooLong | RVC_Oses/libraries/HAL_Drivers/drv_eth.c:184-243 | A frame of one 1 and zeros that is longer than the ring is sent with success when no buffer belongs to the DMA, and the ring does not give it back. |
| Ethernet.ScatterGather | RVC_Oses/libraries/HAL_Drivers/drv_eth.c:199-345 | What one side scattered the other gathers as the same bytes, however the chains are split. |
| Ethernet.CutFlattens | RVC_Oses/libraries/HAL_Drivers/drv_eth.c:320-345 | A frame cut into pieces of any lengths is the frame again when joined. |
| Ethernet.BufferRing.PutPayload | RVC_Oses/libraries/HAL_Drivers/drv_eth.c:209-242 | The copying of one packet buffer: ends in the right descriptor and offset, or at a descriptor of the DMA that the frame needs. |
| Ethernet.BufferRing.Tx | RVC_Oses/libraries/HAL_Drivers/drv_eth.c:184-243 | Success exactly if no buffer the frame needs belongs to the DMA; then the ring holds the chain, gives it back exactly if its bytes repeat from ring to ring, and the frame length is its total; DMA buffers are never written. |
| Ethernet.BufferRing.GetPayload | RVC_Oses/libraries/HAL_Drivers/drv_eth.c:322-344 | One packet buffer gets the next bytes of the frame. |
| Ethernet.BufferRing.Rx | RVC_Oses/libraries/HAL_Drivers/drv_eth.c:280-365 | The chain is the frame, cut as allocated; exactly the buffers of the segments go back to the DMA. |
| Robot.ActInv | RVC_Oses/applications/tasks.c:371-423 | Every activation and every signal keeps the robot inside, off obstacles until it returns, with the tile behind it cleaned. |
| Robot.Run | RVC_Oses/applications/tasks.c:331-423 | The same holds after every run with at most one signal per completed move. |
| Robot.BumpUndoesMove | RVC_Oses/applications/tasks.c:86-105 | The handler after a move restores the previous position exactly and marks the tile bumped into, and only it. |
| Robot.ObstaclesStay | RVC_Oses/applications/tasks.c:86-105 | Obstacle marks are permanent. |
| Robot.CleanedOnce | RVC_Oses/applications/tasks.c:371-375 | Every tile is signalled as cleaned at most once. |
| Robot.StuckIff | RVC_Oses/applications/tasks.c:43-70 | find_new_position gives up exactly if every neighbour but the one straight back is blocked. |
| Robot.ChoosesFirst | RVC_Oses/applications/tasks.c:43-70 | Of the directions that are open and not straight back the robot takes the first of up, down, left and right. |
| Robot.EndsIffCornered | RVC_Oses/applications/tasks.c:377-410 | Before its return the thread ends exactly where every neighbour but the one straight back is blocked. |
| Robot.EndsWithWayBack | RVC_Oses/applications/tasks.c:377-410 | A run from the start reaches a place where the way back is open and the thread ends all the same. |
| Robot.ReturnsInExactly | RVC_Oses/applications/tasks.c:395-422 | On its way home the robot goes up to the first row and then left along it; from row + column d > 0 it is at (0,0) after exactly d activations, and the thread goes on until then. |
| Robot.MailSendsHome | RVC_Oses/applications/tasks.c:359-422 | A mail sends the robot home from wherever it is: it is at (0,0), and the thread ended, after exactly as many activations as its row and column say. |
| Robot.GoesRound | RVC_Oses/applications/tasks.c:371-410 | Without obstacles and mail the robot follows the border of a room of two by two tiles or more for every number of activations: down, right, up, left; cleaned is exactly what it has passed. |
| Robot.OnlyBorderCleaned | RVC_Oses/applications/tasks.c:371-410 | In such a room the thread never ends, no tile off the border is ever cleaned, and after one lap every tile of the border is. |
| Robot.MovementControl.FindNewPosition | RVC_Oses/applications/tasks.c:43-70 | The search order on the map, and the move it makes. |
| Robot.MovementControl.ObstacleHandler | RVC_Oses/applications/tasks.c:86-105 | The handler on the map and the position. |
| Robot.MovementControl.Activation | RVC_Oses/applications/tasks.c:356-423 | One round of the movement loop on the map, the position and the direction. |

## Left out

- MemHeapRuns.AllocFails: the heap is one state; that the code reads `available_size` before it takes the lock, so that the test may be stale by the time of the search, is not modelled.
- MemHeap.MemoryHeap.Alloc: request sizes that wrap around when rounded up to a multiple of 4 are not modelled; sizes are unbounded numbers.
- SmallHeap.Allocator.Malloc: the same for request sizes, and the magic words of the headers, which nothing but an assertion reads.
- SmallHeap.Allocator.Realloc: what other threads do between the parts of a move, which `MemHeapMoves` has for the memory heap.
- SmallHeap.Allocator.Free: a pointer into the heap that is not live stops at an assertion in the code and is excluded here; for one outside the heap the test behind the assertion is modelled, as it runs with assertions off.
- Mutex.RunInv: runs in which a waiting thread is woken by a signal (the jump back to the retry label), and the priority inheritance of the owner.
- Mutex.Overflow: the wrap-around of `hold` is modelled; that the counter is a byte shared with other fields is not.
- EventSet.EventObject.Send: the 32-bit event word is the set of its 1 bits, so that bit masks are set operations; the callers that pass other widths are not modelled.
- MessageQueue.MessageQueueObject.Fill: the unlocked copy is one step; since the slot belongs to the thread alone (`MessageQueue.HeldSlotIsPrivate`), finer steps would not be seen by others.
- MemPool.Pool.constructor: what the stray word of a pool without a block overwrites.
- Formatter.VsnPrintf: a buffer so large that its end wraps around the address space, and field widths beyond the range of int.
- AlignedAlloc.MallocAlign: alignments that are not powers of two and sums that wrap around, whose effect `AlignedAlloc.AlignsIffPowerOfTwo` and `AlignedAlloc.TotalCovers` state.
- Ethernet.BufferRing.Rx: reception registers, interrupts and the DMA itself; the caller says where a frame lies and how long it is.
- Robot.MovementControl.Activation: brushes, acoustic signals, benchmark output, timing and pin access.
- Detach, delete and create of IPC objects, memory heaps and pools; hooks, object names, memory tracing and dump commands.
- The scheduler, thread timers and the computation of the remaining timeout: a resumed thread runs its next pass with any timeout.
- The `rt_malloc` family of `memheap.c` over several heaps, `rt_calloc`, and the other string functions of `kservice.c`.
