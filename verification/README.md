# FastInAHurry: a Dafny model of its queues, pool, order book and memory handles

FastInAHurry is a header-only C++ library. This project models the components whose correctness rests on
protocols and invariants, and proves what they are for: nothing lost or reordered in the lock-free queues,
price-time priority in the matching engine, no lost wake-up and a finite shutdown in the thread pool, exact
reference counts, optimal bump placement, amortised vector growth, and a random generator whose state is a
permutation.

`dafny verify dfyconfig.toml` checks everything.

## How the model is built

| file | component |
|---|---|
| `Common.dfy` | optional values and slot storage, shared by the components |
| `Words.dfy` | 64-bit wrap-around, `popcount`, `&`, and why `counter & (size - 1)` is the counter modulo the size |
| `MPSCQueue.dfy` | multi-producer, single-consumer ring |
| `SPSCQueue.dfy` | single-producer, single-consumer ring and its destructor |
| `SPSCLogger.dfy` | the logger's consumer thread over many rings |
| `ThreadPool.dfy` | task queue, semaphore, stopping flag, stop tokens |
| `SharedPtr.dfy` | shared handles used by any number of threads, and what their counts count |
| `SharedPtrFields.dfy` | the same with each handle's raw `p_cb` field, and the proof that it agrees |
| `Orderbook.dfy` | the matching engine: a class updated in place, proved against functions on values |
| `OrderbookPriority.dfy` | a reference book with arrival stamps, and the proof that the engine agrees with it |
| `OrderbookBalance.dfy` | quantities, prices, book health, and what cancelling undoes |
| `BumpArena.dfy` | the arena and the allocator |
| `Vector.dfy` | the growable vector |
| `XorBitant.dfy` | the xorshift generator |

The concurrent components are step machines: a state, an `Action` per atomic step, `Enabled` for program order
and blocking, `Step` for the effect. A run is a sequence of states linked by actions from an initial state, so a
lemma about `trace[k]` for arbitrary `trace`, `acts` and `k` speaks of every reachable state of every
interleaving, with any number of threads. History fields (claims in order, values popped, times) are ordinary
fields that no step reads back.

In the two rings, counters are exact naturals and every comparison of the code is made on the 64-bit words they
wrap to. Loads may be out of date. In the MPSC ring a producer's load of the head or the tail may return any
earlier value, a compare-and-swap may fail spuriously (as section [atomics.types.operations] of ISO/IEC 14882
allows), and the consumer may miss a raised flag. In the SPSC ring each side may read any value of the other
side's counter that is not older than what it has already read.

Where the code falls short of what one might expect, the model keeps the code and states the exact condition:

- `try_push` of the MPSC ring can return false on an empty queue (`MPSCQueue.RefusedWhileEmpty`); it does so
  exactly as `MPSCQueue.RefusalExact` says, and with one producer false does mean full.
- `try_pop` can return false on a non-empty queue (`MPSCQueue.PopFailsNonEmpty`), exactly while the oldest claim
  is unpublished (`MPSCQueue.PopSucceedsExactly`).
- A producer of the MPSC ring that pauses between its capacity test and its compare-and-swap while the tail goes
  once round all 64-bit values can claim an entry of a full ring (`MPSCQueue.LateClaimOverruns`). Runs are
  therefore bounded there and nowhere else: at a successful compare-and-swap the tail is less than 2^64 past the
  head that the capacity test used.
- `size()` of the SPSC ring can be 2^64 - 1 from a third thread (`SPSCQueue.SizeFromThirdThread`); it is in range
  exactly as `SPSCQueue.SizeInRange` says.
- A pool that is destroyed can drop queued tasks (`ThreadPool.QueuedTaskDropped`). Each worker that waits or holds
  a permit when `m_stopping` is set still makes one fetch; the last tasks in excess of those workers are dropped,
  and nothing is dropped if and only if permits and releases to come were no more than the waiting workers
  (`ThreadPool.DroppedExactly`).
- The logger's last drain covers only the last snapshot: a thread that first logs after it loses its records
  (`SPSCLogger.LateQueueLost`), and which queues are fully written is an if-and-only-if in `SPSCLogger.RunWrites`.
- The comment on `Trade` says that its second id is the aggressor's (include/fiah/structs/Orderbook.hh:90); the
  code stores the seller's id there, and so does the model.

## Model

| member | source | states |
|---|---|---|
| Words.SlotIsMod | include/fiah/structs/MPSCQueue.hh:58 | for every power-of-two size below 2^64 and every counter value, masking the wrapped counter gives the exact counter modulo the size |
| Words.SlotDistinct | include/fiah/structs/SPSCQueue.hh:67-70 | counters less than one turn apart never share a slot |
| MPSCQueue.OwnershipSafety | include/fiah/structs/MPSCQueue.hh:118-159 | in every state of every run head <= tail <= head + SIZE; each index in the window is held by the one producer that claimed it, held by the consumer, or published; no two threads own one slot; construction meets a dead slot, move a live object, destruction a moved-from one; all this with counter loads that may return any earlier value |
| MPSCQueue.PopsInClaimOrder | include/fiah/structs/MPSCQueue.hh:111-161 | the popped values are exactly a prefix of the compare-and-swap order, and at rest the slots hold the remainder of it: nothing lost, repeated or overwritten |
| MPSCQueue.ProducerOrderKept | include/fiah/structs/MPSCQueue.hh:111-139 | what has been popped of one producer is a prefix of the values of its successful calls, in call order |
| MPSCQueue.RealTimeOrder | include/fiah/structs/MPSCQueue.hh:122-137 | a push that returned before another call began has the smaller index and is popped before it |
| MPSCQueue.RunKeepsHistory | include/fiah/structs/MPSCQueue.hh:111-139 | every call under way and every claim carries the argument and the time of the try_push that began it |
| MPSCQueue.LoadsRemembered | include/fiah/structs/MPSCQueue.hh:114-132 | a call works with the tail it was last given, by its load or by a failed compare-and-swap, and with the head it loaded last |
| MPSCQueue.PushEnds | include/fiah/structs/MPSCQueue.hh:116-139 | try_push ends exactly where its flag goes up or its capacity test refuses; a failed compare-and-swap does not end it |
| MPSCQueue.PopEnds | include/fiah/structs/MPSCQueue.hh:146-161 | try_pop ends exactly at the store of the head or at a flag read as down |
| MPSCQueue.RefusedOnDifference | include/fiah/structs/MPSCQueue.hh:118-120 | for any head loaded, current or not, try_push is refused exactly when tail less head, modulo 2^64, is SIZE or more |
| MPSCQueue.StepKeepsInv | include/fiah/structs/MPSCQueue.hh:114-159 | every atomic step keeps the invariant that memory at each window index is what the program counters say; only a successful compare-and-swap needs the tail to be less than 2^64 past the head that its capacity test used |
| MPSCQueue.LooksFullExact | include/fiah/structs/MPSCQueue.hh:119 | for a tail less than 2^64 ahead of the head and less than 2^64 - SIZE behind it, the wrapped test passes exactly on 0 <= tail - head < SIZE |
| MPSCQueue.LooksFullBehind | include/fiah/structs/MPSCQueue.hh:119 | for any tail behind the head, the wrapped test refuses exactly when the lag modulo 2^64 is positive and at most 2^64 - SIZE |
| MPSCQueue.CasSawTail | include/fiah/structs/MPSCQueue.hh:118-128 | a compare-and-swap that succeeds on words claims an index with room, although the head it tested may be any earlier one |
| MPSCQueue.LateClaimOverruns | include/fiah/structs/MPSCQueue.hh:118-128 | for every capacity, a run after which a compare-and-swap that is 2^64 claims late would take the tail out of the window |
| MPSCQueue.RefusalExact | include/fiah/structs/MPSCQueue.hh:118-120 | with an up-to-date head, try_push returns false exactly when its tail is current and SIZE entries are unpopped, or the head has passed its stale tail; lags past 2^64 - SIZE are covered too, by their remainder modulo 2^64 |
| MPSCQueue.SoleProducerRefusal | include/fiah/structs/MPSCQueue.hh:114-120 | with one producer whose counter loads are up to date, false means full and full means false |
| MPSCQueue.RefusedWhileEmpty | include/fiah/structs/MPSCQueue.hh:114-120 | for every capacity, a run of two producers in which try_push returns false on an empty queue |
| MPSCQueue.PopSucceedsExactly | include/fiah/structs/MPSCQueue.hh:148-152 | with an up-to-date flag, try_pop succeeds exactly when the oldest unpopped claim is no longer held by its producer |
| MPSCQueue.PopFailsNonEmpty | include/fiah/structs/MPSCQueue.hh:148-152 | for every capacity, a run in which try_pop with an up-to-date flag returns false on a non-empty queue |
| MPSCQueue.SoloPush | include/fiah/structs/MPSCQueue.hh:111-139 | a producer left alone on a queue that is not full completes and appends exactly its claim |
| MPSCQueue.SoloRetry | include/fiah/structs/MPSCQueue.hh:122-132 | a producer left alone after a failed compare-and-swap, on a queue that is not full, completes the same call and appends exactly its claim |
| MPSCQueue.SoloPop | include/fiah/structs/MPSCQueue.hh:146-161 | a consumer left alone pops exactly the oldest claim if its producer is done with it |
| SPSCQueue.StepKeepsInv | include/fiah/structs/SPSCQueue.hh:107-149 | every atomic step keeps the ring invariant, with out-of-date but coherent loads and 64-bit counters that wrap |
| SPSCQueue.FullExact | include/fiah/structs/SPSCQueue.hh:115 | the wrapped full test is exact in every reachable state, with no bound on the length of the run |
| SPSCQueue.EmptyExact | include/fiah/structs/SPSCQueue.hh:132 | the wrapped empty test is exact in every reachable state |
| SPSCQueue.RefinesFifo | include/fiah/structs/SPSCQueue.hh:107-149 | every step of every run is a step of a FIFO of that capacity, at the store of the head or of the tail; emplace refuses exactly when the tail it loaded leaves no room and pop exactly when the head it loaded is its own tail, which with current loads is a full and an empty queue |
| SPSCQueue.CallsEnd | include/fiah/structs/SPSCQueue.hh:107-149 | emplace and pop end exactly where they store their counter or their test refuses |
| SPSCQueue.ArgumentKept | include/fiah/structs/SPSCQueue.hh:107-126 | the value an emplace constructs and publishes is the one it was called with |
| SPSCQueue.SlotSafety | include/fiah/structs/SPSCQueue.hh:118-145 | pops are a prefix of pushes; the two threads are never at one slot; construction meets a dead slot, move a live object, destruction a moved-from one |
| SPSCQueue.DestroyQueue | include/fiah/structs/SPSCQueue.hh:79-93 | the destructor destroys exactly the unpopped elements in order; afterwards every cell is raw and constructions equal destructions |
| SPSCQueue.EmptyMeansEmpty | include/fiah/structs/SPSCQueue.hh:151-158 | from any thread, empty() returning true means the queue was empty at every moment between its two loads |
| SPSCQueue.FullMeansFull | include/fiah/structs/SPSCQueue.hh:160-165 | from any thread, full() returning true means the queue was full at every moment between its two loads |
| SPSCQueue.SizeInRange | include/fiah/structs/SPSCQueue.hh:167-172 | size() is at most the capacity exactly when the tail has not overtaken the head loaded first, which holds from either endpoint thread |
| SPSCQueue.SizeFromThirdThread | include/fiah/structs/SPSCQueue.hh:167-172 | for every capacity, a run in which size() from a third thread is 2^64 - 1 |
| SPSCLogger.OccurAllKeeps | include/fiah/utils/SPSCLogger.hh:221-287 | whatever the producers push or register, written then queued records of each queue stay its accepted records in order, and what is accepted only grows |
| SPSCLogger.AcceptsUntilFull | include/fiah/utils/SPSCLogger.hh:221-287 | between two accesses of the consumer a registered queue accepts what is logged through it, in order, until it holds 1024 records, and refuses the rest |
| SPSCLogger.TakeWrites | include/fiah/utils/SPSCLogger.hh:144-152 | under any interference, draining a queue leaves it empty with all it has accepted written, in order, and nothing else written |
| SPSCLogger.PassWrites | include/fiah/utils/SPSCLogger.hh:141-154 | under any interference, a pass writes everything each snapshot queue had accepted before the pass began, and nothing for other queues |
| SPSCLogger.QuietPass | include/fiah/utils/SPSCLogger.hh:141-154 | without interference a pass writes exactly the snapshot's contents, queue by queue, and leaves the other queues |
| SPSCLogger.RunWrites | include/fiah/utils/SPSCLogger.hh:133-167 | for every schedule and number of rounds: accepted records are written or queued, in order; a queue of the last snapshot has all written that it had accepted when the last drain began; other queues have nothing written; if producers are quiet in the last drain, a queue is fully written if and only if it is in the last snapshot or accepted none |
| SPSCLogger.SnapshotWritten | include/fiah/utils/SPSCLogger.hh:156-166 | for every schedule, the last snapshot has every queue there is when it is taken, and what each had accepted by then is written by the end, first and in order |
| SPSCLogger.BurstWritten | include/fiah/utils/SPSCLogger.hh:133-167 | up to 1024 records that one thread logs before the first of any number of rounds are exactly the output, in order |
| SPSCLogger.LateQueueLost | include/fiah/utils/SPSCLogger.hh:156-166 | for every number of rounds, a schedule in which a record accepted after the last snapshot, by a queue that is new, is never written |
| SPSCLogger.Flush | include/fiah/utils/SPSCLogger.hh:208-219 | the first n buffered records are written, in order, after what was written before |
| SPSCLogger.DrainQueue | include/fiah/utils/SPSCLogger.hh:144-152 | under any interference, batching through the buffer of ten writes what popping and writing one by one does; the buffer index stays in range and ends at zero |
| SPSCLogger.Drain | include/fiah/utils/SPSCLogger.hh:141-154 | one pass over the snapshot is the pass of `PassWrites`, the buffer being empty between queues |
| SPSCLogger.Run | include/fiah/utils/SPSCLogger.hh:133-167 | the consumer thread ends where `RunWrites` and `SnapshotWritten` say, for every schedule and number of rounds |
| ThreadPool.StepKeepsInv | include/fiah/thread/ThreadPool.hpp:57-120 | every step of a worker, an enqueuer or the destructor keeps the permit balance and the cover of waiting workers |
| ThreadPool.QueueAccounting | include/fiah/thread/ThreadPool.hpp:57-111 | queued tasks never exceed permits, permit holders and enqueuers about to release, with equality before stopping; tasks are taken at most once, in enqueue order |
| ThreadPool.EnqueuedInOrder | include/fiah/thread/ThreadPool.hpp:98-111 | the tasks that entered the queue are the arguments of the enqueue calls, in the order of their pushes |
| ThreadPool.FetchRunsNext | include/fiah/thread/ThreadPool.hpp:67-77 | the n-th successful fetch runs the n-th task enqueued, and a fetch fails exactly when none is left |
| ThreadPool.TakenTasksRunOnce | include/fiah/thread/ThreadPool.hpp:67-77 | in every state of every run, tasks run to their end plus tasks in workers' hands are, as a multiset, the tasks taken: each is run exactly once |
| ThreadPool.WorkerLeaves | include/fiah/thread/ThreadPool.hpp:57-65 | a worker exits exactly when its stop was requested as it looks, stopping is set, or its stop was requested and it sees the queue empty |
| ThreadPool.FetchFindsTask | include/fiah/thread/ThreadPool.hpp:60-74 | before shutdown a worker that acquired a permit always finds a task |
| ThreadPool.NoLostWakeup | include/fiah/thread/ThreadPool.hpp:60-110 | with a task queued, no enqueue under way and no permit held, every waiting worker can acquire |
| ThreadPool.PermitsCoverWaiters | include/fiah/thread/ThreadPool.hpp:113-120 | after the destructor body there is a permit for every worker still waiting |
| ThreadPool.AcquiresAtMostOnce | include/fiah/thread/ThreadPool.hpp:57-60 | once m_stopping is set a worker acquires at most once, and only if it was already waiting |
| ThreadPool.NoWorkerStuck | include/fiah/thread/ThreadPool.hpp:57-78 | after the destructor body every worker that has not exited can take its next step |
| ThreadPool.WorkerStepDescends | include/fiah/thread/ThreadPool.hpp:57-78 | once m_stopping is set every worker step lowers a rank that no other step raises |
| ThreadPool.ShutdownTerminates | include/fiah/thread/ThreadPool.hpp:57-120 | in every interleaving each worker takes at most seven steps after the destructor body, and when none can step all have exited |
| ThreadPool.DroppedBounds | include/fiah/thread/ThreadPool.hpp:57-120 | in every run that ends with all workers exited, the tasks dropped are at least those in excess of the workers waiting or holding a permit when stopping was set, later pushes included, and at most that excess plus the later pushes |
| ThreadPool.DroppedExactly | include/fiah/thread/ThreadPool.hpp:57-120 | without a later push the tasks dropped are exactly the last ones queued, one for each in excess of those workers; none is dropped if and only if permits and releases under way were no more than the waiting workers |
| ThreadPool.QueuedTaskDropped | include/fiah/thread/ThreadPool.hpp:57-120 | a run in which a queued task is never taken because the pool stops |
| SharedPtr.StepKeepsInv | include/fiah/handle/SharedPtr.hh:46-184 | every atomic step of construct, copy, move, assign, reset and destroy keeps the count equal to the handles counted on the block |
| SharedPtr.NoUseAfterFree | include/fiah/handle/SharedPtr.hh:46-64 | no step of any run touches a freed block, and the deleter runs only on a count of zero and an undeleted object |
| SharedPtr.CountIsHandles | include/fiah/handle/SharedPtr.hh:103-189 | the count is the number of handles on the block; the deleter runs at most once and only with no handle left; between calls a block is freed, and its object deleted exactly once, exactly when its last handle is gone |
| SharedPtr.CallsNeverStuck | include/fiah/handle/SharedPtr.hh:103-184 | every call under way finds the block it needs for its next step |
| SharedPtrFields.ActSimulates | include/fiah/handle/SharedPtr.hh:46-184 | every step on the raw `p_cb` fields and blocks is the step of the counted machine, on the handles read off fields and calls |
| SharedPtrFields.FieldRunRefines | include/fiah/handle/SharedPtr.hh:46-184 | every run on raw fields is a run of the counted machine, so what holds there holds here |
| SharedPtrFields.FieldsReadAreLive | include/fiah/handle/SharedPtr.hh:103-163 | whenever a call reads a non-null `p_cb`, its own or its source's, the block is counted and not freed |
| SharedPtrFields.CountIsFields | include/fiah/handle/SharedPtr.hh:103-189 | between calls a block's count is the number of handles whose `p_cb` names it, and it is freed, its object deleted once, exactly when there is none |
| SharedPtrFields.CallDelivers | include/fiah/handle/SharedPtr.hh:82-184 | however calls interleave, a copy ends with handle and source on the source's block, its count up by one; a move with the handle there and the source null; construction or reset from a pointer with a new block of count one; reset() with a null handle; destruction with none |
| SharedPtrFields.SelfAssignment | include/fiah/handle/SharedPtr.hh:113-144 | assigning a handle to itself changes nothing, and nothing else can name one handle twice |
| SharedPtrFields.OnlyOwnFields | include/fiah/handle/SharedPtr.hh:82-184 | a step changes no handle but those its own call may write |
| SharedPtrFields.FieldDangles | include/fiah/handle/SharedPtr.hh:157-165 | a run in which a field names a freed block, in the middle of reset() |
| Orderbook.Orderbook.InsertOrder | include/fiah/structs/Orderbook.hh:125-140 | the side gains the order at the lower-bound position, unless its id rests on either side |
| Orderbook.Orderbook.AddOrder | include/fiah/structs/Orderbook.hh:143-198 | book and trades are those of the matching function, for any quantity; the loop terminates |
| Orderbook.Orderbook.CancelOrder | include/fiah/structs/Orderbook.hh:200-215 | the first order with the id goes, bids first; nothing else changes |
| Orderbook.LowerBound | include/fiah/structs/Orderbook.hh:134-138 | the binary search finds the first position at least as good |
| OrderbookPriority.MatchRefines | include/fiah/structs/Orderbook.hh:154-189 | a whole match makes the trades of repeatedly picking the best-priced, earliest-arrived order |
| OrderbookPriority.InsertRep | include/fiah/structs/Orderbook.hh:129-139 | lower_bound insertion keeps vector position equal to (price, arrival) priority |
| OrderbookPriority.RemoveRep | include/fiah/structs/Orderbook.hh:203-214 | erasing any order keeps the priority of the others |
| OrderbookPriority.FillRep | include/fiah/structs/Orderbook.hh:183-188 | a partial fill of the best order keeps its place |
| OrderbookPriority.AddRefines | include/fiah/structs/Orderbook.hh:143-198 | AddOrder makes the reference's trades and keeps the books in step |
| OrderbookPriority.RunsAgree | include/fiah/structs/Orderbook.hh:125-215 | over every run of AddOrder and CancelOrder from the empty book, trades and book equal those of the reference with arrival stamps |
| OrderbookBalance.MatchTotal | include/fiah/structs/Orderbook.hh:154-189 | total traded size is the smaller of the incoming quantity and the quantity resting anywhere at crossing prices |
| OrderbookBalance.MatchTrades | include/fiah/structs/Orderbook.hh:161-180 | trade k is with the k-th best order, names buyer and seller, is at the seller's level and no more than the buyer's, and fills its order unless it is the last |
| OrderbookBalance.MatchLosses | include/fiah/structs/Orderbook.hh:182-188 | a traded order loses exactly its one trade; all leave but perhaps the last; the others are untouched |
| OrderbookBalance.AddTotal | include/fiah/structs/Orderbook.hh:143-198 | the quantity law for AddOrder on every reachable book |
| OrderbookBalance.RemainderRests | include/fiah/structs/Orderbook.hh:191-196 | the second duplicate check never swallows the unfilled remainder of an accepted order, whatever the book |
| OrderbookBalance.AddThenCancel | include/fiah/structs/Orderbook.hh:143-215 | adding a fresh positive non-crossing order trades nothing and cancelling it restores the book exactly |
| OrderbookBalance.InsertKeepsBook | include/fiah/structs/Orderbook.hh:125-140 | on any sorted book with unique ids insert_order ignores a resting id and otherwise adds exactly the order to its side; sides stay sorted and ids unique |
| OrderbookBalance.RunsStayHealthy | include/fiah/structs/Orderbook.hh:113-215 | after every run both sides are sorted, ids are unique across both, quantities are positive and every bid is below every ask |
| OrderbookBalance.Execute | include/fiah/structs/Orderbook.hh:99-216 | the class, driven through any list of commands from the empty book, ends with the book and trades of the run, its search preconditions always met |
| BumpArena.AlignUp | include/fiah/memory/BumpArena.hh:44 | the aligned address is the least multiple of the alignment not below the pointer |
| BumpArena.GreedyOptimal | include/fiah/memory/BumpArena.hh:39-51 | if any in-order, aligned, non-overlapping placement fits, every allocation succeeds at an address no later |
| BumpArena.GreedySucceedsExactly | include/fiah/memory/BumpArena.hh:39-51 | the arena serves a whole sequence of requests if and only if the sequence can be placed at all |
| BumpArena.GreedyDisjoint | include/fiah/memory/BumpArena.hh:39-51 | blocks handed out in one sequence are in address order and do not overlap, also with refusals in between |
| BumpArena.GreedyInBounds | include/fiah/memory/BumpArena.hh:39-51 | every block handed out is aligned and inside the buffer |
| BumpArena.Arena.Allocate | include/fiah/memory/BumpArena.hh:39-51 | the result is the first fitting aligned address; blocks since the last reset stay aligned, in bounds and disjoint; a null result changes nothing |
| BumpArena.Arena.Reset | include/fiah/memory/BumpArena.hh:68-71 | the arena is as it was when constructed |
| BumpArena.AllocateAll | include/fiah/memory/BumpArena.hh:39-51 | a run of allocations hands out the greedy placement |
| BumpArena.GuardExact | include/fiah/memory/BumpAllocator.hh:90 | the guard refuses exactly the element counts whose byte count does not fit in 64 bits |
| BumpArena.Allocator.Allocate | include/fiah/memory/BumpAllocator.hh:88-97 | traps exactly without an arena, on an overflowing byte count or without room, and then changes nothing; otherwise n elements at the first aligned address that fits, added to the blocks already granted, and the byte count did not wrap |
| Vector.Vector.GrowCapacity | include/fiah/structs/Vector.hh:34-48 | contents are kept; each element is constructed once in the new buffer and destroyed once in the old |
| Vector.Vector.EmplaceBack | include/fiah/structs/Vector.hh:131-136 | the element is appended, with one allocation or one doubling when there is no room |
| Vector.Vector.PopBack | include/fiah/structs/Vector.hh:207-211 | the last element is destroyed and nothing else changes |
| Vector.Vector.Clear | include/fiah/structs/Vector.hh:57-62 | all elements are destroyed and the buffer stays |
| Vector.Vector.Reserve | include/fiah/structs/Vector.hh:175-183 | contents are kept, the capacity is the larger of the old one and the request, and a request already met changes nothing |
| Vector.AmortisedCost | include/fiah/structs/Vector.hh:34-216 | after every run of emplace_back, pop_back and clear the capacity is 0 or a power of two, moves are the capacity less one and fewer than twice the pushes, constructions are pushes plus moves, and constructions less destructions are the size |
| Vector.RunContents | include/fiah/structs/Vector.hh:131-216 | after every run the elements are those of the same commands on a plain sequence |
| Vector.Execute | include/fiah/structs/Vector.hh:131-216 | the class, driven through any legal list of commands, has the capacity and cost of the run and the contents of the plain sequence |
| XorBitant.XorBitant32.Next | include/fiah/utils/XorBitant.hh:36-44 | the state takes one step and the result is the output of the new state |
| XorBitant.StepBijective | include/fiah/utils/XorBitant.hh:38-42 | the state step is a bijection on 64-bit words |
| XorBitant.PurelyPeriodic | include/fiah/utils/XorBitant.hh:36-44 | from every seed the state sequence repeats from its first state, within 2^64 calls |
| XorBitant.NeverZero | include/fiah/utils/XorBitant.hh:36-44 | after any number of calls the state is zero exactly if the seed was |
| XorBitant.DefaultNeverZero | include/fiah/utils/XorBitant.hh:13-44 | a generator made without a seed never reaches the zero state |
| XorBitant.OutputDeterminesLow | include/fiah/utils/XorBitant.hh:43 | two states give the same output exactly when their low 32 bits agree |
| XorBitant.OutputInvertible | include/fiah/utils/XorBitant.hh:43 | the inverse multiplier recovers the low 32 bits of the state from the output |

## Left out

- MPSCQueue.StepKeepsInv: a compare-and-swap that succeeds once the tail is 2^64 or more past the head its capacity test used is outside the runs considered; `LateClaimOverruns` shows that the code needs this bound.
- SPSCQueue.EmptyMeansEmpty: assumes that the two loads see counters less than 2^64 apart, since the code compares words; `FullMeansFull` and `SizeInRange` likewise.
- The queues, the pool and the shared pointers are step machines on values rather than classes, because a method body cannot express interleaving; update in place is one field update per step.
- The full C++ memory model: beyond the out-of-date counter and flag loads described above, steps interleave sequentially consistently; ThreadPool and SharedPtr steps do so entirely.
- Backoff and `_mm_pause` in `try_push`, cache-line layout, exceptions and allocation failure.
- Destruction of the MPSC ring: it has no destructor, so values never popped are never destroyed.
- The worker's unlocked read of `m_tasks.empty()` is taken as one atomic read, although the code makes it without the mutex.
- A capacity of zero, which the SPSC ring's static assertion lets through, and its array-element branch of `pop`.
- ThreadPool.ShutdownTerminates: the mutex and the semaphore are taken to outlive the workers, although they are declared after them and destroyed before the workers join; tasks are taken to terminate.
- Futures, `bind_front` and the results of pool tasks; tasks are opaque values.
- SharedPtr.NoUseAfterFree: callers keep two threads from using one handle object while one of them changes it; handles stored inside managed objects and a count past 2^64 are not covered, nor is the `p_obj` field, which calls assign together with `p_cb`.
- Formatting, time stamps, levels and colours of log records, and the flush to standard output; a record is an opaque value.
- SPSCLogger.Drain: each ring is taken as the bounded FIFO that module SPSCQueue proves it to be, and a snapshot is a prefix of the growing list of queues.
- Orderbook.Orderbook.AddOrder: quantities and prices are unbounded integers; the only arithmetic subtracts a trade size from quantities at least as large, so nothing overflows. Whole-run claims cover AddOrder and CancelOrder, since the public insert_order checks neither crossing nor quantity; `side_` and the stream operator are left out.
- BumpArena.Arena.Allocate: addresses are unbounded, so an alignment that rounds past the top of the address space is not modelled; the buffer is non-null.
- `Vector::resize`, copy and move of whole vectors, `at`, iterators, and pushing an element of the vector's own storage.
- Sockets, Cassandra, configuration, other loggers, timers, math, SpinMutex, ThreadSafeQueue, UniquePtr, Any, the memory copy routines and the TOML parser: foreign calls, text formatting or thin wrappers.
