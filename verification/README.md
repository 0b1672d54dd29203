# A verified model of the C++ utility library

This project models the concurrency protocols and the stateful structures of the
repository, and proves for each of them that it agrees with a much simpler
specification: for every input, every interleaving and every reachable state.
`dafny verify dfyconfig.toml` checks everything.

| files | what they model |
|---|---|
| `WorkStealingQueue.dfy`, `Masks.dfy` | the work-stealing deque: one owner, any number of thieves, one load, store, CAS or buffer access per step |
| `FutexMutex.dfy` | the futex mutex: a three-valued word, byte-wide and word-wide exchanges, and the kernel's set of sleepers |
| `TimerSpec.dfy`, `TimerRuns.dfy`, `FiberTimer.dfy` | the timer manager: a set ordered by deadlines that change, as a specification on values, its runs, and the heap classes |
| `SpscQueue.dfy` | the single-producer single-consumer ring |
| `ThreadPool.dfy` | the Toft thread pool: swapped task lists, exit flags and Terminate |
| `ByteArray.dfy`, `Arith.dfy` | the chunked byte array: linked chunks and a cursor |
| `PoolAllocator.dfy`, `Alignment.dfy` | the slot allocator: blocks, free list inside the free slots, padding in 64-bit arithmetic |
| `BumpPool.dfy` | the bump-pointer memory pool |
| `Hash.dfy`, `Words.dfy` | `murmur3_hash` and `Hash` on 32-bit words |
| `HashBits.dfy`, `WordBits.dfy`, `HashValues.dfy` | both hashes as programs on vectors of 32 bits, their agreement with the model, and published values |
| `Base64.dfy`, `Base64Codecs.dfy` | both base64 codecs against section 4 of RFC 4648 |
| `Itoa.dfy` | `itoa_r` |
| `Strings.dfy` | `replace` and `split` |

## How the code appears here

Concurrent code is a step machine (`State`, `Action`, `Enabled`, `Next`) whose
steps are single shared accesses, with each thread's program counter and local
variables in the state. Theorems quantify over all sequences of enabled actions.
Beside it stands a class with the fields of the original, whose methods make one
access in place and are proved equal to `Next`. Sequential objects are classes
whose methods keep the loops of the original and are proved against a
specification function. Ghost fields (`nodes`, `flat`, `known`, `view`) name what
the real fields stand for, and a validity predicate ties them to those fields.

Assumptions:

- Atomics are sequentially consistent. The counters of the deque do not wrap; the
  ring's indices are reduced modulo its size as in the code.
- The futex word is little-endian, as the constants 1 and 257 require. `futex_wait`
  returns after a wake, spuriously, or with EWOULDBLOCK; that any other error breaks
  exclusion is itself a theorem.
- `futex_wake(1)` wakes some sleeper when there is one; which one is arbitrary.
- Times are 64-bit and wrap, as in the code. Only `NoMissedDeadline`,
  `ReachableStatesMissNothing` and `CallerSleepsSafely` assume a clock that never goes back and deadlines that
  do not overflow; `PromiseExactlyWhenStepsKeep` holds for any clock.
- `ceil` of a quotient of doubles in `addCapacity` is taken as exact, which holds
  for sizes below 2^53. A chunk size of zero is excluded (the code divides by it).
- `operator new` returns fresh memory, apart from all earlier blocks and aligned to
  a word; what it returns is a parameter. Memory of the slot allocator is a map from
  word addresses to words, so that clients can overwrite slots they hold.
- The length of data given to `murmur3_hash` is below 2^31, since the code keeps it
  in an `int`; longer data makes it read before the buffer.
- `isalnum` is that of the "C" locale. The base64 codecs are given octets and strings;
  characters beyond ASCII belong to no alphabet. Data given to `Base64Encoding` is
  shorter than 2^32 octets, and strings given to `Base64Decoding` are shorter than
  2^31 characters, since the code keeps these lengths in an `unsigned int` and an `int`.
- The library's string searches are functions: `find` is `Find`, and `find_first_of`
  is `FindAny`. Strings are shorter than 2^64 - 1 characters.

Where the code does not meet its promise the code is kept, with a lemma that shows
it and one that says exactly when the promise holds: `lock` ignores the error that
`lock_contended` returns (`InterruptBreaksExclusion`, `InterruptExact`,
`InterruptOnFreeLockLeavesItOpen`); `refresh` and the re-arming of recurring timers
in `listExpiredCb` bypass the front check (`ClockSetBackHidesDeadline`,
`RolloverHidesDeadline`, `StepPromiseExact`, `PromiseExactlyWhenStepsKeep`); a task pushed after a worker took its
last batch never runs (`LateTaskIsLost`, `PushedTaskRunsExactly`); `read` at full
capacity dereferences a null cursor when asked for nothing (`Read`); `split` with a
maximum of 0 or 1 splits without limit (`SplitIsExact`).

## Model

| member | source | states |
|---|---|---|
| WorkStealingQueue.NextKeepsInv | src/concurrent/work_stealing_queue.h:66-137 | every single access by the owner or any thief keeps the invariant that a thief whose copy of the top is current points at a queued item and has read it correctly, although slots are reused and pops are half done |
| WorkStealingQueue.OwnerStepKeepsThief | src/concurrent/work_stealing_queue.h:82-134 | the owner overwrites the slot a thief has read only when that thief's CAS is bound to fail |
| WorkStealingQueue.StepRefines | src/concurrent/work_stealing_queue.h:66-137 | each access is exactly one operation of a bounded deque, or none: push at the back only below capacity, refusal exactly when full, pop of the back, refusal exactly when empty, steal of the front at the successful CAS |
| WorkStealingQueue.RunRefines | src/concurrent/work_stealing_queue.h:66-137 | every interleaving of one owner and any thieves is a legal history of the bounded deque, ending in the deque the machine holds |
| WorkStealingQueue.RunReturns | src/concurrent/work_stealing_queue.h:66-137 | owner and thieves are handed exactly the results of that history, in its order, up to one pop result still on its way |
| WorkStealingQueue.Conservation | src/concurrent/work_stealing_queue.h:66-137 | for every item and every run: times pushed equal times popped plus stolen plus queued plus about to be returned by a decided pop |
| WorkStealingQueue.DequeConserves | src/concurrent/work_stealing_queue.h:62-65 | the reference deque itself neither loses nor duplicates items |
| WorkStealingQueue.StealMisses | src/concurrent/work_stealing_queue.h:122-133 | a steal that reports nothing met an empty queue or a single item that the owner was already popping |
| WorkStealingQueue.StealEnds | src/concurrent/work_stealing_queue.h:121-137 | from every reachable state a thief left to itself returns after at most seven accesses, so a lost CAS is never retried with a stale top: with the front item exactly when one lies above the bottom or the thief had passed its checks with the current top, and with nothing otherwise |
| WorkStealingQueue.OwnerEnds | src/concurrent/work_stealing_queue.h:66-116 | from every reachable state a push or pop under way ends after at most six accesses of the owner, with the result that its state has decided |
| WorkStealingQueue.StealAlone | src/concurrent/work_stealing_queue.h:121-137 | undisturbed, a steal takes at most four accesses and returns the front item, or nothing exactly when none lies above the bottom |
| WorkStealingQueue.PushAlone | src/concurrent/work_stealing_queue.h:66-85 | undisturbed, a push takes at most three accesses and succeeds exactly below capacity |
| WorkStealingQueue.PopAlone | src/concurrent/work_stealing_queue.h:91-116 | undisturbed, a pop takes at most six accesses and returns the back item, or nothing exactly from an empty deque |
| WorkStealingQueue.Queue.Init | src/concurrent/work_stealing_queue.h:38-60 | succeeds exactly on an uninitialised queue with a non-zero capacity that passes the mask test when memory is found; otherwise changes nothing |
| WorkStealingQueue.Queue.StepPush | src/concurrent/work_stealing_queue.h:66-85 | the accesses of push on the fields in place are the machine's steps, with their results |
| WorkStealingQueue.Queue.StepPop | src/concurrent/work_stealing_queue.h:91-116 | the accesses of pop on the fields in place are the machine's steps, with their results |
| WorkStealingQueue.Queue.StepThief | src/concurrent/work_stealing_queue.h:121-137 | the accesses of steal on the fields in place are the machine's steps, with their results; by StealEnds these retry with the top as reloaded |
| Masks.TestAcceptsPowersOfTwo | src/concurrent/work_stealing_queue.h:47-51 | the test of init accepts exactly the powers of two |
| Masks.MaskIsPeriodic | src/concurrent/work_stealing_queue.h:72-82 | for an accepted capacity the masked index is the identity below it and repeats with its period |
| Masks.SlotsDiffer | src/concurrent/work_stealing_queue.h:69-82 | indices less than one capacity apart use different slots |
| FutexMutex.NextKeepsInv | src/concurrent/mutex.cc:24-54 | every exchange and futex call of any thread keeps mutual exclusion, a word in 0, 1, 257 that is 0 exactly when nobody owns the lock, and that sleepers are covered by the word 257 or by a thread bound to exchange or wake |
| FutexMutex.RunKeepsInv | src/concurrent/mutex.cc:24-54 | the same in every state of every run of any number of threads |
| FutexMutex.InterruptExact | src/concurrent/mutex.cc:26-39 | a sleeper whose futex_wait fails with another error becomes a second owner if and only if the word is not 0 at that moment |
| FutexMutex.InterruptOnFreeLockLeavesItOpen | src/concurrent/mutex.cc:35-45 | with the word 0 that failure leaves a state in which any other thread's try_lock makes two owners |
| FutexMutex.InterruptOnFreeLockUndone | src/concurrent/mutex.cc:35-54 | unless the thread so deceived unlocks first, which restores the whole invariant |
| FutexMutex.ExclusionExactlyWithoutInterrupts | src/concurrent/mutex.cc:26-39 | as a corollary, all runs of an environment exclude if and only if it never makes futex_wait fail that way |
| FutexMutex.InterruptBreaksExclusion | src/concurrent/mutex.cc:35-40 | a run with two owners, because lock drops the error of lock_contended |
| FutexMutex.RunSerial | src/concurrent/mutex.cc:24-54 | acquisitions and releases alternate in every run, each release by the thread that acquired |
| FutexMutex.TryLockExact | src/concurrent/mutex.cc:42-45 | try_lock succeeds exactly when nobody owns the lock at its exchange |
| FutexMutex.NeverStuck | src/concurrent/mutex.cc:24-54 | while anyone sleeps some thread that is awake can take a step |
| FutexMutex.FreeLockIsHandedOver | src/concurrent/mutex.cc:24-54 | with the lock free and someone asleep, at most two steps of threads already inside lock or unlock give it to one of them |
| FutexMutex.LockEnds | src/concurrent/mutex.cc:24-40 | from every reachable state a thread inside lock has it after at most two of its steps if nobody owns it, and otherwise is asleep after at most three, with the word that makes the owner wake somebody |
| FutexMutex.UnlockEnds | src/concurrent/mutex.cc:47-54 | unlock ends after its exchange, and after one wake exactly when the word was 257; nobody owns the lock then, and the sleeper chosen is back inside lock |
| FutexMutex.FastPthreadMutex.Continue | src/concurrent/mutex.cc:24-54 | the byte and word exchanges on the field in place are the machine's steps |
| FutexMutex.FastPthreadMutex.FutexWake | src/concurrent/mutex.cc:47-54 | the wake at the end of unlock is the machine's step |
| TimerSpec.LowerBoundUnique | src/fiber/fiber_timer.cc:5-22 | in a set sorted by deadline and address there is one insertion point |
| TimerSpec.FoundIsMember | src/fiber/fiber_timer.cc:42-43 | the ordered lookup finds a timer if and only if it is in the set |
| TimerSpec.InsertAdds | src/fiber/fiber_timer.cc:165 | insertion keeps the set sorted and adds exactly the timer |
| TimerSpec.InsertFirst | src/fiber/fiber_timer.cc:165-166 | the timer lands at the front if and only if it sorts before every other |
| TimerSpec.AddToSetAdds | src/fiber/fiber_timer.cc:164-169 | the flag is up afterwards unless another queued timer is due no later |
| TimerSpec.RolloverExact | src/fiber/fiber_timer.cc:190-198 | with the wrapping subtraction a rollover is a clock set back by more than an hour, and during the first hour of the clock any step back |
| TimerSpec.EraseRemoves | src/fiber/fiber_timer.cc:42-45 | erasure keeps the set sorted and removes exactly the timer |
| TimerSpec.DueExact | src/fiber/fiber_timer.cc:130-138 | without rollover the timers taken are those whose deadline has come, whatever the address of the search key |
| TimerSpec.RearmEffect | src/fiber/fiber_timer.cc:145-153 | the loop over expired timers visits each once, keeps the set sorted while deadlines change, re-inserts exactly the recurring ones and strips the others of their callback |
| TimerSpec.ListExpiredExact | src/fiber/fiber_timer.cc:121-154 | the fired timers are exactly the due ones in deadline order; each is collected and every other timer is unchanged; the set keeps those not due and the recurring ones |
| TimerSpec.RolloverTakesAll | src/fiber/fiber_timer.cc:129-138 | after a detected rollover every queued timer is taken |
| TimerSpec.GetNextExact | src/fiber/fiber_timer.cc:100-114 | the value returned is the largest number without timers, 0 exactly when some timer is due, and otherwise the time from now to the earliest deadline |
| TimerRuns.NextKeepsInv | src/fiber/fiber_timer.cc:38-90 | every operation keeps the set sorted, although deadlines are changed by refresh, reset and re-arming |
| TimerRuns.CancelEffect | src/fiber/fiber_timer.cc:38-49 | cancel succeeds exactly with a callback, then removes the timer and its callback and nothing else, and otherwise changes nothing |
| TimerRuns.RefreshEffect | src/fiber/fiber_timer.cc:51-64 | refresh succeeds exactly with a callback, changes one deadline and keeps the members and the flag |
| TimerRuns.ResetEffect | src/fiber/fiber_timer.cc:67-90 | reset reports success exactly when nothing is to change or the timer has a callback; it acts exactly in the second case, changing one period and deadline and raising the flag unless another timer is due no later |
| TimerRuns.ResetDeadline | src/fiber/fiber_timer.cc:67-90 | where reset acts, the new deadline is now plus the new period, or the old deadline moved by the difference of the periods, modulo 2^64 |
| TimerRuns.AddEffect | src/fiber/fiber_timer.cc:163-182 | adding a timer adds exactly it and raises the flag unless another timer is due no later |
| TimerRuns.CancelIsFinal | src/fiber/fiber_timer.cc:38-49 | after a cancel that reported success the timer fires in no continuation |
| TimerRuns.OneShotFiresOnce | src/fiber/fiber_timer.cc:145-153 | over every run a timer that is not recurring fires at most once |
| TimerRuns.HandedIsItsOwn | src/fiber/fiber_timer.cc:145-153 | over every run each callback handed out for a timer is the one it was given: none is lost, exchanged or nulled on its way out |
| TimerRuns.OneShotHandedOnce | src/fiber/fiber_timer.cc:145-153 | over every run the callback of a timer that is not recurring is handed out at most once, and it is that callback |
| TimerRuns.CancelledHandsNothing | src/fiber/fiber_timer.cc:38-49 | after a cancel that reported success no callback is ever handed out for the timer |
| TimerRuns.NoNullHanded | src/fiber/fiber_timer.cc:145-153 | over every run in which timers are added with callbacks, no null callback is handed out |
| TimerRuns.NoMissedDeadline | src/fiber/fiber_timer.cc:100-114 | in every reachable state the flag is up or no queued deadline is before the one that the last return value of getNextTimer told the caller, across add, cancel, refresh, reset and re-arming |
| TimerRuns.ReachableStatesMissNothing | src/fiber/fiber_timer.cc:92-114 | the same for every run of a manager just constructed |
| TimerRuns.CallerSleepsSafely | src/fiber/fiber_timer.cc:100-114 | a caller told to wait w at time now may sleep until now + w: as long as it does not ask again, the flag goes up or no queued timer is due before that |
| TimerRuns.StepPromiseExact | src/fiber/fiber_timer.cc:38-182 | for every operation and any clock, overflow and rollover included: the report stays true if and only if the flag is up, or no refresh and no re-armed recurring timer sets a deadline before the one reported |
| TimerRuns.PromiseExactlyWhenStepsKeep | src/fiber/fiber_timer.cc:38-182 | over whole runs with any clock the promise holds after every operation if and only if every step meets that condition |
| TimerRuns.ReachablePromiseExact | src/fiber/fiber_timer.cc:38-182 | the same from construction on |
| TimerRuns.RefreshExact | src/fiber/fiber_timer.cc:51-64 | with any clock, refresh keeps that promise if and only if the new deadline is not before the reported one |
| TimerRuns.ClockSetBackHidesDeadline | src/fiber/fiber_timer.cc:60-62 | a run from construction in which a clock set back before a refresh breaks it |
| TimerRuns.RolloverHidesDeadline | src/fiber/fiber_timer.cc:129-150 | a run from construction without any refresh in which a rollover breaks it, through a recurring timer |
| TimerRuns.NotifiesRaisesFlag | src/fiber/fiber_timer.cc:164-175 | the front callback is called exactly when the flag goes up, and only getNextTimer lowers it |
| TimerRuns.NotifiedAtMostOnce | src/fiber/fiber_timer.cc:164-175 | between two calls of getNextTimer the front callback is called at most once |
| FiberTimers.FiberTimer.Cancel | src/fiber/fiber_timer.cc:38-49 | the method on shared timer objects has exactly the specified effect and result |
| FiberTimers.FiberTimer.Refresh | src/fiber/fiber_timer.cc:51-64 | the same for refresh |
| FiberTimers.FiberTimer.Reset | src/fiber/fiber_timer.cc:67-90 | the same for reset, with the front callback called exactly when the specification says so |
| FiberTimers.FiberTimerManager.AddTimer | src/fiber/fiber_timer.cc:163-182 | the same for addTimer, with the front callback called exactly when the specification says so |
| FiberTimers.FiberTimerManager.GetNextTimer | src/fiber/fiber_timer.cc:100-114 | the method has the specified effect, and returns the largest number without timers, 0 exactly when a queued timer is due, and otherwise the time to the earliest queued deadline |
| FiberTimers.FiberTimerManager.ListExpiredCb | src/fiber/fiber_timer.cc:121-154 | the callbacks appended are those that the timers taken had before the call, in deadline order; taken are the timers due, or all after a rollover; recurring ones are due again one period from now, the others lose their callback |
| FiberTimers.FiberTimerManager.DetectClockRollover | src/fiber/fiber_timer.cc:190-198 | reports a rollover exactly for a clock set back by more than an hour, or by anything during the clock's first hour, and records the reading |
| SpscQueue.StepRefines | src/concurrent/lockfree_queue_impl.h:7-48 | each access acts on a FIFO as its result says: a push adds at the back below N-1 items, a failed push saw N-1, a pop takes the front, a failed pop saw none |
| SpscQueue.RunIsFifo | src/concurrent/lockfree_queue_impl.h:7-48 | in every interleaving, what was queued plus what was pushed is what was popped plus what is queued, in order |
| SpscQueue.SlotsExclusive | src/concurrent/lockfree_queue_impl.h:24-40 | the slot being written is never the slot being read |
| SpscQueue.WaitFree | src/concurrent/lockfree_queue_impl.h:7-48 | in every interleaving at most three accesses end a push and at most three end a pop, whatever the other side does |
| SpscQueue.PushAlone | src/concurrent/lockfree_queue_impl.h:7-28 | undisturbed, a push adds its item at the back exactly below N-1 items |
| SpscQueue.PopAlone | src/concurrent/lockfree_queue_impl.h:31-48 | undisturbed, a pop takes the front item exactly when there is one |
| SpscQueue.Ring.StepPush | src/concurrent/lockfree_queue_impl.h:7-28 | the accesses of push on the array in place are the machine's steps |
| SpscQueue.Ring.StepPop | src/concurrent/lockfree_queue_impl.h:31-48 | the accesses of pop on the array in place are the machine's steps |
| ThreadPool.RunIsFifo | src/concurrent/thread_pool.cc:74-99 | on every list, in every interleaving, held plus pushed equals executed plus held: each task at most once, in push order |
| ThreadPool.TerminateDrains | src/concurrent/thread_pool.cc:137-153 | when Terminate passes its wait, every worker has left its loop, every task pushed to a worker before it was marked has run, and what ran there is a prefix of what was pushed |
| ThreadPool.LeavesNothingDue | src/concurrent/thread_pool.cc:83-99 | a worker that has left has run all it was bound to run, from any state on |
| ThreadPool.DrainNeverStuck | src/concurrent/thread_pool.cc:137-146 | while Terminate waits some worker can step |
| ThreadPool.DrainStepCounts | src/concurrent/thread_pool.cc:74-99 | while Terminate waits, every step of any worker brings the wait one step nearer to its end |
| ThreadPool.TerminateEnds | src/concurrent/thread_pool.cc:137-153 | with no further push the wait ends after exactly as many worker steps as are left |
| ThreadPool.NextKeepsInv | src/concurrent/thread_pool.cc:74-177 | the busy count is the number of workers that have not left, and exit flags are set in the order of Terminate, in every reachable state |
| ThreadPool.PushGoesByKey | src/concurrent/thread_pool.cc:159-177 | a push appends its task to exactly one list, whose number is congruent to the dispatch key modulo the number of workers, and changes nothing else |
| ThreadPool.SelectsOne | src/concurrent/thread_pool.cc:159-177 | every key selects one list, a key below the number of workers its own, and two keys share a list if and only if they differ by a multiple of that number |
| ThreadPool.LastBatchTakenReachable | src/concurrent/thread_pool.cc:159-167 | a push can still be under way after its worker took the last batch |
| ThreadPool.PushedTaskRunsExactly | src/concurrent/thread_pool.cc:159-177 | when Terminate passes its wait, a pushed task and all before it on its list have run if and only if its worker had not swapped its lists for the last time at the push |
| ThreadPool.LateTaskIsLost | src/concurrent/thread_pool.cc:74-99 | such a task is pushed and never runs, yet Terminate finishes |
| ThreadPool.ToftThreadPool.GetPendingTask | src/concurrent/thread_pool.cc:74-81 | the swap of the lists in place is the machine's step |
| ThreadPool.ToftThreadPool.EndAdd | src/concurrent/thread_pool.cc:159-177 | the push in place appends the task to the list its key selects and leaves the others alone |
| ThreadPool.ToftThreadPool.StepTerminate | src/concurrent/thread_pool.cc:137-146 | the steps of Terminate in place are the machine's steps |
| ByteArrays.ByteArray.Write | src/utils/bytearray.cc:88-121 | the flat contents hold the data at the old position and are otherwise unchanged; position and size are as promised, and the capacity is unchanged or the least sum of itself and a multiple of the chunk size with room |
| ByteArrays.ByteArray.Read | src/utils/bytearray.cc:123-150 | returns exactly the flat slice and advances, throws exactly beyond the written size, and dereferences null exactly for an empty read at full capacity |
| ByteArrays.ByteArray.WriteThenRead | src/utils/bytearray.cc:88-150 | data written and read back from the same position is unchanged, however it was split over chunks |
| ByteArrays.ByteArray.AddCapacity | src/utils/bytearray.cc:58-86 | afterwards the data fits, the contents so far are unchanged, the capacity is unchanged or the least sum of itself and a multiple of the chunk size with room, and the cursor is valid again |
| ByteArrays.ByteArray.CursorIsQuotient | src/utils/bytearray.cc:94-95 | the cursor is chunk number position / baseSize, null exactly at capacity, and capacity is the number of chunks times baseSize |
| ByteArrays.SpliceInChunk | src/utils/bytearray.cc:98-117 | a memcpy into one chunk is a write at its place of the flat sequence and leaves all other chunks alone |
| ByteArrays.SpliceReadsBack | src/utils/bytearray.cc:88-121 | the written range reads back and every byte outside it keeps its value |
| Arith.CeilIsLeast | src/utils/bytearray.cc:67-68 | the rounded-up quotient is the least number of chunks with room |
| Alignment.PadIsExact | src/utils/memory_pool_lite.cc:4-10 | for every power-of-two alignment the wrapping difference gives the least padding that reaches a multiple |
| PoolAllocator.BlockHasRoom | src/utils/memory_pool_lite.cc:60-75 | header, padding and one slot fit into every block, thanks to the assertion on the block size |
| PoolAllocator.CarveKeepsInv | src/utils/memory_pool_lite.cc:84-86 | when the test against lastSlot passes the slot lies inside the block and is new |
| PoolAllocator.AllocateKeepsInv | src/utils/memory_pool_lite.cc:79-88 | the slot returned was not handed out, the slot freed last is reused first, and a new block is taken exactly when no further slot fits |
| PoolAllocator.RunsAreSafe | src/utils/memory_pool_lite.cc:60-97 | after every run of allocations, deallocations and client writes the live slots are disjoint, aligned, inside one block past its header, and apart from a free list without repetition; live and free slots together are all ever carved |
| PoolAllocator.MemoryPoolLiteAllocator.Allocate | src/utils/memory_pool_lite.cc:79-88 | the fields and memory change as specified and the invariant is kept |
| PoolAllocator.MemoryPoolLiteAllocator.Deallocate | src/utils/memory_pool_lite.cc:92-97 | the link is written into the freed slot and the invariant is kept; null does nothing |
| PoolAllocator.MemoryPoolLiteAllocator.Destroy | src/utils/memory_pool_lite.cc:49-56 | the destructor deletes exactly the blocks obtained, each once |
| BumpPool.NewKeepsInv | src/utils/memory_pool_lite.h:51-83 | every request keeps regions and blocks disjoint and the accounting right; an oversized block leaves the old remainder current |
| BumpPool.ServedExactly | src/utils/memory_pool_lite.h:51-83 | a request is cut from the front of a remainder that has room; any other gets a block of the larger of 65536 and its size, memory grows by that, and only a block larger than the request leaves a new remainder |
| BumpPool.RegionsNeverOverlap | src/utils/memory_pool_lite.h:51-83 | for all request sizes: every region ever returned has its size, lies in one block and overlaps no other; memory equals the base plus the block sizes |
| BumpPool.MemoryPoolLiteImpl.New | src/utils/memory_pool_lite.h:51-62 | the fields and the result change in place as ServedExactly describes, including the case of a null pointer |
| BumpPool.MemoryPoolLiteImpl.PoolUsage | src/utils/memory_pool_lite.h:64-66 | the usage is the pool object, all block sizes and one pointer for each block |
| Words.ShakeInjective | src/utils/hash.h:12-22 | a right shift mixed in by exclusive or loses nothing, for every distance |
| Words.MulInjective | src/utils/hash.cc:20-27 | multiplication modulo 2^32 by a constant with an inverse loses nothing |
| Words.RotlInjective | src/utils/hash.h:10 | a rotation loses nothing |
| Hashes.Fmix32Injective | src/utils/hash.h:12-22 | two words have the same final mix if and only if they are equal |
| Hashes.RoundsPermute | src/utils/hash.cc:17-46 | every round and tail step of both hashes permutes hash words for fixed data and data words for a fixed hash |
| Hashes.MurmurSeedInjective | src/utils/hash.cc:5-47 | for data of any length murmur3_hash is injective in the seed if and only if the data is not null |
| Hashes.HashSeedInjective | src/utils/hash.cc:506-536 | for data of any length two seeds give the same Hash if and only if they are equal |
| Hashes.MurmurNeverCollides | src/utils/hash.cc:17-46 | inputs of one length that differ only inside one block, or only in the tail, never collide |
| Hashes.HashNeverCollides | src/utils/hash.cc:513-534 | the same for Hash |
| HashBits.SumsAreMachine | src/utils/hash.cc:20-27 | for all words the sum modulo 2^32 is addition of 32-bit vectors |
| HashBits.ProductsAreMachine | src/utils/hash.cc:20-27 | for all words the product modulo 2^32 is multiplication of 32-bit vectors |
| HashBits.MixesAreMachine | src/utils/hash.cc:20-27 | for all words the mix is bitwise exclusive or |
| HashBits.RotationsAreMachine | src/utils/hash.h:10 | for all words the rotations by 13 and 15 are two shifts joined by bitwise or |
| HashBits.ShakesAreMachine | src/utils/hash.h:12-22 | for all words and the distances 13, 16 and 24 the shake is exclusive or with a right shift |
| HashBits.LoadsAreMachine | src/utils/encoding.h:43-51 | for all bytes the load is four bytes shifted and joined by bitwise or |
| HashBits.MurmurIsMachine | src/utils/hash.cc:5-47 | for every input murmur3_hash is the program of 32-bit instructions that the code spells out |
| HashBits.HashIsMachine | src/utils/hash.cc:506-536 | for every input Hash is its program of 32-bit instructions |
| WordBits.BitsInjective | src/utils/hash.h:12-22 | the vector of a word determines the word, so that agreement of vectors is agreement of hashes |
| HashValues.MurmurOfEmpty | src/utils/hash.h:12-22 | no bytes with seed 1 hash to 0x514e28b7 |
| HashValues.MurmurOfTest | src/utils/hash.cc:5-47 | "test" with seed 0 hashes to 0xba6bd213 |
| HashValues.MurmurOfA | src/utils/hash.cc:29-46 | "a" with seed 0x9747b28c hashes to 0x7fa09ea6 |
| HashValues.MurmurOfAA | src/utils/hash.cc:29-46 | "aa" with seed 0x9747b28c hashes to 0x5d211726 |
| HashValues.MurmurOfAAA | src/utils/hash.cc:29-46 | "aaa" with seed 0x9747b28c hashes to 0x283e0130 |
| HashValues.MurmurOfGreeting | src/utils/hash.cc:5-47 | "Hello, world!" with seed 0 hashes to 0xc0363e43 |
| HashValues.HashOfOne | src/utils/hash.cc:521-534 | the one byte 0x62 with seed 0xbc9f1d34 has the Hash 0xef1345c4 |
| HashValues.HashOfTwo | src/utils/hash.cc:521-534 | the two bytes c3 97 have the Hash 0x5b663814 |
| HashValues.HashOfThree | src/utils/hash.cc:521-534 | the three bytes e2 99 a5 have the Hash 0x323c078f |
| HashValues.HashOfFour | src/utils/hash.cc:506-520 | the four bytes e1 80 b9 32 have the Hash 0xed21633a |
| Hashes.Murmur3Hash | src/utils/hash.cc:5-47 | the block loop and the fall-through switch compute the specified fold |
| Hashes.Hash | src/utils/hash.cc:506-536 | the pointer loop and the fall-through switch compute the specified fold |
| Words.LoadInjective | src/utils/encoding.h:43-51 | the little-endian load of four bytes is injective |
| Base64.DecodeInvertsEncode | src/utils/hash.cc:131-237 | the strict reading inverts the encoding of every byte sequence |
| Base64.LenientInvertsEncode | src/utils/encoding.cc:40-78 | so does the lenient reading |
| Base64.ReadingsAgree | src/utils/encoding.cc:40-78 | the lenient reading agrees with the strict one on every string that the strict one accepts |
| Base64.LenientExact | src/utils/encoding.cc:40-78 | on every string the lenient reading is that of its longest prefix in the alphabet, which completed with padding is read strictly; what follows the prefix and a single leftover character add nothing |
| Base64.ReencodesExactly | src/utils/hash.cc:131-186 | an accepted string is the encoding of its value if and only if its discarded bits are zero (section 3.5 of RFC 4648) |
| Base64.SextetsAreSlices | src/utils/hash.cc:200-222 | the four digits are the slices of the 24-bit group of three octets |
| Base64.TableIsDigits | src/utils/encoding.h:5-7 | the table of both encoders is table 1 of RFC 4648 |
| Base64Codecs.Base64Encoding | src/utils/encoding.cc:3-37 | computes the reference encoding of every byte sequence |
| Base64Codecs.Base64Encode | src/utils/hash.cc:192-237 | computes the same string |
| Base64Codecs.Base64Decoding | src/utils/encoding.cc:40-78 | computes the lenient reading of every string, whatever the scratch arrays held |
| Base64Codecs.Base64Decode | src/utils/hash.cc:131-186 | computes the strict reading of every string, and nothing for refused ones |
| Base64Codecs.ScanIsQuantum | src/utils/hash.cc:139-177 | the inner loop and its three checks accept exactly the well-formed quanta and give their octets |
| Base64Codecs.FindIsValue | src/utils/encoding.cc:53 | the search in the table gives the value of a character |
| Itoa.ItoaR | src/utils/stack_trace.cc:37-95 | succeeds exactly when sign, digits, padding and NUL fit into sz; then the buffer holds the text and its NUL; it never changes a byte from sz on, and failure leaves an empty string |
| Itoa.TextReadsBack | src/utils/stack_trace.cc:37-95 | in base 10 the text read back with its sign is the number, in other bases the number below 2^64 congruent to it; it has the larger of one, the significant digits and the padding many digits |
| Itoa.SignificantIsLeast | src/utils/stack_trace.cc:65-79 | the number of significant digits is the least whose power of the base exceeds the number |
| Itoa.WriteDigits | src/utils/stack_trace.cc:64-79 | the do-while loop ends, also with padding, and writes exactly the digits when they fit |
| Itoa.Reverse | src/utils/stack_trace.cc:84-92 | the last loop turns the range around in place and changes nothing else |
| Strings.Replace | src/utils/str_utils.cc:46-54 | terminates with the leftmost non-overlapping substitution, also when the replacement contains the text sought |
| Strings.ReplaceChar | src/utils/str_utils.cc:36-44 | equals the substitution of the one-character string |
| Strings.ReplaceCharByChar | src/utils/str_utils.cc:26-34 | equals the same substitution, and maps the string character by character |
| Strings.SubstFirst | src/utils/str_utils.cc:46-54 | substitution is the text up to the first occurrence, the replacement, and the substitution of the rest |
| Strings.Split | src/utils/str_utils.cc:56-93 | both overloads, with the wrapping decrement of the maximum, return the specified pieces |
| Strings.SplitIsExact | src/utils/str_utils.cc:56-74 | at least two: the smaller of the maximum and occurrences plus one pieces; zero or one: all pieces; they join back to the string and only the last can hold a delimiter |
| Strings.SplitRebuilds | src/utils/str_utils.cc:56-93 | for every set of delimiters and every maximum, pieces are those that split returns if and only if their number is right, delimiters between them rebuild the string, and none but the last holds a delimiter |
| Strings.PiecesAreClean | src/utils/str_utils.cc:56-93 | no piece but the last holds a delimiter, and the last one only when the cuts ran out |
| Strings.ReplaceIsJoinOfSplit | src/utils/str_utils.cc:36-74 | replacing a character by a string is joining the split pieces with it if and only if the maximum leaves no occurrence uncut or the character replaces itself |

## Left out

- Weak memory: the acquire, release and fence orders of the atomics are not modelled.
- Wrap-around of the 64-bit counters of the deque.
- MpmcLockFreeQueue: its own header warns of problems, and there is no true property to refine.
- ByteArrays.ByteArray.SetPosition: the body of setPosition is not part of the repository; the method does what its declaration promises.
- ByteArray::clear and the many methods of bytearray.h that are declared without a body.
- MemoryPoolLiteAllocator: move construction and assignment, rebind, construct and destroy, and requests for more than one slot.
- ToftThreadPool::WaitForIdle, whose exit test is inverted, SimpleThreadPool, which drops its queue on stop, and a push that races with the deletion of the contexts at the end of Terminate.
- The pool's worker count is set after the threads start; a worker that leaves before that is not modelled.
- FiberTimer comparisons with null pointers, the type-erased condition timer, and hasTimer.
- Itoa.ItoaR: excludes the least integer in base 10, whose negation overflows in the code.
- Strings.Replace: excludes an empty text to find, for which the loop of the code need not end.
- murmur3_hash on C strings and string views, murmur3_hash64, quick_hash, the hex, MD5, SHA and HMAC functions.
- RingBuffer, Array, uint128, StartWithPrefix, RemovePrefix and JsonUtil::Escape: the code does not do what the names promise.
- Fibers and uthread, which rest on ucontext; logging, YAML, JSON, files, /proc and pthread wrappers: foreign calls and I/O.
