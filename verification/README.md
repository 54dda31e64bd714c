# Verified model of a teaching kernel

This project models the algorithmic core of a small x86 kernel and its user thread library, and
proves what that core promises. Six parts:

1. **64-bit division** (`Bits`, `Digits`, `DivisionSpec`, `QDivRem`): Knuth's Algorithm D in base
   2^16 on in-place digit arrays, with the wrapping 32-bit borrows of the code. The result is exactly
   the quotient and remainder, on every path.
2. **The LMM allocator, malloc and the boot memory map** (`Align`, `FreeList`, `LinkedNodes`, `Pool`,
   `LmmRanges`, `LmmFit`, `Lmm`, `LmmRuns`, `Malloc`, `HeapRuns`, `BootMap`): a linked, address-ordered,
   coalescing free list in memory, tied to a canonical list of blocks. Allocation is sound and complete
   exactly when no 32-bit sum misleads it, freeing undoes it exactly, and over every run live blocks stay
   apart, no byte is lost and the size words in front of the blocks are never overwritten.
3. **User synchronisation** (`SemaphoreProtocol`, `SemaphoreSystem`, `SemaphoreProgress`, `RwLock`,
   `RwLockProgress`): step systems with any number of threads, in which counters are loaded and stored in
   separate steps. The semaphore built from spinlocks, a mutex and a condition variable refines an atomic
   one, loses no wake-up and is never stuck while there is a count; the reader/writer lock over atomic
   semaphores is safe, and the exact states in which it is stuck are known.
4. **Quicksort** (`QSort`): Bentley and McIlroy's in-place sort for any total preorder.
5. **Virtual memory** (`Frames`, `PageTables`, `Vm`, `UserPages`, `Fork`): frame allocator, two-level
   page tables, page ranges, the new_pages and remove_pages calls, and fork's copy.
6. **Random numbers and number formatting** (`MersenneTwister`, `Numerals`, `Format`, `Strtoul`,
   `Sprintf`): an in-place block generator equal to an infinite recurrence, and a printer and parser
   that undo each other.

Code that changes things in place is modelled by classes, arrays and loops, each method proved
against a specification; the concurrent code is modelled as atomic steps of threads with program
counters. Machine words are natural numbers below 2^32 with wrap-around written out (`Bits.W32`), or
bit-vectors where bits matter (`MersenneTwister`).

Parameters stand for what lies outside: the holes of the boot memory map, the number of frames the
machine reports, the pages that memalign will return with what happens to be in them (`Vm.Chunk`), the
comparison given to the sort, and the text that the formatter hands to its character sink.

Results that contradict the code's comments or a reader's expectation:

- Priorities of memory regions are unsigned, so the negative constants come out highest: memory below
  16 MB is used first and high memory last, the opposite of the comment at
  410kern/boot/util_lmm.c:36-44 (`BootMap.AddBootRegions`).
- `lmm_add_free` asserts something that fails exactly on a block strictly inside one 8-byte granule
  (`BootMap.RejectedBlocks`); for some holes the boot scan always hands out such a block
  (`BootMap.TinyGap`).
- The fit test of `lmm_alloc_gen` adds modulo 2^32. It is right if and only if the sum does not wrap
  (`LmmFit.FitTestExact`), and the answer of the whole search is right if and only if the block it
  settles on is not one that passed by wrapping (`LmmFit.SearchExact`). That is what the contract of
  `Lmm.Lmm.AllocGen` asks for. A request for 32 bytes in the last 16 of the address space is an input
  that fails (`LmmFit.WrappedFit`); a request without a window whose size plus alignment is at most 2^32
  never does (`LmmFit.ServesAligned`).
- `lmm_alloc` rounds the last seven sizes to 0 and then returns a block that stays free, where the right
  answer is that none is large enough (`Lmm.Lmm.Alloc`). `malloc` then writes its size word over the
  first record of a free list, which no longer holds together: of the seven sizes from 0xfffffff5 on, every
  one that finds a block breaks the pool, and no other size does. `malloc` of the last three sizes returns
  a block shorter than asked for (`Malloc.Heap.Malloc`).
- `lmm_remove_free` asserts that what it finds is not below where it looked. For a block that starts in the
  last seven bytes of the address space the search wraps to 0, and the assertion holds if and only if the
  pool is empty (`Lmm.FoundAfter`).
- `rwlock_unlock` by a writer never gives back the semaphore `w`. In every run `w` is lost if and only if
  some writer has unlocked before (`RwLock.LostExactly`), and from then on no thread is ever inside again
  in either mode (`RwLock.NeverInsideAgain`). A single thread that locks and unlocks once gets there
  (`RwLock.WriteOnceIsStuck`).
- Before that, the lock can still deadlock: a writer inside that begins to unlock or to downgrade waits for
  `wcnt_mutex`, which a writer that arrived meanwhile holds while it waits for `r`. In every run in which no
  writer has unlocked, whenever threads are in the middle of an operation, nobody is inside and none of them
  can move, two such writers exist (`RwLockProgress.RunFrozen`); they never move again, and no other thread
  is ever inside again (`RwLockProgress.DeadlockForever`). Any two threads can get there
  (`RwLockProgress.DeadlockArises`).
- strtoul with base 0 reads decimal fields that were filled with zeros in base 8: they come back if and only
  if the number is below 8 (`Strtoul.ZeroFilledTrap`).
- `acquire_free_frame` leaves its cursor on a free frame exactly when there is another free frame above
  it (`Frames.AcquireKeeps`), so n frames can be acquired if and only if n + 1 are free from the cursor on
  (`Frames.ServesExactly`). free_frame_num does not tell: a run ends with free_frame_num 3 and room for only
  one more acquisition, so a request of new_pages for two pages is accepted and cannot be completed
  (`Frames.FreeCountMisleads`).
- `sys_new_pages` accepts length 0 although its comment says positive. After such a request, a real one
  for the same address and a removal, the page is still mapped (`UserPages.EmptyRecordHides`), and such
  runs exist (`UserPages.EmptyRecordArises`). Removal undoes a request if and only if its address had no
  record before (`UserPages.RemoveUndoesNew`).
- `vsnprintf` with size 0 has no limit (`Sprintf.VSnprintf`).
- The 32-byte digit buffer of print_num is large enough exactly for numbers below base^32
  (`Numerals.DigitsFit`), which holds for every 32-bit number in every base (`Format.WordsFit`) and for
  every 64-bit one in exactly the bases from 4 on (`Format.LongWordsFit`).

## Model

| member | source | states |
|---|---|---|
| QDivRem.QDivRem | 410kern/misc/gccisms.c:89-283 | For all 64-bit numbers: quotient and, if asked for, remainder are uq / vq and uq % vq on the u < v, one-digit and multi-digit paths; a zero divisor is reported |
| QDivRem.UDivDi3 | 410kern/misc/gccisms.c:317-322 | The quotient of any two 64-bit numbers, or the division error |
| QDivRem.UModDi3 | 410kern/misc/gccisms.c:305-312 | The remainder of any two 64-bit numbers, or the division error |
| QDivRem.DivideByDigit | 410kern/misc/gccisms.c:146-169 | Exercise 16: the unrolled one-digit division gives quotient and remainder of the four-digit number |
| QDivRem.SkipZeros | 410kern/misc/gccisms.c:178-179 | Skipping leading zeros keeps the value and leaves m + n digits with m not negative |
| QDivRem.NormalisingShift | 410kern/misc/gccisms.c:190-192 | The shift that brings the leading divisor digit to at least half the base and below the base |
| QDivRem.Normalise | 410kern/misc/gccisms.c:193-196 | Both operands multiplied by the same power of two, with no bit lost, and the window below the divisor |
| QDivRem.Shl | 410kern/misc/gccisms.c:290-299 | The in-place shift writes exactly the digits of the shifted number and nothing outside them |
| DivisionSpec.ShiftLeftValue | 410kern/misc/gccisms.c:295-298 | Shifting digits left multiplies the value by the power of two, less the bits that fall out |
| QDivRem.QhatTooBig | 410kern/misc/gccisms.c:226 | The wrapping 32-bit test of D3 decides v2*qhat > rhat*B + u[j+2] exactly |
| QDivRem.EstimateDigit | 410kern/misc/gccisms.c:214-231 | After D3 qhat is the quotient of the leading three by the leading two digits, capped at B - 1 |
| DivisionSpec.EstimateNear | 410kern/misc/gccisms.c:206-231 | Theorems A and B: such an estimate is the true quotient digit or one more |
| DivisionSpec.EstimateWindow | 410kern/misc/gccisms.c:206-231 | The same for the whole window of n + 1 digits and the whole divisor |
| DivisionSpec.TrueBorrow | 410kern/misc/gccisms.c:239-241 | The 32-bit wrapped difference splits into the new digit and the true borrow |
| DivisionSpec.FinalBorrow | 410kern/misc/gccisms.c:243-251 | The high half of the last difference is nonzero exactly when there is a borrow |
| QDivRem.MulSub | 410kern/misc/gccisms.c:238-244 | D4 subtracts qhat times the divisor from the window, in value, and reports a borrow |
| DivisionSpec.SubtractOutcome | 410kern/misc/gccisms.c:245-251 | A borrow happens exactly when qhat was one too large, and one add-back then gives the remainder |
| QDivRem.AddBack | 410kern/misc/gccisms.c:253-258 | D6 adds the divisor to the window modulo B^(n+1) |
| QDivRem.DivideDigit | 410kern/misc/gccisms.c:203-260 | One round gives the true quotient digit, leaves the true remainder in the window and 0 in u[j] |
| DivisionSpec.LongDivValue | 410kern/misc/gccisms.c:203-261 | Schoolbook long division, the reference: digits * divisor + remainder is the dividend, remainder below divisor |
| QDivRem.DivideDigits | 410kern/misc/gccisms.c:203-261 | The in-place main loop produces exactly the digits and remainder of the schoolbook reference |
| QDivRem.RunProgramD | 410kern/misc/gccisms.c:180-261 | On the five-digit arrays: quotient * divisor + remainder equals the dividend, leading places zero |
| QDivRem.ShiftBack | 410kern/misc/gccisms.c:269-274 | The remainder digits are shifted right in place, from the last one down |
| DivisionSpec.ShiftRightValue | 410kern/misc/gccisms.c:270-272 | Shifting digits right divides the value by the power of two |
| DivisionSpec.Denormalised | 410kern/misc/gccisms.c:263-282 | Quotient and shifted-back remainder of the normalised operands are those of the original ones |
| QDivRem.Collect | 410kern/misc/gccisms.c:263-282 | The joined digits are quotient and remainder of the original numbers |
| Align.AlignUp | 410kern/lmm/lmm_alloc_gen.c:76-84 | The bit loop gives the least address from the start on that is congruent to the offset modulo 2^bits, wrapped to 32 bits |
| Lmm.Examine | 410kern/lmm/lmm_alloc_gen.c:69-95 | The 32-bit checks on one block, for every block and request, give skip, stop or an address as the exact analysis says |
| LmmFit.FitTestExact | 410kern/lmm/lmm_alloc_gen.c:86-89 | For an address that has not wrapped, the fit test is right if and only if the sum is below 2^32 |
| LmmFit.VerdictExact | 410kern/lmm/lmm_alloc_gen.c:69-95 | The verdict on a block is right (no placement in it, none from it on, or the lowest one) if and only if the block did not pass by wrapping |
| LmmFit.StopIsFinal | 410kern/lmm/lmm_alloc_gen.c:91-95 | The early break loses nothing: once one block is past the window so is every later one |
| Lmm.SearchRegion | 410kern/lmm/lmm_alloc_gen.c:56-95 | The walk through one region in linked memory settles on exactly the block and address that the analysis chooses |
| LmmFit.ChoiceRight | 410kern/lmm/lmm_alloc_gen.c:56-95 | No choice means the region has no placement; a choice that did not pass by wrapping is its lowest placement |
| LmmFit.MisfitMisplaced | 410kern/lmm/lmm_alloc_gen.c:86-95 | An address chosen by wrapping is a placement nowhere in the region |
| LmmFit.SearchExact | 410kern/lmm/lmm_alloc_gen.c:41-95 | The answer of the whole search is correct if and only if the block it settles on did not pass by wrapping |
| LmmFit.ServesAligned | 410kern/lmm/lmm_alloc_gen.c:76-89 | Without a window, sizes that leave room for the alignment are served correctly on every pool |
| LmmFit.WrappedFit | 410kern/lmm/lmm_alloc_gen.c:86-95 | A pool and a request for 32 bytes on which the search settles on a block although no placement exists |
| Lmm.Lmm.CarveRange | 410kern/lmm/lmm_alloc_gen.c:99-138 | Head and tail split in the linked list take exactly the granules asked for and keep the list canonical |
| Lmm.Lmm.AllocGen | 410kern/lmm/lmm_alloc_gen.c:26-154 | On every pool and request whose search does not settle on a block by wrapping: a nonzero result is the lowest placement of the first region in priority order that has one, taken from free memory in whole granules; zero means no placement exists in any region and nothing changes |
| Pool.ServedWhere | 410kern/lmm/lmm_alloc_gen.c:41-154 | What such a result means: a nonzero one lies in the first region in order that has every attribute asked for and room, at the lowest address with free bytes, alignment and window as asked; zero means no region with the attributes has room |
| Lmm.Lmm.Lacks | 410kern/lmm/lmm_alloc_gen.c:51 | The attribute test is true exactly if something is asked for that the region lacks |
| Lmm.SearchFirst | 410kern/lmm/lmm_alloc.c:47-56 | Plain first fit finds the first block large enough, which is the lowest placement, or there is none |
| Lmm.Lmm.Alloc | 410kern/lmm/lmm_alloc.c:26-85 | The same outcome for requests without alignment or window, the address a multiple of 8; for the last seven sizes nothing is taken, no placement exists, and the result is a block that stays free unless there is none |
| Lmm.Lmm.FindRegion | 410kern/lmm/lmm_free.c:40-50 | The region search finds the region of the block |
| Lmm.Lmm.Free | 410kern/lmm/lmm_free.c:26-107 | Ordered insert and coalescing give back exactly the granules of the block, counter included, and keep the list canonical |
| FreeList.InsertCanonical | 410kern/lmm/lmm_free.c:56-106 | Inserting between neighbours and merging those it touches keeps the list sorted, aligned and without touching blocks |
| FreeList.InsertFree | 410kern/lmm/lmm_free.c:62-106 | Afterwards a byte is free exactly if it was or belongs to the inserted block |
| FreeList.TakeCanonical | 410kern/lmm/lmm_alloc_gen.c:99-134 | Cutting a range out of a block keeps the list canonical |
| FreeList.TakeFree | 410kern/lmm/lmm_alloc_gen.c:99-134 | Afterwards a byte is free exactly if it was and is not in the range cut out |
| FreeList.CanonicalUnique | 410kern/lmm/lmm_dump.c:47-69 | A canonical free list is determined by the set of free bytes |
| FreeList.PutBack | 410kern/lmm/lmm_free.c:56-106 | Inserting what was just cut out gives back the same list of blocks |
| Pool.FreeUndoesAlloc | 410kern/lmm/lmm_free.c:26-107 | Freeing a block just allocated, aligned or not, restores every list and counter of the pool exactly |
| LmmRuns.StepKeeps | 410kern/lmm/lmm_alloc_gen.c:117-138 | Every allocation and valid free keeps the invariant and the number of free plus live bytes |
| LmmRuns.EveryRun | 410kern/lmm/lmm_free.c:52-106 | Over every run live blocks are pairwise apart and not free, each counter is the sum of its block sizes, and free plus live rounded bytes stay constant |
| LmmRuns.BytesApart | 410kern/lmm/lmm_dump.c:47-69 | No byte is in two live blocks, or live and free |
| Lmm.Lmm.FindFree | 410kern/lmm/lmm_find_free.c:26-73 | From any address, the lowest free one from its granule boundary on (which wraps to 0 for the last seven) over all regions, the rest of its block and its region's attributes, or size 0 when there is none |
| LmmRanges.ExactAddress | 410kern/lmm/lmm_remove_free.c:44-46 | The asserted equality holds: allocating the window just found can only return its start |
| Lmm.Lmm.RemoveRound | 410kern/lmm/lmm_remove_free.c:32-47 | Each round that goes on strictly lowers the total of free bytes and moves past what it took |
| Lmm.Lmm.RemoveFree | 410kern/lmm/lmm_remove_free.c:26-48 | Terminates with no free byte from the first granule boundary in the block up to its rounded end, and all others as they were, wherever the block starts, as long as the asserted condition holds |
| Lmm.FoundAfter | 410kern/lmm/lmm_remove_free.c:38-39 | For a start in the last seven bytes of the address space the asserted condition holds if and only if nothing is free at all |
| Lmm.Lmm.AddFree | 410kern/lmm/lmm_add_free.c:26-70 | The whole granules of the block that fall in a region become free there, region by region |
| LmmRanges.AddedFree | 410kern/lmm/lmm_add_free.c:45-69 | Byte by byte: free afterwards exactly if free before or in the block and in some region |
| Lmm.Lmm.AddRegion | 410kern/lmm/lmm_add_region.c:26-71 | The empty region goes into the list at a place that keeps unsigned priority order, or is dropped when it has no whole granule or ends beyond the address space |
| LmmRanges.InsertRegion | 410kern/lmm/lmm_add_region.c:53-70 | Insertion at that place keeps the pool disjoint, ordered and well formed |
| Malloc.Heap.Malloc | 410kern/malloc/malloc.c:26-37 | Allocates the 32-bit sum of size and 4, stores it in front and returns the address after it; the block is held, and is as long as asked for if and only if the sum did not wrap; the pool is still in order afterwards if and only if nothing was found or the sum does not round to 0, in which case the block found is still free |
| Lmm.Lmm.Store | 410kern/malloc/malloc.c:35 | A size word stored in a block that is not free leaves every list as it was; stored over the start of a list it breaks it |
| Malloc.Heap.Memalign | 410kern/malloc/memalign.c:25-46 | The same with the returned address a multiple of the least power of two that is at least the alignment |
| Malloc.MemalignServes | 410kern/malloc/memalign.c:38-42 | Every size that with its header leaves room for the alignment is served correctly, whatever the pool |
| Malloc.AlignmentShift | 410kern/malloc/memalign.c:30-31 | The shift loop finds the least power of two that is at least the alignment |
| Malloc.AlignedAfterHeader | 410kern/malloc/memalign.c:33-45 | A chunk at the offset asked for has an aligned word after its header, also for alignments below 4 |
| Malloc.Heap.Free | 410kern/malloc/free.c:24-28 | Frees exactly the block whose size the header holds |
| Malloc.MallocFreeRestores | 410kern/malloc/free.c:24-28 | malloc or memalign followed by free leaves the pool exactly as it was |
| Malloc.WordAligned | 410kern/malloc/memalign.c:38-45 | Every chunk that malloc or memalign gets starts at a multiple of 4, so its size word never crosses a granule boundary |
| Lmm.CarvedRoom | 410kern/lmm/lmm_alloc_gen.c:97-150 | Taking a range writes free-list records only where all eight bytes were free |
| Lmm.FreedRoom | 410kern/lmm/lmm_free.c:52-106 | Freeing a range writes free-list records only where all eight bytes are free afterwards |
| HeapRuns.RecordsElsewhere | 410kern/lmm/lmm_free.c:52-106 | No record written by the allocator overlaps a word that stays held |
| HeapRuns.StepKeeps | 410kern/malloc/free.c:24-28 | Every malloc, memalign, free by the size found in memory, and write by a holder into its own block keeps every live block's size word, the blocks apart and the total of bytes |
| HeapRuns.EveryRun | 410kern/malloc/free.c:24-28 | In every state of every run each live block's size is in the word in front of it and free plus live rounded bytes are constant |
| HeapRuns.NodesElsewhere | 410kern/malloc/malloc.c:35 | No free-list record overlaps the size word of a live block |
| HeapRuns.ReleaseIsFree | 410kern/malloc/free.c:24-28 | Freeing by the size found in memory frees exactly the block that was handed out |
| BootMap.SkipHoles | 410kern/boot/util_lmm.c:56-61 | One pass either moves the start strictly up past covered addresses only, or yields a block free of every hole |
| BootMap.ScanMemory | 410kern/boot/util_lmm.c:94-148 | For any holes the scan ends with ascending, disjoint blocks that are together exactly the uncovered addresses from 0x500 up to 0xffffffff |
| BootMap.RejectedBlocks | 410kern/lmm/lmm_add_free.c:37-39 | The assertion on a handed-out block fails exactly when the block lies strictly inside one granule |
| BootMap.TinyGap | 410kern/boot/util_lmm.c:94-148 | Two holes for which every result of the scan contains such a block |
| BootMap.AddBootRegions | 410kern/boot/util_lmm.c:79-88 | The three regions in the order of their unsigned priorities: 16 MB, 1 MB, high |
| BootMap.Start | 410kern/boot/util_lmm.c:63-149 | The free bytes of the pool are exactly the whole granules of the blocks found, provided no block is rejected |
| BootMap.BootOrder | 410kern/boot/util_lmm.c:36-52 | On the pool after start-up, requests with attribute 0 are served below 1 MB and those with attribute 1 below 16 MB; of what is allowed, memory from 1 to 16 MB comes first, then below 1 MB, then the rest, and null means there is none |
| SemaphoreProtocol.InvKept | user/libthread/semaphore.c:50-71 | Every step keeps mutual exclusion of both locks, a nonnegative count, a sound wait list and the wake-up bound |
| SemaphoreProtocol.WakeupsKept | user/libthread/cond_var.c:58-98 | Every step keeps: while someone waits or is about to, count is at most the threads dequeued and not yet rechecked, plus one for a signaller before its dequeue |
| SemaphoreSystem.CodeFollowsProtocol | user/libthread/cond_var.c:58-121 | Each load, store or lock operation of the code, with loaded values up to date, is a step of the protocol or invisible to it |
| SemaphoreSystem.EveryRun | user/libthread/semaphore.c:50-71 | The invariant holds in every state of every run from a nonnegative initial value |
| SemaphoreSystem.LocalsKept | user/libthread/semaphore.c:50-71 | Mutual exclusion keeps every value a thread has loaded up to date until it is stored back |
| SemaphoreSystem.CountsKept | user/libthread/semaphore.c:50-71 | With loads and stores separate, count stays initial plus increments minus takes because the values stored back are up to date |
| SemaphoreSystem.EveryRunLocked | user/libthread/mutex.c:50-67 | In every run, whatever the initial value: one thread in each lock, no stale copy, and a count that adds up |
| SemaphoreSystem.InvMeans | user/libthread/mutex.c:50-67 | Count is initial plus increments minus takes and never negative, at most one thread is between mutex_lock and mutex_unlock, and no wake-up is lost |
| SemaphoreSystem.WokenByDequeuer | user/libthread/cond_var.c:81-98 | A thread leaves deschedule only through a thread that has dequeued it by signal or broadcast |
| SemaphoreSystem.OneDequeueEach | user/libthread/cond_var.c:81-121 | Over every run each thread has left deschedule exactly as often as a signal or broadcast dequeued it, but for one being woken |
| SemaphoreSystem.RefinesAtomic | user/libthread/semaphore.c:50-71 | Every run of the code, whose test, load and store of the count are separate steps, is seen from outside a run of an atomic semaphore with that initial value |
| SemaphoreProgress.RunLocks | user/libthread/mutex.c:50-67 | In every run each spinlock is set if and only if a thread is inside it, and at most one is |
| SemaphoreProgress.RunStatus | user/libthread/mutex.c:50-67 | In every run the status field is set if and only if some thread is between locking and unlocking the mutex |
| SemaphoreProgress.BroadcastWakesAll | user/libthread/cond_var.c:105-121 | In every run, when a broadcast gives the lock back the list is empty, everyone who was on it when the lock was taken has been dequeued and has left deschedule, and nobody is asleep |
| SemaphoreProgress.SignalWakesFirst | user/libthread/cond_var.c:81-98 | In every run a signal wakes exactly the thread that was first on the list when it took the lock, if there was one |
| SemaphoreProgress.RunStuck | user/libthread/semaphore.c:50-71 | In every run, when nobody in the middle of an operation can go on, both locks are free, all of them are asleep on the wait list and the count is zero |
| SemaphoreProgress.StepsAhead | user/libthread/semaphore.c:50-71 | Every step lowers a bound on the steps its own thread still has to take until the operation ends or it sleeps, and moves another thread only by waking it |
| SemaphoreProgress.Called | user/libthread/semaphore.c:50-71 | In every run, while the others rest, a thread gets through: sem_wait takes one or joins the end of the list asleep, sem_signal adds one and wakes the first, cond_broadcast empties the list |
| SemaphoreProgress.SleeperGetsThrough | user/libthread/semaphore.c:50-71 | A thread that sleeps over a count of zero gets through after a signal |
| SemaphoreProtocol.MutexKept | user/libthread/spinlock.c:33-47 | The exchange loop admits one thread at a time to the mutex |
| RwLock.StepInv | user/libthread/rwlock.c:73-152 | Every step of every thread keeps who holds which semaphore, both counts and the tests made on them |
| RwLock.EveryRun | user/libthread/rwlock.c:73-152 | The invariant holds in every state of every run of threads that lock, unlock and downgrade in order |
| RwLock.Excludes | user/libthread/rwlock.c:73-97 | A writer inside excludes every other writer and every reader |
| RwLock.BranchIsRight | user/libthread/rwlock.c:112-135 | The unlocked read of readcnt picks the branch of the caller's own mode |
| RwLock.LocalsKept | user/libthread/rwlock.c:73-152 | rcnt_mutex and wcnt_mutex keep every loaded counter value up to date until it is stored back |
| RwLock.RunExcludes | user/libthread/rwlock.c:73-152 | In every state of every run a writer inside excludes every other thread |
| RwLock.RunCounts | user/libthread/rwlock.c:73-152 | In every state of every run, with counter loads and stores separate, readcnt and writecnt are the numbers of counted threads and unlocking picks the right branch |
| RwLock.LastWriter | user/libthread/rwlock.c:125-133 | A writer that unlocks always finds writecnt zero, so it gives back r |
| RwLock.DowngradeKeepsW | user/libthread/rwlock.c:143-152 | Downgrading hands w from the writer to the readers as a group |
| RwLock.UnlockLeaks | user/libthread/rwlock.c:125-133 | A writer's unlock ends with w taken and nobody holding it |
| RwLock.NeverInsideAgain | user/libthread/rwlock.c:125-133 | After it no thread is inside again in either mode, in any continuation of any run |
| RwLock.LostOnlyByUnlock | user/libthread/rwlock.c:73-152 | No other step loses w |
| RwLock.LostExactly | user/libthread/rwlock.c:125-133 | In every run w is lost if and only if a writer has unlocked before |
| RwLock.WriteOnceIsStuck | user/libthread/rwlock.c:91-133 | A run of one thread that reaches that point |
| RwLockProgress.RunTokens | user/libthread/rwlock.c:73-152 | In every run each of gen_mutex, r, rcnt_mutex and wcnt_mutex and the number of its holders add up to one |
| RwLockProgress.RunW | user/libthread/rwlock.c:73-152 | In every run w is free if and only if neither the readers nor a writer have it and no writer has ever unlocked |
| RwLockProgress.StepsAhead | user/libthread/rwlock.c:73-152 | Every step brings its thread nearer to the end of its operation, at most ten steps away, and moves no other |
| RwLockProgress.RunFrozen | user/libthread/rwlock.c:89-152 | In every run in which no writer has unlocked, if some threads are in the middle of an operation, none is inside and none can move, a leaving and an arriving writer wait for each other |
| RwLockProgress.DeadlockForever | user/libthread/rwlock.c:89-152 | From such a state on the two never move and no other thread is ever inside |
| RwLockProgress.DeadlockArises | user/libthread/rwlock.c:91-132 | From every calm state with two idle threads and the others idle such a state is reached, and there nobody can move |
| RwLockProgress.ReaderEnters | user/libthread/rwlock.c:78-86 | From every state in which all are idle or reading and w is not lost, an idle thread can enter beside the readers |
| RwLockProgress.ReaderLeaves | user/libthread/rwlock.c:115-123 | From such a state any reader can leave, the last one giving w back |
| RwLockProgress.ReadersTogether | user/libthread/rwlock.c:78-86 | Any set of threads can be inside together as readers |
| RwLockProgress.ReadersComeAndGo | user/libthread/rwlock.c:78-123 | Two readers are inside together, one leaves, and it enters again beside the other |
| RwLockProgress.WriterEnters | user/libthread/rwlock.c:91-95 | When all are idle and w is not lost, any thread can enter as a writer |
| RwLockProgress.WriterDowngrades | user/libthread/rwlock.c:143-152 | A writer inside alone can go on as a reader, others then joining it |
| QSort.QSort | 410kern/stdlib/qsort.c:90-170 | For every array range and every total preorder: sorted, a permutation of the range, nothing outside it touched |
| QSort.Sort | 410kern/stdlib/qsort.c:99-168 | Recursion on the left part and iteration on the right part sort the range |
| QSort.Pass | 410kern/stdlib/qsort.c:99-155 | One pass sorts the range or leaves a last part to the next pass, sorted and smaller-or-equal before it |
| QSort.SortParts | 410kern/stdlib/qsort.c:156-168 | After a partition that swapped: equal elements gathered, left part sorted, right part left over only if longer than one |
| QSort.InsertionSort | 410kern/stdlib/qsort.c:101-107 | The fallback sorts the range and only rearranges it |
| QSort.Sink | 410kern/stdlib/qsort.c:149-152 | One element moved down to its place in a sorted range |
| QSort.Med3 | 410kern/stdlib/qsort.c:80-88 | One of the three positions, holding an element between the other two |
| QSort.ScanLeft | 410kern/stdlib/qsort.c:125-132 | The scan from the left keeps the four ranges and stops at a greater element; without a swap nothing changes |
| QSort.ScanRight | 410kern/stdlib/qsort.c:133-140 | The scan from the right keeps the four ranges and stops at a smaller element; without a swap nothing changes |
| QSort.Partition | 410kern/stdlib/qsort.c:121-147 | Equal, less, greater, equal around the pivot; unchanged when no swap was counted |
| QSort.VecSwap | 410kern/stdlib/qsort.c:78 | Two disjoint blocks exchanged element by element, nothing else moved |
| QSort.BlocksPass | 410kern/stdlib/qsort.c:157-160 | Swapping as many elements as the shorter of two neighbouring blocks has moves them past each other |
| QSort.GatherLeft | 410kern/stdlib/qsort.c:157-158 | The first block swap: less, then equal, then the right side as it was |
| QSort.GatherRight | 410kern/stdlib/qsort.c:159-160 | The second block swap: less, equal, greater |
| Vm.Kernel.InitFreeFrame | kern/memory/vm_routines.c:359-378 | All frames free, cursor at frame 0 |
| Vm.Kernel.AcquireFrame | kern/memory/vm_routines.c:389-413 | Hands out the frame under the cursor, which moves to the next free frame |
| Vm.Kernel.ReleaseFrame | kern/memory/vm_routines.c:427-450 | Drops one reference; a frame no longer referenced gets the cursor |
| Frames.AcquireKeeps | kern/memory/vm_routines.c:389-413 | The cursor ends on a free frame if and only if one remains above it; one fewer is then ahead |
| Frames.FreeCountMisleads | kern/memory/vm_routines.c:389-450 | A run from the initial state after which free_frame_num is 3 and only one more acquisition is possible: requests for two or three pages pass the test of free_frame_num and cannot be completed |
| Frames.ServesExactly | kern/memory/vm_routines.c:389-413 | n acquisitions in a row leave the cursor on a free frame each time if and only if more than n frames are free from the cursor on |
| Frames.EveryRun | kern/memory/vm_routines.c:389-450 | Over every run that releases only held frames: reference counts are the frames held, free_frame_num is the total less those |
| Frames.NeverTwice | kern/memory/vm_routines.c:389-413 | The frame to be handed out next is never one that is held |
| Vm.Kernel.MmInit | kern/memory/vm_routines.c:36-71 | Each of the first 4096 pages is mapped to the frame with the same number, in four different tables |
| Vm.Kernel.InitPd | kern/memory/vm_routines.c:287-305 | A process directory with the kernel's four tables under flags 0x107, the identity mapping and no user page satisfies the invariant |
| Vm.KernelPages | kern/memory/vm_routines.c:60-68 | Kernel pages are present, name the frame of the same number and are out of the user's reach |
| PageTables.UserReaches | kern/memory/vm_routines.c:110 | A mapped page can be read and written by the user through both levels if and only if its own entry has the present, write and user bits |
| PageTables.SetEntry | kern/memory/vm_routines.c:110 | Writing one table entry changes the mapping of that page and of no other |
| PageTables.AddTable | kern/memory/vm_routines.c:128-136 | A new table gives its pages their mappings and changes no other |
| PageTables.SpaceChange | kern/memory/vm_routines.c:79-146 | In terms of the address space: exactly one page is added, changed or removed |
| Vm.Kernel.VirtualMap | kern/memory/vm_routines.c:79-146 | A page is mapped to a fresh zeroed frame exactly if it was not mapped, and is then the user's to read and write through directory and table; otherwise -1 and nothing changes; the invariant is kept |
| Vm.Kernel.VirtualUnmap | kern/memory/vm_routines.c:149-190 | A mapped page is unmapped and its frame released, otherwise -1 and nothing changes |
| Vm.SlotOf | kern/memory/vm_routines.c:208-231 | The directory and table indices of the k-th page, carried across table boundaries |
| Vm.PagesTouched | kern/memory/vm_routines.c:208-219 | The pages counted are exactly those that have a byte in common with the range |
| Vm.GrownMeans | kern/memory/vm_routines.c:202-240 | A page of the range that was not mapped gets a frame that nobody held, all zero, with the present, write and user bits; one that was keeps its entry |
| Vm.Kernel.AllocatePages | kern/memory/vm_routines.c:202-240 | Every page touched by the range ends mapped, the new ones readable and writable by the user through both levels; those that were keep their entry, the others get distinct fresh zeroed frames; nothing else changes |
| Vm.Kernel.FreePages | kern/memory/vm_routines.c:254-285 | Exactly the mapped pages touched by the range are unmapped and exactly their frames lose a reference |
| UserPages.Process.AnyMapped | kern/memory/sys_memory_management.c:45-56 | The checking loop finds a mapped page exactly if there is one in the range, or if the range runs past the end of the address space by more than one page, into the kernel's pages |
| UserPages.Process.NewPages | kern/memory/sys_memory_management.c:25-78 | Accepted exactly under the stated checks, ranges far past the end of the address space refused: exactly len / 4096 pages are mapped to fresh frames, the user's to read and write, and the request recorded, or nothing changes; records stay disjoint and mapped |
| UserPages.Process.Search | kern/memory/sys_memory_management.c:110-132 | The first record of the address, or the end |
| UserPages.Process.RemovePages | kern/memory/sys_memory_management.c:89-137 | Succeeds exactly for a mapped writable page with a record: unmaps exactly the range of the first such record and forgets it, or nothing changes |
| UserPages.EveryRun | kern/memory/sys_memory_management.c:25-137 | Over every run of both calls records are pairwise disjoint and fully mapped, and free frames plus mapped pages stay constant |
| UserPages.RemoveUndoesNew | kern/memory/sys_memory_management.c:89-137 | Removing the address just added with a positive length restores records, address space and number of free frames if and only if the address had no record before |
| UserPages.RecordedOnce | kern/memory/sys_memory_management.c:66-71 | With positive lengths an address has at most one record |
| UserPages.EmptyRecordHides | kern/memory/sys_memory_management.c:32-34 | After a request of length 0, a real one for the same address and a removal of it, the page is still mapped and recorded |
| UserPages.EmptyRecordArises | kern/memory/sys_memory_management.c:25-137 | Such a run exists from every state in which the page is not mapped |
| UserPages.RemovedIff | kern/memory/sys_memory_management.c:123-130 | The page named is unmapped if and only if its first record has positive length |
| Fork.FindFreeEntry | kern/process/sys_fork.c:40-61 | Finds a free entry in an existing user table exactly if there is one |
| Fork.CopyPage | kern/process/sys_fork.c:187-227 | One page copied through the slot into a new frame with the same flags; the slot's table ends exactly as it was |
| Fork.CopyTable | kern/process/sys_fork.c:183-228 | All mapped pages of one table are copied, the parent's tables unchanged throughout |
| Fork.ForkSpace | kern/process/sys_fork.c:154-229 | On success every mapped user page of the parent is in the child with the same flags, in fresh distinct frames with equal contents, kernel entries shared; all tables that existed before are unchanged in every case; failure only without a free slot or memory |
| Fork.NoSharedFrame | kern/process/sys_fork.c:187-219 | No frame of the child is one of the parent's or serves two of its pages |
| MersenneTwister.Generator.Seed | 410kern/RNG/mt19937int.c:50-61 | The block holds the first 624 terms that the seed determines |
| MersenneTwister.Generator.RewriteAll | 410kern/RNG/mt19937int.c:76-85 | The in-place rewriting in three index ranges replaces the block by the next 624 terms |
| MersenneTwister.Generator.Draw | 410kern/RNG/mt19937int.c:63-97 | For every seed and n, the n-th number is the tempered term 624 + n, also bit by bit; the default seed is 4357 |
| MersenneTwister.Terms | 410kern/RNG/mt19937int.c:50-88 | The sequence in plain terms: the seed, then 623 multiples by 69069, then each term bit by bit from those 227, 624 and 623 places back |
| MersenneTwister.TemperBits | 410kern/RNG/mt19937int.c:91-94 | The number put out comes of the term by the four shifts, bit by bit |
| MersenneTwister.SomeValues | 410kern/RNG/mt19937int.c:43-94 | The first terms of the default seed, and a later term and its number, as values |
| MersenneTwister.TemperBijective | 410kern/RNG/mt19937int.c:91-94 | Tempering has a two-sided inverse on 32-bit words |
| MersenneTwister.Stage2Undone | 410kern/RNG/mt19937int.c:92 | The masked left shift by 7 is undone by repeating it four times |
| Numerals.DigitsValue | 410kern/stdio/doprnt.c:157-160 | The digits of a number have its value in the base |
| Numerals.DigitsFit | 410kern/stdio/doprnt.c:143-160 | A number has at most n digits if and only if it is below base^n |
| Numerals.DigitsShape | 410kern/stdio/doprnt.c:145-160 | Digits are 0 to 9 and a to f in lower case, and begin with 0 only for 0 |
| Format.PrintNum | 410kern/stdio/doprnt.c:147-164 | The characters put out are the digits of the number, built backwards in the 32-byte buffer |
| Format.WordsFit | 410kern/stdio/doprnt.c:143-160 | Every 32-bit number fits the 32-byte buffer in every base |
| Format.LongWordsFit | 410kern/stdio/doprnt.c:574-593 | Every 64-bit number fits the 32-byte buffer if and only if the base is at least 4 |
| Format.PrintField | 410kern/stdio/doprnt.c:574-624 | Padding, sign, prefix and digits come out as the field specification says, with the prefix 0 or 0x for nonzero numbers in bases 8 and 16 on request and none otherwise |
| Format.FieldLength | 410kern/stdio/doprnt.c:595-622 | A field has exactly max(width, sign + prefix + digits) characters |
| Format.FieldSides | 410kern/stdio/doprnt.c:595-622 | Blanks stand before everything, or after everything when adjusted to the left; zeros stand between sign and prefix on one side and the digits on the other |
| Strtoul.Parse | 410kern/stdlib/strtoul.c:26-61 | Skips blanks and a hexadecimal mark, picks the base, reads the longest run of digits and returns its value modulo 2^32 and where it stopped |
| Strtoul.ReadsBack | 410kern/stdlib/strtoul.c:26-61 | For every 32-bit number and base 2 to 16, strtoul reads back what printnum writes |
| Strtoul.ReadsFieldBack | 410kern/stdlib/strtoul.c:26-61 | It also reads back every unsigned field, with any padding and with the prefixes of bases 8 and 16 |
| Strtoul.ReadsBase0 | 410kern/stdlib/strtoul.c:32-43 | With base 0 it reads back octal and hexadecimal fields that carry their prefix, and decimal ones without zeros in front |
| Strtoul.ZeroFilledTrap | 410kern/stdlib/strtoul.c:38-43 | A decimal field with zeros in front is read back with base 0 if and only if the number is below 8 |
| Strtoul.CaseIgnored | 410kern/stdlib/strtoul.c:32-52 | Upper-case letters are read like lower-case ones, in every string and base |
| Strtoul.Spaces | 410kern/stdlib/strtoul.c:30-31 | The blanks skipped are the space and the characters 9 to 13 |
| Sprintf.Sink.SaveChar | 410kern/stdio/sprintf.c:37-51 | Stores the character unless a limit is set and reached |
| Sprintf.VSprintf | 410kern/stdio/sprintf.c:53-64 | The whole text and a terminating null, and its length |
| Sprintf.VSnprintf | 410kern/stdio/sprintf.c:66-77 | For size at least 1 the first size - 1 characters of the text and a null, within size bytes; otherwise no limit |

## Left out

- Assembly, context switch, drivers, interrupt controllers and the scheduler: foreign effects.
- The kernel's own mutexes, thread life cycle, vanish and wait.
- Program loading, exec, swexn, autostack, console, keyboard and printf's line buffer.
- lmm_avail, lmm_dump's printing, smemalign and the other malloc wrappers: easy members.
- Destroy operations of the synchronisation objects and paths taken when one is unavailable.
- Lmm.Lmm.AllocGen: asks that the search does not settle on a block by wrapping, without which its answer is wrong (LmmFit.SearchExact); alignments beyond 2^32, where the shift is not defined, are left out.
- Lmm.Lmm.AddFree: asks for what the code asserts about the rounded block, and that its bytes are not free already.
- Malloc.Heap.Malloc: the size whose sum with the header is 0, which the allocator asserts against, is left out; the size words are kept in a map of their own beside the records, which HeapRuns.EveryRun and Lmm.Lmm.Store justify.
- HeapRuns.EveryRun: holders write only the bytes they were given, and give back only blocks they hold; requests on which the allocator fails its own conditions are not steps.
- Lmm.Lmm.RemoveRound: for starts below the last seven bytes of the address space; Lmm.Lmm.RemoveFree deals with the others without a round.
- Lmm.Lmm.RemoveFree: asks, for starts in the last seven bytes, for the condition that the code asserts (Lmm.FoundAfter).
- Lmm.Lmm.AddRegion: starts in the last seven bytes of the address space, whose rounding wraps to 0, are left out.
- Vm.Kernel.MmInit: takes the kernel directory to be a whole page; the code asks memalign for 16 bytes only (kern/memory/vm_routines.c:41), so its entries from 4 on lie in memory that may be handed out again.
- BootMap.ScanMemory: takes the holes as a list; working them out from the boot loader's fields is not modelled.
- SemaphoreSystem.RefinesAtomic: the wait list is loaded and stored as a whole, not pointer by pointer; that a waiting thread is eventually served depends on the scheduler, of which nothing is assumed (SemaphoreProgress.RunStuck says what holds without it).
- RwLock.EveryRun: works on atomic semaphores, which SemaphoreSystem.RefinesAtomic justifies.
- QSort.QSort: elements are swapped as values; the swapping by bytes or words and the element size are not modelled.
- Vm.Kernel.AcquireFrame: running out of frames, where the code follows an unset pointer, is excluded by asking for a free frame above the cursor.
- Vm.Kernel.VirtualMap: translation caches are not modelled, and the directory is taken to be the active one, as the code's write through the new mapping does; memalign running out of memory here is excluded, as the code does not check for it.
- Vm.Kernel.VirtualUnmap: for user pages only; unmapping a page of the kernel would give up the identity mapping.
- Vm.Kernel.AllocatePages: for ranges of user addresses, as its callers pass, with frames and tables enough.
- Vm.Kernel.FreePages: for ranges of user addresses, as its callers pass.
- UserPages.Process.NewPages: asks, when the checks pass, that the frames from the cursor on suffice, which is the exact condition (Frames.ServesExactly), and that there is memory for tables; a range that passes the end of the address space by exactly one page is left out, as page 0 has frame 0 and passes for unmapped.
- Fork.ForkSpace: asks for more free frames ahead of the cursor than there are mapped pages; control blocks, registers and queues are left out; entries of the child's tables that fork never writes hold whatever memory held, so the statement is per mapped page of the parent.
- Format.PrintField: numbers of base^32 and more, which do not fit the buffer, are left out; the option that truncates to 32 bits is left out; it is off.
- Sprintf.VSnprintf: lengths from 2^31 on are left out.
