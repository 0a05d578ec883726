# RT-Thread kernel model

A Dafny model of the RT-Thread 4.0.4 kernel as configured for a five-hart PolarFire SoC
(SMP, 32 priorities, 64-bit pointers, no memory tracing), with proofs of what its
allocators, timers, communication objects and scheduler keep over whole runs.

| files | what they model |
|---|---|
| `Machine`, `Sequences`, `HeapBytes` | 64-bit sizes and `RT_ALIGN`; lists without repeats; the raw bytes of a heap, headers and payloads alike |
| `MemHeapRings`, `MemHeap`, `MemHeapTheorems` | `memheap.c`: the block ring and the free ring over one set of headers, split, merge, grow, shrink, accounting |
| `SmallHeapBlocks`, `SmallHeap` | `mem.c`: first fit over offset-linked headers, the cached lowest free block, usage statistics |
| `PageList`, `SlabZones`, `SlabBooks`, `Slab`, `SlabTheorems` | `slab.c`: coalescing page runs, zones of equal chunks, `memusage`, large blocks |
| `TimerRows`, `TimerList`, `TimerSteps`, `TimerCheck` | `timer.c`: the skip list for any number of levels, wrapping ticks beside true deadlines, expiry with arbitrary callbacks, step by step |
| `WaitList`, `WaitStates` | suspended-thread lists, and where a caller of a blocking object stands |
| `Traces` | records of whole runs, and what goes in and comes out over one |
| `QueueStore`, `QueueThreads`, `MessageQueue`, `QueueRuns` | message queues, one step per locked region and per unlocked copy |
| `Mailbox`, `MemPool`, `EventFlags` | the other blocking objects |
| `Mutexes`, `Inheritance`, `MutexRuns` | mutexes and priority inheritance, for threads that own one mutex and for threads that own any number |
| `FirstSet`, `ReadyQueues`, `Scheduler`, `LockNest` | `__rt_ffs`, the per-CPU ready queues, `rt_schedule` and thread states, the lock counters and interrupt masking |
| `IntrusiveList` | the linked ring of `rtservice.h`, on the heap |

The state that the kernel updates in place is held in classes. Each class keeps an
invariant `Valid`; its methods follow the kernel's branches and say what the new state
is; lemmas on plain values say what that state means. A link field is an entry of a map
from address to header, except in `IntrusiveList`, where it is a heap reference; the two
heaps also hold the headers' bytes, and `Valid` says that they spell out the fields.

A method `Run` makes any sequence of steps and returns what each one answered, with a
record of the states around it. Each entry of a record satisfies a predicate `Happened`
that fixes the new state and the answer from the old state, so the theorems about runs
are lemmas about records. `LockNest.Run` instead gives the final state as a function of
the first one and the calls.

## What the proofs show about the code

* `RT_ALIGN` wraps for requests above 2^64 - 8: `rt_memheap_alloc` and `rt_malloc` then
  grant a minimal block (`MemHeapTheorems.GrantCoversRequest`, `SmallHeap.GrantCoversRequest`,
  each with a heap that does), and `rt_realloc` frees the block (`SmallHeap.Heap.Realloc`).
* `rt_memheap_alloc` compares sizes strictly, so a request for exactly all available
  bytes is refused although a block could hold it; that is the only such refusal
  (`MemHeapTheorems.AllocRefusesOnlyTheLastFit`, `MemHeapTheorems.LastFitRefused`).
* The growth test of `rt_memheap_realloc` overflows for one rounded size, 2^64 - 8, and then
  succeeds whatever is free (`MemHeap.GrowGuardOverflow`); the header of the free block to
  be left would go over the block's own (`MemHeap.GrowOverflowHits`).
* In a small heap of fewer than 24 bytes, and only there, the search of `rt_malloc` never
  ends (`SmallHeap.SearchEndsExact`). Both adjustments of `lfree` in `plug_holes` are dead
  code (`SmallHeap.Heap.PlugHoles`). `rt_realloc` moves a block that shrinks by 48 bytes or
  less.
* Timer insertion orders correctly exactly while no listed timer is more than three ticks
  late (`TimerList.OrderWindow`). The value that `rt_timer_next_timeout_tick` returns for an
  empty list is also a possible deadline (`TimerList.List.NextTimeout`).
* With callbacks that make no timer call, `rt_timer_check` ends if and only if no due timer
  is periodic with period 0 (`TimerCheck.Rounds`). A timer started with period 0, as
  `rt_thread_sleep(0)` does, fires at the next tick (`TimerCheck.DeadlineKept`).
* A periodic timer that its own callback makes one-shot stays flagged as activated though it
  is in no list (`TimerCheck.OwnOneShot`).
* A thread that owns a mutex can run less urgently than a thread that waits for it: after a
  release of another mutex (`MutexRuns.NestingInverts`), or because a thread that waits does
  not pass on what it inherits (`MutexRuns.WaitingInverts`). `Inheritance.WaitExact` and
  `Inheritance.ReleaseExact` say exactly when, call by call, and `MutexRuns.SafeRun` for runs.
* A thread can keep an inherited priority after it released everything
  (`MutexRuns.NestingSticks`), though not if it releases in the reverse order of taking
  (`MutexRuns.ReverseOrderRestores`). `Inheritance.ReleaseAnchorsExact` gives the exact
  condition, call by call, and `MutexRuns.AnchoredRun` for runs.
* A message queue asked for messages of more than 65528 bytes, or a pool of 65536 blocks or
  more, is cut down by its 16-bit fields (`MessageQueue.SizeFieldExact`,
  `MessageQueue.PoolFieldExact`).
* Waiters of a memory pool are served last come, first served (`MemPool.Pool.TryAlloc`).
* `rt_schedule` leaves the yield mark of a thread set when nothing else is ready
  (`Scheduler.System.Yield`, in the case of an empty priority group).

## Model

| member | source | states |
|---|---|---|
| Machine.AlignUpExact | src/rt-thread/include/rtdef.h:337 | rounding up yields the least multiple of 8 not below the size exactly for sizes up to 2^64 - 8, and 0 above |
| Machine.RunningMaxNext | src/rt-thread/memheap.c:324-325 | keeping the larger of the old maximum and the new value keeps the maximum of all values so far |
| HeapBytes.PayloadStoreKeepsOthers | src/rt-thread/memheap.c:526-527 | writing inside one live block leaves every other live block's bytes alone |
| HeapBytes.MoveResizes | src/rt-thread/mem.c:508-515 | allocate, copy what fits, free: the result holds the old contents up to the smaller size and all other blocks are intact |
| HeapBytes.OffsetExact | src/rt-thread/include/rtdef.h:846-859 | eight bytes hold an offset: two numbers less than 2^64 apart with the same bytes are equal |
| MemHeapRings.BlockRingInsert | src/rt-thread/memheap.c:299-303 | linking a new header between two neighbours keeps a ring in address order, doubly linked, tiling the pool |
| MemHeapRings.BlockRingRemove | src/rt-thread/memheap.c:678-679 | unlinking a header that is merged into its left neighbour keeps the ring |
| MemHeapRings.FreeRingRemove | src/rt-thread/memheap.c:306-309 | unlinking an entry of the free ring leaves the ring of the others, in order |
| MemHeapRings.FreeRingPush | src/rt-thread/memheap.c:312-315 | inserting behind the list head puts a block first in the free ring |
| MemHeapRings.LayoutCanonical | src/rt-thread/memheap.c:619-727 | two coalesced rings with the same used blocks have the same blocks: there is one layout for each set of live allocations |
| MemHeapRings.PayloadsDisjoint | src/rt-thread/memheap.c:224-378 | payloads of distinct blocks do not overlap |
| MemHeapRings.EmptyIsInitial | src/rt-thread/memheap.c:619-727 | a sound pool without used blocks is the single free block of the start |
| MemHeap.HeaderExact | src/rt-thread/include/rtdef.h:846-859 | the 48 bytes of a header are equal if and only if its fields are |
| MemHeap.LiveApart | src/rt-thread/memheap.c:224-378 | live allocations are pairwise apart, header included |
| MemHeap.HeaderStoresKeepPayloads | src/rt-thread/memheap.c:279-345 | a memory that differs in headers of the ring only holds the same bytes in every payload |
| MemHeap.PayloadStoreKeepsHeaders | src/rt-thread/memheap.c:526-527 | a write inside one block leaves every header in memory as it was |
| MemHeap.Heap.Flush | src/rt-thread/memheap.c:279-345 | the headers with changed fields are written and no other byte; afterwards every header in memory says what its fields are |
| MemHeap.Heap.constructor | src/rt-thread/memheap.c:116-191 | one free block between two rings, the tail used, two headers counted as used |
| MemHeap.Heap.FindFree | src/rt-thread/memheap.c:256-269 | the search stops at the first block of the free list that fits, or none fits |
| MemHeap.Heap.TakeWhole | src/rt-thread/memheap.c:329-344 | a block too small to split leaves the free list whole, and the available size drops by its payload |
| MemHeap.Heap.TakeSplit | src/rt-thread/memheap.c:274-326 | the block is cut behind the request, and the rest heads the free list |
| MemHeap.Heap.Alloc | src/rt-thread/memheap.c:224-378 | the first fit is granted, split exactly when the rest can be a block; otherwise nothing changes and no block fits or the strict size test failed; counters, both rings, coalescing and all payload bytes are kept |
| MemHeap.Heap.MergeLeft | src/rt-thread/memheap.c:669-685 | merging into a free left neighbour keeps the pool sound up to the pending block |
| MemHeap.Heap.MergeRight | src/rt-thread/memheap.c:688-706 | merging a free right neighbour takes it out of both rings |
| MemHeap.Heap.Free | src/rt-thread/memheap.c:619-727 | exactly that block leaves the live ones; where the merged block stands in the free list; all counters and remaining payloads |
| MemHeap.Heap.ShrinkInPlace | src/rt-thread/memheap.c:534-609 | shrinking cuts off a free block and merges it with a free right neighbour |
| MemHeap.Heap.GrowInPlace | src/rt-thread/memheap.c:444-516 | growing takes the free right neighbour, giving back what is left of it |
| MemHeap.Heap.Move | src/rt-thread/memheap.c:523-530 | allocate the first fit, copy, free; on failure no free block fits or all that is available is asked for, and nothing changes |
| MemHeap.Heap.Realloc | src/rt-thread/memheap.c:393-610 | on success the old bytes up to the smaller size are kept whichever path runs, on failure the old block is live and untouched, other payloads are always untouched; the pointer stays exactly when the block can be resized in place, and is then cut down exactly if the rest can be a block; it fails only for want of a free block, and moves to the first fit |
| MemHeap.GrowGuardExact | src/rt-thread/memheap.c:460 | the 64-bit growth test compares the true sizes for every request up to REALLOC_LIMIT |
| MemHeap.GrowGuardOverflow | src/rt-thread/memheap.c:460 | it does so if and only if the rounded request is at most REALLOC_LIMIT |
| MemHeap.GrowOverflowHits | src/rt-thread/memheap.c:460-501 | with that request the test passes, and the address of the free block to be left is the last word of the block's own header |
| MemHeapTheorems.PoolCanonical | src/rt-thread/memheap.c:619-727 | the live blocks alone fix every block, link, flag and the available size |
| MemHeapTheorems.AllocRefusesOnlyTheLastFit | src/rt-thread/memheap.c:241-269 | a request some free block could hold is refused if and only if it asks for all available bytes |
| MemHeapTheorems.GrantExact | src/rt-thread/memheap.c:274-344 | a granted block is as long as asked for, or the rest that is too short to be a block goes with it |
| MemHeapTheorems.GrowsInPlaceExact | src/rt-thread/memheap.c:444-460 | a block can grow where it is if and only if right behind it a free block begins that leaves more than the minimum |
| MemHeapTheorems.LastFitRefused | src/rt-thread/memheap.c:241-270 | a fresh pool of any size refuses the size of its only free block |
| MemHeapTheorems.GrantCoversRequest | src/rt-thread/memheap.c:233-236 | a granted block covers the request if and only if rounding it does not wrap, and then it is rounded up by less than 8 bytes, or to the minimum |
| MemHeapTheorems.WrappedGranted | src/rt-thread/memheap.c:233-236 | a fresh pool grants a request of 2^64 - 1 bytes with a block of its own size at most |
| MemHeapTheorems.BytesDetermineRings | src/rt-thread/include/rtdef.h:846-859 | the header bytes alone fix all links and flags |
| MemHeapTheorems.FreeAll | src/rt-thread/memheap.c:619-727 | freeing every live block, in any order, restores the initial pool |
| SmallHeapBlocks.ChainInsert | src/rt-thread/mem.c:331-347 | a header inserted at a split keeps the chain in address order with `prev` inverting `next` |
| SmallHeapBlocks.ChainJoin | src/rt-thread/mem.c:178-192 | a header joined to its left neighbour leaves such a chain |
| SmallHeapBlocks.UsedBytesLocal | src/rt-thread/mem.c:349-367 | the used bytes change by the extents of the blocks an operation touches and nothing else |
| SmallHeapBlocks.HeapCanonical | src/rt-thread/mem.c:553-616 | the live blocks alone fix the headers, `lfree` and `used_mem` |
| SmallHeapBlocks.HeaderExact | src/rt-thread/mem.c:95-113 | the 24 bytes of a header are equal if and only if its fields are |
| SmallHeapBlocks.BytesDetermineChain | src/rt-thread/mem.c:95-113 | the header bytes alone fix all links and flags |
| SmallHeap.Heap.constructor | src/rt-thread/mem.c:203-256 | one free block up to the sentinel |
| SmallHeap.Heap.Flush | src/rt-thread/mem.c:331-347 | the headers with changed fields are written and no other byte; afterwards every header in memory says what its fields are |
| SmallHeap.Heap.PlugHoles | src/rt-thread/mem.c:156-194 | both neighbours are joined if free, and `lfree` never changes here |
| SmallHeap.Heap.Search | src/rt-thread/mem.c:304-310 | the lowest free block that fits and starts low enough is found, or none exists; the search ends |
| SmallHeap.Heap.AdvanceLowest | src/rt-thread/mem.c:379-386 | `lfree` moves to the lowest free block or the sentinel |
| SmallHeap.Heap.Malloc | src/rt-thread/mem.c:271-409 | the lowest fit is granted, cut exactly when the rest can be a block; NULL only for the three stated reasons, changing nothing; statistics and payloads |
| SmallHeap.Heap.Free | src/rt-thread/mem.c:553-616 | exactly that block leaves the live ones, `lfree` is lowered to it if above, the counters follow |
| SmallHeap.Heap.Realloc | src/rt-thread/mem.c:421-516 | data kept up to the smaller size on success, nothing changed on failure, foreign pointers returned as they are, exactly when the pointer stays; it fails only for want of a block, and moves to the lowest fit |
| SmallHeap.SearchMissesOnlyTheLastExactFit | src/rt-thread/mem.c:304-310 | a free block big enough is passed over if and only if it is an exact fit that runs up to the end |
| SmallHeap.SearchEndsExact | src/rt-thread/mem.c:304-310 | on any chain, for any request that passes the size check, the search with its 64-bit guard ends if and only if the heap is at least one minimal block |
| SmallHeap.GrantCoversRequest | src/rt-thread/mem.c:289-300 | a granted block covers the request if and only if rounding it does not wrap, and then it is rounded up by less than 8 bytes, or to the minimum |
| SmallHeap.GrantExact | src/rt-thread/mem.c:296-345 | a granted block is as long as asked for, or the rest that is too short to be a block goes with it |
| SmallHeap.WrappedGranted | src/rt-thread/mem.c:289-300 | a fresh heap grants a request of 2^64 - 1 bytes with a block of its own size at most |
| SmallHeap.FreeAll | src/rt-thread/mem.c:553-616 | freeing everything, in any order, restores the initial heap |
| PageList.SamePages | src/rt-thread/slab.c:241-334 | sorted runs that do not touch are determined by the pages they hold |
| PageList.FuseRuns | src/rt-thread/slab.c:303-309 | pages between two runs join them into one |
| PageList.RunsApart | src/rt-thread/slab.c:300-301 | the assertions inside `rt_page_free` hold for pages that are not free |
| PageList.Pages.Alloc | src/rt-thread/slab.c:241-275 | the lowest run long enough gives up its first pages, none other; NULL exactly when no run is long enough or nothing is asked |
| PageList.Pages.Free | src/rt-thread/slab.c:284-334 | the free pages are the old ones and the given ones, again as maximal sorted runs |
| PageList.FreeUndoesAlloc | src/rt-thread/slab.c:241-334 | freeing what was just allocated gives back the same list |
| PageList.FreeAll | src/rt-thread/slab.c:284-334 | giving back all blocks, in any order, restores the single run |
| SlabZones.OneChunkSizePerIndex | src/rt-thread/slab.c:412-470 | the zone index of a request gives its chunk size and is the only index with that chunk size; it is in range |
| SlabZones.ChunkHolds | src/rt-thread/slab.c:412-470 | the chunk holds the request and is at most a quarter of the smallest zone for the requests that zone serves |
| SlabZones.LittleWaste | src/rt-thread/slab.c:412-470 | a chunk wastes less than 8 bytes or less than an eighth of the request |
| SlabZones.BestFit | src/rt-thread/slab.c:412-470 | no smaller class holds the request |
| SlabZones.NewZoneOk | src/rt-thread/slab.c:636-657 | a new zone has as many chunks as fit, at least two, one of them in use, and its free count is right |
| SlabZones.ChunkInside | src/rt-thread/slab.c:639-659 | chunks lie past the zone header and inside the zone |
| SlabZones.ChunksApart | src/rt-thread/slab.c:567-579 | distinct chunks do not overlap |
| SlabZones.ChunkAligned | src/rt-thread/slab.c:642-655 | chunks of a power of two are aligned to their size within the zone |
| SlabZones.PowerOfTwoExact | src/rt-thread/slab.c:642 | the recursive test for a power of two is one |
| SlabZones.TakeChunkOk | src/rt-thread/slab.c:550-579 | taking hands out one chunk that was not in use, a never-used one as long as there is one, and keeps z_nfree = z_nmax - 1 - z_uindex + returned chunks; the list is never popped empty |
| SlabZones.LastReturnedFirst | src/rt-thread/slab.c:571-577 | once every chunk has been used, the one returned last is taken next |
| SlabZones.PutChunkOk | src/rt-thread/slab.c:844-856 | returning takes exactly that chunk out of use |
| SlabZones.IdleIffUnused | src/rt-thread/slab.c:868 | z_nfree equals z_nmax if and only if no chunk is in use |
| SlabBooks.ZonesApart | src/rt-thread/slab.c:601-634 | zones do not overlap |
| SlabBooks.UsageOfChunk | src/rt-thread/slab.c:839-842 | the memusage entry of the page of a live chunk leads to its zone |
| SlabBooks.RosterTake | src/rt-thread/slab.c:550-579 | zone_array keeps listing exactly the zones with a free chunk when one is taken |
| SlabBooks.RosterPut | src/rt-thread/slab.c:844-860 | and when one is returned |
| SlabBooks.RosterRetire | src/rt-thread/slab.c:868-888 | and when an unused zone leaves its list |
| Slab.ZoneSizeFor | src/rt-thread/slab.c:386-388 | the zone size is 32, 64 or 128 KB, doubled while twice it is below the kilobytes of the heap |
| Slab.PagesForExact | src/rt-thread/slab.c:506-508 | the pages of a large block hold the request, without a spare one, if and only if it is at most 2^64 - 4096; above that none is asked for |
| Slab.NoRunExact | src/rt-thread/slab.c:506-510 | a request finds no run of pages if and only if no run has that many bytes or rounding it up wraps |
| Slab.ListForExact | src/rt-thread/slab.c:545-551 | the zones that serve a small request are those of its chunk size with a free chunk |
| Slab.Heap.constructor | src/rt-thread/slab.c:355-406 | the memusage array takes the first pages, as few as hold its entries, the rest is one run, nothing is live; the zone size follows the heap |
| Slab.Heap.FindZone | src/rt-thread/slab.c:601-634 | the zone cached last if there is one, else the first pages of the lowest run long enough; none exactly when both fail |
| Slab.Heap.Malloc | src/rt-thread/slab.c:489-678 | one new block: a chunk of the request's class from the first zone with a free one, a cached zone or a new one, or the first pages of the lowest run long enough, as few as hold the request; NULL exactly when `Refused`; every live block keeps its size |
| Slab.Heap.FreeLarge | src/rt-thread/slab.c:811-834 | the pages go back and the block leaves the live ones |
| Slab.Heap.Retire | src/rt-thread/slab.c:868-915 | an unused zone leaves its list and is cached, or released when more than two would be cached, and its pages are marked free |
| Slab.Heap.Free | src/rt-thread/slab.c:785-918 | exactly that block leaves the live ones, found through memusage; a zone leaves service exactly if this was its last live chunk and its class has another zone with a free one |
| Slab.LeavesExact | src/rt-thread/slab.c:868-869 | the test of the free count and of the list says just that |
| SlabTheorems.LiveApart | src/rt-thread/slab.c:489-678 | no byte belongs to two live blocks, to a live chunk and a zone header, or to a live block and a free page |
| SlabTheorems.RequestsApart | src/rt-thread/slab.c:489-678 | no byte that was asked for belongs to two live blocks, lies in a zone header or on a free page |
| SlabTheorems.Run | src/rt-thread/slab.c:489-918 | over any run of calls the live blocks are those handed out and not freed since, each has room for what was asked for, and none was live when it was handed out |
| SlabTheorems.LittleHeldBack | src/rt-thread/slab.c:868-915 | with nothing live, every page outside at most 72 + 2 zones and the memusage array is free |
| SlabTheorems.FreeAll | src/rt-thread/slab.c:785-918 | freeing every live block, in any order, reaches that state |
| TimerRows.RowsNest | src/rt-thread/timer.c:410-459 | every row of the skip list is a subsequence of the row below |
| TimerRows.OrderedInsert | src/rt-thread/timer.c:410-459 | inserting at each row's own scan position keeps all rows restrictions of the bottom one, which stays sorted |
| TimerRows.OrderedWithout | src/rt-thread/timer.c:165-173 | unlinking a timer from every row keeps that too |
| TimerRows.ExpiredPlaced | src/rt-thread/timer.c:606-651 | restarting a timer takes it out of the expired prefix and changes nothing else there |
| TimerRows.PlacedBehind | src/rt-thread/timer.c:399-430 | a started timer stands behind exactly the others due no later, and they keep their order |
| TimerList.ComparesExact | src/rt-thread/timer.c:427-434 | the 32-bit comparison of two deadlines less than 2^32 ticks apart is right if and only if the listed one is less than RT_TICK_MAX / 2 ahead and at most 2^32 - RT_TICK_MAX / 2 behind |
| TimerList.OrderWindow | src/rt-thread/timer.c:427-434 | it is right for every listed timer and every new deadline if and only if no listed timer is more than 3 ticks late |
| TimerList.ExpiryWindow | src/rt-thread/timer.c:615 | the expiry test agrees with true time |
| TimerList.TowerHeight | src/rt-thread/timer.c:444-459 | a timer gets between one row and all of them |
| TimerList.TowerExact | src/rt-thread/timer.c:443-461 | its tower reaches k rows if and only if the lowest k - 1 pairs of bits of the counter are zero |
| TimerList.List.constructor | src/rt-thread/timer.c:104-130 | no timer is listed; any timers may have been set up, inactive, with any period and mode |
| TimerList.List.ScanRow | src/rt-thread/timer.c:413-435 | a search from any tower not past the place stops where a scan of the whole row would |
| TimerList.List.FindHeads | src/rt-thread/timer.c:410-438 | the descent finds every row's own scan position |
| TimerList.List.InsertRows | src/rt-thread/timer.c:447-459 | the timer enters exactly the lowest rows its tower height says |
| TimerList.List.Unlink | src/rt-thread/timer.c:165-173 | the timer leaves every row and the temporary list, and nothing else moves |
| TimerList.List.Start | src/rt-thread/timer.c:364-480 | the timer lands where a linear scan puts it, behind equal deadlines, with deadline now plus its period; only it changes |
| TimerList.List.Stop | src/rt-thread/timer.c:496-520 | error without effect exactly for a timer that is not activated; otherwise exactly that timer is removed |
| TimerList.List.SetTime | src/rt-thread/timer.c:547-549 | only the period of that timer changes |
| TimerList.List.SetMode | src/rt-thread/timer.c:551-557 | only the mode of that timer changes, listed or not |
| TimerList.List.Tick | src/rt-thread/timer.c:587-605 | counting a tick keeps all comparisons valid if no timer is already 3 ticks late |
| TimerList.List.NextTimeout | src/rt-thread/timer.c:138-158 | the earliest deadline modulo 2^32, or RT_TICK_MAX, which is ambiguous in exactly the stated case |
| TimerSteps.CallPlaced | src/rt-thread/timer.c:618-637 | the steps of a check have every call of the callback of every timer that fires, in order, after the timer has left the list and before it settles |
| TimerSteps.PlacesOrdered | src/rt-thread/timer.c:606-649 | the calls stand in the order of the timers that fire, and of the calls of each callback |
| TimerSteps.StoppedStaysOff | src/rt-thread/timer.c:606-651 | a timer that the callback of an earlier one stops, and no later call starts, does not fire after that and ends up in no list |
| TimerSteps.StartedStands | src/rt-thread/timer.c:606-651 | a timer that a callback starts, and no later call starts or stops, does not fire after that and is listed for a full period from now, the one that the last call before gave it or that it had |
| TimerSteps.SettingStands | src/rt-thread/timer.c:547-557 | the last call that gives a timer a period, or a mode, stands at the end of the check |
| TimerSteps.DueFires | src/rt-thread/timer.c:606-628 | a due timer fires unless some callback starts or stops it, even if its period or mode is changed |
| TimerSteps.FiredSettles | src/rt-thread/timer.c:618-648 | a timer that fires, and that neither its callback nor a later one starts or stops, ends in no list if it is one-shot, and listed for a full period from now, the one its callback left it, if it is periodic |
| TimerCheck.RunCommand | src/rt-thread/timer.c:627-628 | one start, stop, period or mode change made inside a callback: its whole effect, and what is still to fire after it |
| TimerCheck.RunCommands | src/rt-thread/timer.c:627-628 | a callback makes all its calls, in order, and what they leave is all it does |
| TimerCheck.Settle | src/rt-thread/timer.c:637-648 | a timer that is still parked starts again exactly if it is periodic and activated; otherwise nothing changes |
| TimerCheck.Fire | src/rt-thread/timer.c:615-649 | one round: the head leaves the list, every call of its callback is made in order, and it is re-armed or left as they left it; no other step |
| TimerCheck.OwnOneShot | src/rt-thread/timer.c:637-648 | a timer whose callback makes it one-shot does not start again, but stays flagged as activated in no list |
| TimerCheck.Check | src/rt-thread/timer.c:587-659 | for any callbacks it ends, fires in list order exactly the due timers that no callback took away, leaves no due timer listed, and leaves all timers as the steps of its rounds do; a period is asked only of due periodic timers and of those that a callback starts or makes periodic |
| TimerCheck.TouchedExact | src/rt-thread/timer.c:627-628 | the timers a check leaves out of its promise on untouched ones are those that some callback of a fired timer makes a call on |
| TimerCheck.Rounds | src/rt-thread/timer.c:606-651 | with callbacks that make no timer call, the loop goes on after n rounds, for every n, if and only if some due timer is periodic with period 0 or more than n timers were due: the check ends exactly if there is none such, after one round a due timer |
| TimerCheck.FiresWhatIsDue | src/rt-thread/timer.c:606-651 | nothing early, nothing missed unless touched, in deadline order; with passive callbacks exactly the due timers |
| TimerCheck.OnTick | src/rt-thread/timer.c:587-659 | when every tick is checked, timers fire exactly at their deadlines, one started with period 0 at the next tick, and the timers end as the steps of the check leave them |
| TimerCheck.Run | src/rt-thread/timer.c:364-659 | over any run of timer calls and ticks, from any timers: one record per event with what it answered and the timers before and after, up to a start that the code asserts against or a tick with a restartable timer without a period; each tick fires, of the timers no callback touched, exactly those due |
| TimerCheck.DeadlineKept | src/rt-thread/timer.c:606-651 | over such a run, an armed timer fires at its deadline to the tick, or at the next tick if the deadline is now, unless a call is made on it first |
| TimerCheck.PeriodicOnBeat | src/rt-thread/timer.c:641-648 | a periodic timer that nobody makes a call on fires at its deadline and every period after it, and at no other tick |
| TimerCheck.OneShotOnce | src/rt-thread/timer.c:621-624 | a timer that is not listed does not fire until a call is made on it |
| WaitList.Suspend | src/rt-thread/ipc.c:110-156 | last of all, or last of its equals in urgency |
| WaitList.QueuedBehind | src/rt-thread/ipc.c:110-156 | a thread that joins a list stands behind all that were there, in a list by urgency behind exactly those at least as urgent, and the others keep their order |
| WaitList.SuspendKeepsSorted | src/rt-thread/ipc.c:123-148 | a list in order of urgency stays so: the head is a most urgent waiter, the longest waiting of its equals |
| WaitStates.ItemIn | src/rt-thread/ipc.c:2147-2150 | waking the first receiver for one more item loses no wake-up |
| WaitStates.SpaceIn | src/rt-thread/ipc.c:3285-3288 | waking the first sender for one more free place loses no wake-up |
| WaitStates.ReceiverDone | src/rt-thread/ipc.c:2326-2408 | a receiver, woken or not, that takes an item or gives up on an empty object loses no wake-up of the others |
| WaitStates.SenderDone | src/rt-thread/ipc.c:2854-2922 | a sender, woken or not, that takes a free place or gives up on a full object loses no wake-up of the others |
| WaitStates.GivesUp | src/rt-thread/thread.c:902-931 | a waiter that times out loses no wake-up |
| WaitStates.WakingKeepsTime | src/rt-thread/ipc.c:2147-2150 | waking a thread leaves every thread the time it has |
| QueueStore.TakeFree | src/rt-thread/ipc.c:2854-2922 | taking the first free block keeps the queue and the rest of the free list linked |
| QueueStore.TakeHead | src/rt-thread/ipc.c:3255-3268 | taking the first message keeps head, tail, count and links right |
| QueueStore.LinkTail | src/rt-thread/ipc.c:2929-2953 | linking behind the tail appends the message |
| QueueStore.LinkHead | src/rt-thread/ipc.c:3083-3094 | linking before the head prepends it |
| QueueStore.GiveBack | src/rt-thread/ipc.c:3281-3283 | a drained block becomes the first free one |
| QueueStore.EntryBelowMax | src/rt-thread/ipc.c:2950-2961 | while somebody holds a block, `entry` is below RT_MQ_ENTRY_MAX: the overflow exit is unreachable |
| QueueThreads.HoldersTake | src/rt-thread/ipc.c:2921-2922 | a block that a thread takes is held by it alone |
| QueueThreads.HoldersDrop | src/rt-thread/ipc.c:3281-3283 | a block that a thread gives up is held by nobody, and every other thread's is as it was |
| MessageQueue.SizeFieldExact | src/rt-thread/ipc.c:2573 | the 16-bit `msg_size` admits messages of the size asked for if and only if that is at most 65528 |
| MessageQueue.PoolFieldExact | src/rt-thread/ipc.c:2574 | the 16-bit `max_msgs` counts the blocks that fit if and only if they are fewer than 65536 |
| MessageQueue.Queue.constructor | src/rt-thread/ipc.c:2546-2597 | the queue has the blocks and message size that the 16-bit fields hold; every block is free and nothing is queued |
| MessageQueue.Queue.SendStart | src/rt-thread/ipc.c:2809-2922 | too long, full, waiting in order, or holding the first free block |
| MessageQueue.Queue.SendResume | src/rt-thread/ipc.c:2854-2922 | a woken sender takes a block, waits again or gives up, as the list and the time it has left say |
| MessageQueue.Queue.UrgentStart | src/rt-thread/ipc.c:3035-3073 | the same without waiting |
| MessageQueue.Queue.Fill | src/rt-thread/ipc.c:2929-2932 | the unlocked copy disturbs neither list nor any other thread's block |
| MessageQueue.Queue.Commit | src/rt-thread/ipc.c:2934-2984 | the message goes to the end, an urgent one to the front; the first receiver is woken |
| MessageQueue.Queue.RecvStart | src/rt-thread/ipc.c:3148-3268 | empty and out of time, waiting in order, or holding the first message |
| MessageQueue.Queue.RecvResume | src/rt-thread/ipc.c:3184-3268 | a woken receiver takes the first message, waits again or gives up, as the queue and the time it has left say |
| MessageQueue.Queue.Drain | src/rt-thread/ipc.c:3275-3276 | what is copied out unlocked is the message that was taken |
| MessageQueue.Queue.Finish | src/rt-thread/ipc.c:3278-3309 | the block is free again and the first sender is woken |
| MessageQueue.Queue.GiveUp | src/rt-thread/thread.c:902-931 | a waiter that times out leaves its list and nothing else changes |
| MessageQueue.Queue.Reset | src/rt-thread/ipc.c:3337-3373 | all waiters return, the queue is empty, its blocks are free, blocks held by threads stay theirs |
| QueueRuns.Run | src/rt-thread/ipc.c:2809-3374 | every interleaving of any calls: one record per step with what it answered and the states before and after; in every state each block is free, queued or held by one thread, and no wake-up is lost |
| QueueRuns.FirstInFirstOut | src/rt-thread/ipc.c:2934-3268 | over a run without urgent messages and resets, the messages taken are those linked, in the same order |
| QueueRuns.NothingLost | src/rt-thread/ipc.c:2934-3374 | over any run no message is lost but to a reset, and none is taken twice |
| QueueRuns.MessageOfItsCall | src/rt-thread/ipc.c:2809-2962 | a message that a step links is the one its sender's call brought, however often it waited in between |
| QueueRuns.DrainsWhatItTook | src/rt-thread/ipc.c:3255-3276 | what a receive copies out is the message that its own thread took last, as far as the buffer goes |
| QueueRuns.WaitsItsTime | src/rt-thread/ipc.c:2854-2918 | a call with a timeout that waits and is woken in vain, any number of times, gives up at the look at which the ticks it has waited reach its timeout, and not before; until then it has exactly the rest |
| QueueRuns.LookAgain | src/rt-thread/ipc.c:2869-2918 | a woken thread that finds nothing gives up if its time is over and waits again if not, one that waits for ever always |
| Mailbox.RingAppend | src/rt-thread/ipc.c:2127-2132 | storing at the in offset appends to the deque |
| Mailbox.RingPrepend | src/rt-thread/ipc.c:2234-2248 | stepping the out offset back prepends |
| Mailbox.RingPop | src/rt-thread/ipc.c:2396-2408 | reading at the out offset pops the front |
| Mailbox.Box.Append | src/rt-thread/ipc.c:2127-2145 | the same for the array in place; the RT_MB_ENTRY_MAX exit is unreachable |
| Mailbox.Box.Send | src/rt-thread/ipc.c:2025-2167 | appended, refused or waiting, exactly as room and timeout say; who is woken |
| Mailbox.Box.Urgent | src/rt-thread/ipc.c:2212-2271 | prepended or refused |
| Mailbox.Box.Recv | src/rt-thread/ipc.c:2293-2434 | the first mail, a timeout, or waiting; who is woken |
| Mailbox.Box.Reset | src/rt-thread/ipc.c:2461-2482 | empty, with nobody waiting |
| Mailbox.Run | src/rt-thread/ipc.c:2025-2434 | every interleaving of any calls: one record per step with what it answered and the states before and after; no state has a lost wake-up |
| Mailbox.FirstInFirstOut | src/rt-thread/ipc.c:2127-2408 | over a run without urgent mails and resets, the mails received are those sent, in the same order |
| Mailbox.NothingLost | src/rt-thread/ipc.c:2025-2482 | over any run no mail is lost but to a reset, and none comes out twice |
| Mailbox.MailOfItsCall | src/rt-thread/ipc.c:2025-2132 | a mail that a resumed sender puts in is the one its call brought |
| Mailbox.WaitsItsTime | src/rt-thread/ipc.c:2072-2124 | the same for its senders and receivers: a call gives up when the ticks it has waited reach its timeout, and not before |
| Mailbox.LookAgain | src/rt-thread/ipc.c:2072-2124 | what a woken thread that finds nothing does |
| MemPool.Pool.constructor | src/rt-thread/mempool.c:81-128 | all blocks free, chained in address order |
| MemPool.Pool.TryAlloc | src/rt-thread/mempool.c:327-399 | the first free block, which was not in use; or a timeout; or waiting in front of the others |
| MemPool.Pool.Free | src/rt-thread/mempool.c:407-456 | exactly that block is free again, first in line, and the first waiter is woken |
| MemPool.Run | src/rt-thread/mempool.c:311-456 | every interleaving of any calls: one record per step with what it answered and the states before and after; in every state each block is free or out, and no wake-up is lost |
| MemPool.HandedOutOnce | src/rt-thread/mempool.c:379-431 | between two answers that hand out the same block there is a release of it |
| MemPool.WaitsItsTime | src/rt-thread/mempool.c:327-375 | an allocation that waits and is woken in vain times out when the ticks it has waited reach its timeout, and not before |
| MemPool.LookAgain | src/rt-thread/mempool.c:327-375 | what a woken allocator that finds nothing does |
| EventFlags.OnePassSuffices | src/rt-thread/ipc.c:1489-1547 | after one pass nobody left waiting is satisfied by the flags left |
| EventFlags.PassSplits | src/rt-thread/ipc.c:1489-1547 | each waiter is resumed or still waits |
| EventFlags.ReceivedFairly | src/rt-thread/ipc.c:1503-1521 | a resumed thread gets all its flags, or those of them set, at least one |
| EventFlags.ConsumedOnce | src/rt-thread/ipc.c:1535-1539 | the flags of a clearing receiver reach no later receiver and are not left over |
| EventFlags.WithoutClearing | src/rt-thread/ipc.c:1489-1547 | when nobody clears, exactly the satisfied waiters are resumed, whatever the order |
| EventFlags.LeftExact | src/rt-thread/ipc.c:1535-1539 | the flags left are those there were and those sent, less exactly the flags that clearing threads received |
| EventFlags.PassStep | src/rt-thread/ipc.c:1503-1547 | a waiter is resumed if and only if all its flags, or any as it asked, are set when the pass comes to it, and then with those of its flags that are set |
| EventFlags.Event.Send | src/rt-thread/ipc.c:1467-1552 | the pass is the one above; flags are cleared only for clearing threads that received them; the -RT_EINVAL exit is never reached; nobody satisfied is left waiting |
| EventFlags.Event.Recv | src/rt-thread/ipc.c:1595-1688 | error, flags received at once, timeout, or waiting in order, exactly as the flags say; of the flags set, only those asked for are cleared |
| EventFlags.Event.Reset | src/rt-thread/ipc.c:1745-1763 | no flags, nobody waiting |
| Mutexes.OwnerMostUrgent | src/rt-thread/ipc.c:1004-1011 | the owner is at least as urgent as every waiter |
| Mutexes.WaitKeeps | src/rt-thread/ipc.c:1004-1016 | waiting boosts the owner to exactly the most urgent demand and keeps the list in order |
| Mutexes.ReleaseKeeps | src/rt-thread/ipc.c:1149-1213 | the final release gives the owner its own priority back and hands over to the first waiter |
| Mutexes.GiveUpKeeps | src/rt-thread/thread.c:902-931 | a waiter that times out leaves the owner no less urgent than needed |
| Mutexes.RestackedExact | src/rt-thread/ipc.c:1149-1213 | a mutex that changes hands leaves the others that its old owner holds in their order and is the last that its new owner got |
| Mutexes.Kernel.Take | src/rt-thread/ipc.c:912-1070 | recursive, free, refused or waiting with inheritance, with the whole new state; the discipline is kept for callers that own no other mutex |
| Mutexes.Kernel.Release | src/rt-thread/ipc.c:1108-1225 | error, one hold less, handed to the first waiter while the others keep their order, or free; the priority saved at the start is restored and no other changes |
| Mutexes.Kernel.Expire | src/rt-thread/thread.c:902-931 | exactly that waiter leaves |
| Inheritance.WaitExact | src/rt-thread/ipc.c:1004-1016 | in any state: waiting keeps every owner as urgent as its waiters if and only if the owner it boosts does not itself wait for a less urgent thread |
| Inheritance.ReleaseExact | src/rt-thread/ipc.c:1155-1212 | in any state: the final release does if and only if the priority saved with it covers the waiters of every other mutex of that thread, and the new owner covers the waiters left |
| Inheritance.SortedCovers | src/rt-thread/ipc.c:123-148 | in a list sorted by urgency the first waiter covers the others |
| Inheritance.ReleaseAnchorsExact | src/rt-thread/ipc.c:1155-1160 | in any state: the final release leaves each thread's own priority saved with the mutex it has owned longest, or its own, if and only if it gives away another one, its last one, or the next was taken at its own priority |
| Inheritance.AnchoredUnboosted | src/rt-thread/ipc.c:966-970 | under that invariant threads that own nothing run at their own priority |
| MutexRuns.Run | src/rt-thread/ipc.c:912-1225 | every interleaving of takes, releases and timeouts, with mutexes owned in any nesting: one record per step with what it answered and the states before and after |
| MutexRuns.SafeRun | src/rt-thread/ipc.c:1004-1160 | over a run, owners are as urgent as their waiters throughout if and only if every step meets the condition above, told from the state before it |
| MutexRuns.AnchoredRun | src/rt-thread/ipc.c:966-1160 | the same for saved priorities |
| MutexRuns.ReverseOrderRestores | src/rt-thread/ipc.c:966-1160 | if threads release in the reverse order of taking, however many they own, each thread that owns nothing runs at its own priority at every moment |
| MutexRuns.StartsKept | src/rt-thread/ipc.c:741-762 | all of this holds at the start |
| MutexRuns.NestingInverts | src/rt-thread/ipc.c:1155-1160 | a run with a release that is not safe, after which an owner is less urgent than its waiter |
| MutexRuns.WaitingInverts | src/rt-thread/ipc.c:1004-1011 | a run with a wait that is not safe, after which one is: inheritance is not passed on |
| MutexRuns.NestingSticks | src/rt-thread/ipc.c:966-970 | a run with a release that is not anchored, after which a thread that owns nothing keeps an inherited priority |
| FirstSet.TableLowest | src/rt-thread/kservice.c:1387-1405 | every entry of the byte table but the first is the lowest bit set of its index |
| FirstSet.FfsLowest | src/rt-thread/kservice.c:1417-1431 | 0 for 0, else one more than the number of the lowest bit set |
| FirstSet.BitOfSet | src/rt-thread/scheduler.c:676 | setting a bit of the map sets that bit and no other |
| FirstSet.BitOfClear | src/rt-thread/scheduler.c:768 | clearing one clears that bit and no other |
| ReadyQueues.EnqueueOk | src/rt-thread/scheduler.c:664-679 | a thread put at the end of its queue keeps bit map and queues in step |
| ReadyQueues.DequeueOk | src/rt-thread/scheduler.c:754-770 | and so does one taken out |
| ReadyQueues.HighestReady | src/rt-thread/scheduler.c:128-153 | the lowest bit names a queue whose head is as urgent as any ready thread of the CPU; no bit means no ready thread |
| Scheduler.OnePlace | src/rt-thread/scheduler.c:645-775 | every thread is in exactly one place: its queue, its CPU, or neither, as its state says |
| Scheduler.RescheduleKeeps | src/rt-thread/scheduler.c:325-378 | rescheduling keeps that, and leaves the CPU running a thread at least as urgent as every ready one |
| Scheduler.YieldRotates | src/rt-thread/scheduler.c:335-350 | a yield among equals runs the head of the queue and puts the caller at its end |
| Scheduler.RescheduleStays | src/rt-thread/scheduler.c:330-353 | if the current thread runs and no ready one of its CPU is more urgent, or as urgent if it has yielded, nothing changes but that a yield is used up if another thread is ready |
| Scheduler.RescheduleSwitches | src/rt-thread/scheduler.c:330-378 | otherwise the CPU goes on with the thread that has waited longest among the most urgent ready ones, a running thread goes to the end of its queue, and no other queue, thread or CPU changes |
| Scheduler.JoinedLast | src/rt-thread/scheduler.c:664-679 | a thread that joins its queue is behind all others there, and no other queue changes |
| Scheduler.PartedInOrder | src/rt-thread/scheduler.c:754-770 | a thread that leaves its queue, from whatever place, leaves the others in order, and no other queue changes |
| Scheduler.System.constructor | src/rt-thread/scheduler.c:183-227 | empty CPUs with one ready idle thread each |
| Scheduler.System.Start | src/rt-thread/scheduler.c:234-257 | the thread that has waited longest among the most urgent ready ones of the CPU runs; only its queue changes |
| Scheduler.System.Insert | src/rt-thread/scheduler.c:645-694 | a thread still on a CPU runs on, any other joins the end of its queue |
| Scheduler.System.Remove | src/rt-thread/scheduler.c:741-775 | exactly that thread leaves its queue |
| Scheduler.System.Schedule | src/rt-thread/scheduler.c:287-378 | postponed inside an interrupt, held off while locked, else the switch `Rescheduled` describes; nothing changes if the current thread has not yielded and no ready one is more urgent |
| Scheduler.System.IrqSwitch | src/rt-thread/scheduler.c:545-633 | the postponed switch, exactly when one is due; nothing but the flag changes if the current thread has not yielded and no ready one is more urgent |
| Scheduler.System.Yield | src/rt-thread/thread.c:524-537 | rescheduling with the yield mark set; postponed or held off, the mark stays and nothing else changes |
| Scheduler.System.Suspend | src/rt-thread/thread.c:809-846 | ready and running threads only; order of the others kept |
| Scheduler.System.Resume | src/rt-thread/thread.c:859-889 | back to running if it never left its CPU, else to the end of its queue |
| Scheduler.System.Startup | src/rt-thread/thread.c:323-350 | a new thread joins the end of its queue |
| Scheduler.System.ChangePriority | src/rt-thread/thread.c:705-748 | a ready thread moves to the end of its new queue, any other just changes |
| Scheduler.ScheduleInside | src/rt-thread/scheduler.c:325-381 | with the counter that the open calls of the current thread give, a CPU outside an interrupt is rescheduled if and only if that thread is in no critical section |
| LockNest.CountersExact | src/rt-thread/cpu.c:175-217 | the three counters determine and are determined by what is open |
| LockNest.OneMeansNotCritical | src/rt-thread/scheduler.c:325 | the scheduler's test for 1 means exactly not inside rt_enter_critical |
| LockNest.UndoByHandExact | src/rt-thread/scheduler.c:622-623 | the correction before an interrupt switch is right if and only if its own lock is the only one open |
| LockNest.LockUnlock | src/rt-thread/cpu.c:175-217 | rt_cpus_lock turns interrupts off, and its unlock restores everything, the interrupt state that the lock found included |
| LockNest.EnterExit | src/rt-thread/scheduler.c:814-915 | rt_enter_critical leaves interrupts as they are and its exit undoes it |
| LockNest.ScheduleReturns | src/rt-thread/scheduler.c:287-378 | a thread that rt_schedule switches away from goes on, once it is switched back to, with what it had open and with interrupts as they were |
| LockNest.InterruptReturns | src/rt-thread/scheduler.c:545-633 | a thread that an interrupt switches away from goes on with interrupts on and with what it had open; an interrupt that does not switch leaves all but the switch flag |
| LockNest.DepthCounts | src/rt-thread/cpu.c:175-217 | what a handler has open is what it opened and did not undo |
| LockNest.AllowedExact | src/rt-thread/cpu.c:175-217 | what a CPU that runs a thread may call |
| LockNest.Locks.CpusLock | src/rt-thread/cpu.c:175-195 | one more lock is open, interrupts are off, and what they were is kept for its unlock |
| LockNest.Locks.CpusUnlock | src/rt-thread/cpu.c:203-217 | one lock fewer is open, and interrupts are as the lock found them |
| LockNest.Locks.EnterCritical | src/rt-thread/scheduler.c:814-851 | one more critical section is open |
| LockNest.Locks.ExitCritical | src/rt-thread/scheduler.c:876-915 | one fewer is open, and it reschedules exactly when nothing is left open |
| LockNest.Locks.Restore | src/rt-thread/cpu.c:225-234 | the CPU goes on with a thread in the interrupt state saved for it; the spin lock is released exactly when that thread has nothing open |
| LockNest.Locks.Schedule | src/rt-thread/scheduler.c:287-378 | the switch is made exactly when one is asked for outside a critical section; then the thread stays inside its own lock with interrupts off |
| LockNest.Locks.Ask | src/rt-thread/scheduler.c:305-310 | rt_schedule inside an interrupt sets the switch flag of the CPU and nothing else |
| LockNest.Locks.Interrupt | src/rt-thread/scheduler.c:545-633 | an interrupt with any balanced locks and critical sections in its handler, and any rt_schedule: the switch that was asked for, then or before, is made exactly outside a critical section and leaves the interrupted thread with nothing open, otherwise it stays asked for; its own lock being the only one follows |
| LockNest.Run | src/rt-thread/cpu.c:175-234 | over any run of calls and interrupts on all CPUs, what is open, who runs and who takes interrupts is what the allowed calls add up to, and every thread's counters say exactly what it has open |
| LockNest.CallsCount | src/rt-thread/cpu.c:175-234 | a call that its CPU may make opens or undoes exactly one thing of its thread, or runs the thread it picks exactly when that thread has nothing critical open; nothing changes on other CPUs or for other threads |
| LockNest.MaskedThroughout | src/rt-thread/scheduler.c:325-623 | in every state of such a run interrupts are off where a lock is open, and no thread has been switched away from inside a critical section |
| IntrusiveList.Node.constructor | src/rt-thread/include/rtservice.h:47-50 | a ring of one |
| IntrusiveList.InsertAfter | src/rt-thread/include/rtservice.h:58-65 | the node comes first behind the head, the rest of the ring as before |
| IntrusiveList.InsertBefore | src/rt-thread/include/rtservice.h:73-80 | the node comes last |
| IntrusiveList.Remove | src/rt-thread/include/rtservice.h:86-92 | the node is a ring of its own and the others close up in order |
| IntrusiveList.IsEmpty | src/rt-thread/include/rtservice.h:98-101 | true exactly for the head alone |
| IntrusiveList.Length | src/rt-thread/include/rtservice.h:107-118 | the number of nodes besides the head |
| IntrusiveList.Rotate | src/rt-thread/include/rtservice.h:47-92 | a ring read from another node on is a ring |

## Left out

- Drivers, board start-up, assembly context switches, the object registry, names, hooks, logging, memory tracing and console output: register access or presentation.
- Soft timers and signals: not in the configured build.
- Semaphores: a counter and the same waiting loop as the mailbox.
- Object deletion and detaching, and deletion of running threads: taken as preconditions.
- Non-SMP branches and more than 32 priorities: not the configured build.
- CPU usage sampling and thread placement by load: a thread's CPU is a parameter of its creation.
- Weak memory and races on unlocked data: each critical region the code intends is one atomic step. The mailbox and event wake-up paths unlock where a lock is meant; the model takes the meant region.
- Pointers into an allocator are offsets from the start of its pool, with -1 for NULL, in header bytes too. The pool pointer in a memheap header is a constant.
- MemHeap.Heap.Flush: header fields reach memory at the end of each call and not one by one, and the last bytes of a header that is merged away stay in free space unwritten.
- MemHeap.Heap.constructor: asks for a pool of two headers at least and below 2^31 bytes; the code checks neither, and other pools are not covered.
- MemHeap.Heap.Realloc: leaves out requests that round to 2^64 - 8 bytes for a block before a free one, for which `MemHeap.GrowOverflowHits` shows where the code would write; and takes the allocation, copy and release of a move as one step, where the code releases the lock between them.
- SmallHeap.Heap.constructor: asks for room for one minimal block, without which `SmallHeap.SearchEndsExact` shows that `rt_malloc` does not return.
- SmallHeap.Heap.Malloc: the header field `prev` of the end sentinel is written but not maintained, as in the code, and nothing is claimed about it.
- Slab.Heap.constructor: asks for a heap below 4 GB, the range of the 32-bit size the code keeps; larger heaps are not covered.
- Slab.Heap.Malloc: takes the search for a zone and the allocation of its pages as one step, where the code releases the lock between them. The byte contents of chunks, `rt_realloc` on the slab and the memory statistics are not modelled, as the two other heaps have both.
- SlabZones.ChunkAligned: the test for a power of two is a recursive predicate, not the bit trick of the code; alignment is relative to the zone.
- TimerList.List.Start: the timer's row links are the rows themselves, one sequence a level; the links of `IntrusiveList` are not repeated here.
- TimerCheck.Check: callbacks are finite scripts of start, stop, period and mode changes, and the tick does not advance during a check, as interrupts are off on its hart. For callbacks that make timer calls it says when the check ends in one direction only.
- MemPool.Pool.constructor: asks for room for one block; smaller pools are not covered.
- MessageQueue.Queue.SendStart: how long a thread waited is a parameter of its next step; a suspended thread that times out or is reset returns at once.
- Mutexes.Kernel.Take: priorities change by inheritance only, and no thread is suspended or resumed but by mutexes.
- Scheduler.System.Schedule: a context switch is the change of the current thread; hooks, stack checks, inter-processor signals and time slices are not modelled.
- Scheduler.System.Suspend: idle threads are not suspended, so that a CPU always has a thread to run.
- LockNest.Locks.Interrupt: an interrupt is one step from entry to return, and interrupts do not nest; a thread that is switched to goes on with the interrupt state it was left with.
- EventFlags.Event.Send: an event set is the set of its flag numbers instead of a 32-bit word.
