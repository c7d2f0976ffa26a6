# RT-Thread kernel and Kconfig engine: a verified model

This project models the hard parts of the RT-Thread 4.0.1 kernel and of its Kconfig engine, and proves what they
are meant to keep. It assumes the kernel build without SMP, 32-bit words, RT_ALIGN_SIZE 4, and regions with interrupts
disabled as single steps.

* **Heaps.** `HeapLayout` and `MemHeap` (memheap.c), `SmallLayout` and `SmallMem` (mem.c), `PageRuns`, `SlabZones`,
  `SlabHeap` and `Slab` (slab.c). Each heap is a class whose methods do the pointer surgery on maps of header fields; a
  ghost layout says what the headers mean. Every method keeps tiling, coalescing, byte counts and list membership, so
  they hold after every run of calls.
* **Timers.** `TimerQueue` is a stable sorted list under the wrap-around tick comparison, `TimerRuns` its runs;
  `TimerSkipList` is the skip list on intrusive rings, which refines it for any number of levels and any counter.
* **Scheduler and threads.** `Bitmap`, `Scheduling` (queues without the index), `ReadyQueues` (the class with the one- or
  two-level bitmap) and `ThreadLaws` (what each thread operation leaves).
* **IPC.** `WaitList` and `SuspendLists` (suspended threads), and a pair of modules for each object: the steps between two
  points with interrupts enabled and their invariant over every interleaving (`SemaphoreModel`, `MutexModel`,
  `MailboxModel`, `MsgQueueModel`, `EventModel`), and the object updated in place, whose methods are proved to be these
  steps (`Semaphore`, `Mutex`, `Mailbox`, `MsgQueue`, `EventObjects`). A blocking call is cut at `rt_schedule`: the step
  up to it, and a `Continue` or `TakeReturns` step when the thread runs again. Who runs when is left open, so a statement
  about runs is about every interleaving of calls, timeouts and resumptions.
* **Kconfig.** `KconfigModel` (values from scratch), `KconfigDeps` and `KconfigCache` (dependencies and the cut-off),
  `KconfigStale` (where the cut-off fails), `KconfigObjects` (the memoising getters, invalidation and setters),
  `KconfigChoices`, `KconfigLaws` (what the values mean, without the functions that compute them), `KconfigSettings` (set
  and read back), `KconfigExpr` (printer and parser), `KconfigGrammar` (the parser accepts exactly the grammar), `DepLoop` (the startup loop check) and `KconfigRank` (what its
  success means for the values).

`Basics` holds optional values and facts about sequences. `IntrusiveList` holds the circular lists of rtservice.h, used
by memheap, the timers, the events and the semaphores directly.

Reading guide: `Valid`, `Inv`, `HeapOk` or `StateOk` is the invariant of a module; a class's `Abs()` is its value, and the
`ensures` of its methods equate the new value with a function of the old one. The lemmas about those functions carry the
meaning; those named `…Means` say what a caller sees without naming the function. Where code and documentation differ the model follows the code:

* mem.c: in a heap smaller than MIN_SIZE_ALIGNED the first-fit scan of rt_malloc has no end (`ScanEnds`), so `Malloc` asks
  for a heap that is not smaller; and after a realloc that shrinks, `lfree` need not be the lowest free block
  (`ShrinkLosesHint` is a run, `ShrunkHintLowest` says exactly when it is).
* ipc.c: a FIFO mutex can be handed to a thread while a more urgent one waits (`FifoInversion`; `HandOverInherits` says
  exactly when).
* kconfiglib.py: with a choice default that is no symbol of the choice the invalidation can leave a stale selection
  (`StaleSelection` is a configuration; `SweepComplete` says exactly when a sweep misses nothing, `UntrackedDefault` which
  configurations have all such defaults in `_dependents`); the expression printer does not keep left-nested chains
  (`RoundTripExact`).

Preconditions beyond the source's own assertions are integer-width conditions (no wrap in RT_ALIGN, a semaphore value below
65535, a mutex hold below 255, heaps below 2^31 bytes), timers within half the tick range, callbacks that leave timers
alone, and for Kconfig a configuration whose values can be computed at all (`Ranked`); for a configuration without choices
`KconfigRank` proves that the startup loop check ensures that, unless MODULES depends on a tristate symbol. Times that pass while a thread waits, the user's settings, the random counter and the bytes of messages
are parameters.

## Model

| member | source | states |
|---|---|---|
| IntrusiveList.ListMemory.Init | code/include/rtservice.h:47-50 | the node becomes a ring of its own |
| IntrusiveList.ListMemory.InsertAfter | code/include/rtservice.h:58-65 | the two link maps afterwards, exactly |
| IntrusiveList.ListMemory.InsertBefore | code/include/rtservice.h:73-80 | from any ring and any of its nodes: the ring with the node in front of that one, links of nodes outside the ring untouched |
| IntrusiveList.ListMemory.Remove | code/include/rtservice.h:86-92 | the node becomes a ring of its own, the rest stays a ring in the same order, nodes outside keep their links |
| IntrusiveList.ListMemory.IsEmpty | code/include/rtservice.h:98-101 | true exactly for a ring of the head alone |
| IntrusiveList.ListMemory.Len | code/include/rtservice.h:107-118 | the loop counts the nodes behind the head |
| IntrusiveList.LinkAfter | code/include/rtservice.h:58-65 | inserting behind any node of a ring gives the ring with the node at that place, both directions |
| IntrusiveList.RemoveRing | code/include/rtservice.h:86-92 | removal splits one ring into two rings and touches nothing else |
| IntrusiveList.RingUnique | code/include/rtservice.h:40-120 | the links determine the list: two rings from one node are the same sequence |
| HeapLayout.PayloadsDisjoint | code/src/memheap.c:138-281 | a byte of a block's payload lies inside the pool and in no other block or header |
| HeapLayout.Conservation | code/src/memheap.c:50-121 | free payload, used payload and headers add up to the pool |
| HeapLayout.TakenCanonical | code/src/memheap.c:187-258 | taking a free block, whole or cut, leaves blocks that tile the pool with no two free neighbours |
| HeapLayout.TakenLive | code/src/memheap.c:187-258 | an allocation adds exactly one live block, at the free block's address and at least as long as asked |
| HeapLayout.TakenBytes | code/src/memheap.c:230-242 | the bytes an allocation takes out of the free ones: with the new header when the block is cut, all of the block otherwise |
| HeapLayout.ReleasedCanonical | code/src/memheap.c:495-595 | a free with its merges leaves no two free neighbours and removes exactly that block from the live ones |
| HeapLayout.GrownCanonical | code/src/memheap.c:328-403 | growing in place into the next block keeps the layout canonical; free bytes fall by exactly the growth |
| HeapLayout.GrownLive | code/src/memheap.c:328-403 | growing changes the size of that one live block only, keeping its address |
| HeapLayout.ShrunkCanonical | code/src/memheap.c:419-492 | shrinking in place keeps the layout canonical, cuts that one block and gives the rest, less a header, to the free bytes |
| HeapLayout.CanonicalUnique | code/src/memheap.c:138-281 | tiling without free neighbours is determined by the live blocks: the history of calls leaves no trace |
| HeapLayout.ReleaseUndoesTake | code/src/memheap.c:495-595 | freeing what was just allocated restores the identical block list |
| HeapLayout.FitExact | code/src/memheap.c:149-151 | a request is rounded to the least multiple of RT_ALIGN_SIZE that holds it and is not below RT_MEMHEAP_MINIALLOC |
| MemHeap.ChainCut | code/src/memheap.c:209-213 | linking the header of a cut-off rest keeps next/prev the ring of all headers in address order |
| MemHeap.ChainJoin | code/src/memheap.c:549-573 | unlinking the right one of two neighbours keeps next/prev the ring of all headers in address order |
| MemHeap.MovedLive | code/src/memheap.c:408-416 | a realloc that moves: exactly the old block goes and one block of at least the new size comes; all others stay where they are |
| MemHeap.FirstFitServes | code/src/memheap.c:138-258 | taking the first block of the free list that is long enough: one live block is new, n bytes long if the rest can hold a block and otherwise the whole free block |
| MemHeap.FirstFitExists | code/src/memheap.c:169-180 | the search of the free list succeeds exactly when some free block of the heap is long enough |
| MemHeap.GrowsExactly | code/src/memheap.c:350-362 | a block can grow in place exactly when the block right behind it is free and the two together are long enough |
| MemHeap.Heap.constructor | code/src/memheap.c:50-121 | one free block between the first header and the used, zero-length tailer; the free list holds it alone |
| MemHeap.Heap.Search | code/src/memheap.c:169-180 | the loop over the free list stops at its first block with enough bytes, and fails only when none has enough |
| MemHeap.Heap.TakePart | code/src/memheap.c:187-236 | the statements that cut the block found: new block list, new free list, byte counter, high-water mark |
| MemHeap.Heap.TakeWhole | code/src/memheap.c:237-258 | the statements that hand out the whole block |
| MemHeap.Heap.Alloc | code/src/memheap.c:138-281 | every heap invariant is kept; the request, rounded to the least possible size, succeeds exactly when it is less than the free bytes and some free block is long enough, and then one live block is new, at the returned address and of that size or the whole free block; otherwise nothing changes |
| MemHeap.Heap.MergePrev | code/src/memheap.c:540-557 | merging with the left neighbour: the block list, the byte counter, and whether the header is new on the free list |
| MemHeap.Heap.MergeAndInsert | code/src/memheap.c:559-591 | merging with the right neighbour and completing the free list |
| MemHeap.Heap.Free | code/src/memheap.c:495-595 | every heap invariant is kept and exactly that block is no longer live; the layout is the one with that block released and merged with both sides, the free list as the code orders it |
| MemHeap.Heap.GrowInto | code/src/memheap.c:350-402 | growing into the next block in place: layout, free list, counter, high-water mark |
| MemHeap.Heap.ShrinkTo | code/src/memheap.c:432-492 | shrinking in place, with the merge of the rest into a free right neighbour |
| MemHeap.Heap.Realloc | code/src/memheap.c:284-492 | all branches: null pointer, size 0, growing in place, moving, shrinking, unchanged; every heap invariant is kept; which block is live afterwards, where and how long, and that every other live block stays, in terms of the free and live blocks before |
| SmallLayout.PayloadsDisjoint | code/src/mem.c:272-410 | a payload byte belongs to one block only, to no header, and lies inside the heap |
| SmallLayout.ScanExact | code/src/mem.c:305-311 | the first-fit scan stops at the first free block below the bound that is long enough, and passes only blocks that are not |
| SmallLayout.HintFaithful | code/src/mem.c:305-311 | starting behind blocks that are all used finds the same block as starting at them |
| SmallLayout.ScanEnds | code/src/mem.c:288-307 | the subtraction in the loop guard wraps exactly when the heap is smaller than MIN_SIZE_ALIGNED: then the scan runs past heap_end and has no end |
| SmallLayout.UsedTaken | code/src/mem.c:316-370 | used bytes grow by exactly the extent of the block taken |
| SmallLayout.UsedReleased | code/src/mem.c:602-607 | used bytes fall by exactly the extent of the block released |
| SmallLayout.UsedShrunk | code/src/mem.c:471-493 | used bytes fall by exactly what was cut off |
| SmallLayout.TakenLive | code/src/mem.c:316-370 | malloc makes exactly one more block live |
| SmallLayout.ReleasedLive | code/src/mem.c:589-607 | free makes exactly that block dead |
| SmallLayout.ShrunkLive | code/src/mem.c:471-493 | a shrinking realloc shortens that one block and makes nothing else live or dead |
| SmallLayout.FreeUndoesMalloc | code/src/mem.c:546-609 | freeing what was just allocated restores the identical chain |
| SmallLayout.FitExact | code/src/mem.c:289-301 | a request is rounded to the least aligned size that holds it and is not below MIN_SIZE_ALIGNED |
| SmallLayout.TakenHintLowest | code/src/mem.c:380-387 | malloc keeps lfree the lowest free block |
| SmallLayout.ReleasedHintLowest | code/src/mem.c:596-600 | free keeps lfree the lowest free block |
| SmallLayout.ShrunkHintLowest | code/src/mem.c:471-493 | after a shrinking realloc lfree is the lowest free block if and only if it was below the cut block or was the free block the rest merges with |
| SmallMem.ShrinkLosesHint | code/src/mem.c:471-493 | a run of two mallocs and a shrinking realloc after which lfree is not the lowest free block |
| SmallMem.MallocedOk | code/src/mem.c:272-410 | malloc keeps the heap well formed; from a lowest hint it keeps it lowest and takes the very block a scan from offset 0 under the same bound takes |
| SmallMem.MallocMeans | code/src/mem.c:272-410 | from a lowest hint: the request fails exactly when no free block is long enough and begins before the last n bytes, n the rounded request; otherwise the lowest such block serves it, cut to n if the rest can hold a block, and that is the one block more that is live |
| SmallMem.FreedOk | code/src/mem.c:546-609 | free keeps the heap well formed and a lowest hint lowest |
| SmallMem.CutDownOk | code/src/mem.c:471-498 | a shrinking realloc keeps the heap well formed |
| SmallMem.RunKeepsHeap | code/src/mem.c:156-609 | over every run of malloc, free and realloc: offsets ascend from 0 to heap_end, prev inverts next, no two free neighbours, used_mem is the extent of the used blocks, lfree is a free header or heap_end |
| SmallMem.RunKeepsHint | code/src/mem.c:305-607 | over every run of malloc and free without a shrinking realloc, lfree is the lowest free block |
| SmallMem.Heap.constructor | code/src/mem.c:204-257 | the aligned region holds one free block and the end header; the hint is lowest |
| SmallMem.Heap.PlugHoles | code/src/mem.c:156-194 | the headers and lfree after merging a free block with free neighbours on both sides; live payload bytes stay |
| SmallMem.Heap.Malloc | code/src/mem.c:272-410 | the exact new state and result; refused requests change nothing; no live payload byte changes |
| SmallMem.Heap.AdvanceHint | code/src/mem.c:380-387 | the loop moves lfree to the next free header or heap_end |
| SmallMem.Heap.Free | code/src/mem.c:546-609 | the exact new state; pointers outside the heap are ignored; the remaining live payloads keep their bytes |
| SmallMem.Heap.ShrinkBlock | code/src/mem.c:471-498 | cutting a block in place: exact new state, payloads (its own up to the new size) keep their bytes |
| SmallMem.Heap.MoveBlock | code/src/mem.c:501-509 | moving: exact new state; the common part of the contents is at the new place, all other payloads keep their bytes; nothing changes when there is no room |
| SmallMem.Heap.ResizedMeans | code/src/mem.c:421-510 | a size that fits exactly or leaves room for a block is served at the same address, and only that block is cut; any other size moves the block or changes nothing |
| SmallMem.Heap.Realloc | code/src/mem.c:421-510 | every branch of rt_realloc, with the contents kept up to the smaller of the two sizes |
| PageRuns.CanonicalUnique | code/src/slab.c:236-322 | the free pages determine the list: ascending, disjoint, maximal runs are unique |
| PageRuns.TakenExact | code/src/slab.c:236-270 | allocation takes exactly its pages out of the free ones and keeps the list canonical |
| PageRuns.ReturnedExact | code/src/slab.c:272-322 | freeing makes exactly those pages free and keeps the list canonical |
| PageRuns.ReturnUndoesTake | code/src/slab.c:236-322 | freeing a run just allocated restores the identical list |
| PageRuns.PageAllocator.constructor | code/src/slab.c:327-334 | one run of all pages |
| PageRuns.PageAllocator.Alloc | code/src/slab.c:236-270 | the loop takes the first run that is long enough from its front, or changes nothing and returns null |
| PageRuns.PageAllocator.FreePages | code/src/slab.c:272-322 | the loop joins the pages with the run before, the run after, both or neither, through the page heads in memory |
| PageRuns.PageAllocator.JoinBehind | code/src/slab.c:291-300 | the branch that extends a run, joining the next one when it is reached |
| SlabZones.ChunkIncreasing | code/src/slab.c:401-459 | chunk sizes grow strictly with the index 0..71 |
| SlabZones.ZoneIndexChunk | code/src/slab.c:401-459 | the index is in 0..71, and its chunk size the first that holds the request |
| SlabZones.ZoneIndexBestFit | code/src/slab.c:401-459 | the rounded size is the smallest chunk size that holds the request, and determines the index |
| SlabZones.ZoneIndexAgain | code/src/slab.c:401-459 | a rounded size has the index it was rounded for, for all 72 |
| SlabZones.ZoneIndexZero | code/src/slab.c:401-459 | request 0, which rt_malloc never passes on, would get index -1 |
| SlabZones.ZoneSize | code/src/slab.c:371-374 | the doubling loop: which zone size which heap size gets |
| SlabZones.PowerOfTwoBits | code/src/slab.c:632-635 | the test on the bits of the chunk size finds exactly the powers of two |
| SlabZones.MaskRounds | code/src/slab.c:632-638 | masking off the low bits rounds down to a multiple of a power of two |
| SlabZones.ChunksBeginBits | code/src/slab.c:628-638 | the offset of the first chunk as the source computes it on bits is the one the layout is proved for |
| SlabZones.ChunksFit | code/src/slab.c:628-648 | a new zone has room for at least two chunks, all inside it behind the header; power-of-two chunks are aligned to their size |
| SlabZones.ChunkInZone | code/src/slab.c:628-648 | every chunk lies inside its zone behind the header |
| SlabZones.ChunksPartition | code/src/slab.c:539-568 | every chunk is exactly one of live, freed, never used |
| SlabZones.NewZoneOk | code/src/slab.c:625-652 | a new zone satisfies the zone invariant and has exactly its first chunk live |
| SlabZones.HandedOk | code/src/slab.c:539-568 | handing out keeps z_nfree = (z_nmax - 1 - z_uindex) + freed chunks, and makes exactly one more chunk live |
| SlabZones.TakenBackOk | code/src/slab.c:825-846 | taking back keeps it, and makes exactly that chunk not live |
| SlabZones.HandedAgain | code/src/slab.c:556-568 | once no chunk is never-used, the chunk freed last is handed out next, which restores the zone |
| SlabZones.AllFree | code/src/slab.c:848-855 | a zone whose z_nfree has reached z_nmax has no live chunk |
| SlabZones.FreeAtMost | code/src/slab.c:539-568 | 0 <= z_nfree <= z_nmax |
| SlabHeap.ChunkPage | code/src/slab.c:615-623 | the page descriptor of any chunk ever handed out leads back to its zone |
| SlabHeap.LiveArea | code/src/slab.c:795-828 | all pages under a live area belong to one owner and none is in the page allocator |
| SlabHeap.LiveApart | code/src/slab.c:478-667 | two live areas share no byte |
| SlabHeap.HandOutOk | code/src/slab.c:539-577 | a chunk from a listed zone: nobody's before, live after, nothing else changed for callers |
| SlabHeap.InstallOk | code/src/slab.c:625-652 | a new zone: its first chunk is live, nothing else changed for callers |
| SlabHeap.TakeInOk | code/src/slab.c:825-846 | a freed chunk is no longer live, nothing else changed for callers |
| SlabHeap.RetireOk | code/src/slab.c:854-874 | retiring an all-free zone changes nothing for callers |
| SlabHeap.WithLargeOk | code/src/slab.c:493-521 | a large allocation: its pages were nobody's, its address is the only new live one |
| SlabHeap.WithoutLargeOk | code/src/slab.c:795-820 | freeing a large allocation: its address is the only one no longer live |
| SlabHeap.WithZonePagesOk | code/src/slab.c:601-623 | fresh pages described as a zone's change nothing for callers |
| SlabHeap.WithoutZonePagesOk | code/src/slab.c:876-900 | giving a kept zone's pages back changes nothing for callers |
| Slab.SlabAllocator.constructor | code/src/slab.c:344-395 | an empty heap that satisfies all invariants; which zone size which heap gets; all pages are free but those of the page descriptors |
| Slab.SlabAllocator.Malloc | code/src/slab.c:478-667 | over all branches: a granted address was nobody's, has the bytes asked for and less than a page more, and is the only change for callers; refused only when no page run has the bytes, or for small requests those of a zone |
| Slab.SlabAllocator.MallocLarge | code/src/slab.c:489-521 | requests from zone_limit on go to the page allocator |
| Slab.SlabAllocator.MallocListed | code/src/slab.c:539-577 | the first zone on the index's list serves the request; it leaves the list exactly when exhausted |
| Slab.SlabAllocator.MallocNewZone | code/src/slab.c:587-659 | a kept zone, else fresh pages, becomes a new zone |
| Slab.SlabAllocator.Free | code/src/slab.c:771-904 | exactly the given address is no longer live; the zone or run is recovered from the page descriptors |
| Slab.SlabAllocator.FreeChunk | code/src/slab.c:822-904 | a zone returns to its list when it has free chunks again, and is retired when all are free and another zone is listed |
| Slab.SlabAllocator.RetireZone | code/src/slab.c:862-874 | a retired zone leaves the active zones and the list of its index |
| Slab.SlabAllocator.ReleaseZone | code/src/slab.c:876-900 | beyond the threshold the first kept zone's pages go back to the page allocator |
| TimerQueue.WindowOrder | code/src/timer.c:354-366 | inside a half-range window the modulo-2^32 comparison is the order of the distances from the window's base, wrapping or not |
| TimerQueue.PlaceSplits | code/src/timer.c:342-370 | everything before the insertion place is due no later, everything from it on strictly later |
| TimerQueue.SplitsUnique | code/src/timer.c:342-370 | that place is the only one, so the order is stable |
| TimerQueue.StartValid | code/src/timer.c:296-413 | start keeps the list sorted and ACTIVATED iff listed, and puts the timer behind all timers due no later |
| TimerQueue.StopValid | code/src/timer.c:422-447 | stop keeps the list sorted and ACTIVATED iff listed; it takes that timer off the list and leaves all others as they were |
| TimerQueue.StopUndoesStart | code/src/timer.c:296-447 | stopping a timer undoes starting it |
| TimerQueue.DueExact | code/src/timer.c:507-517 | the expired timers are exactly a prefix of the list |
| TimerQueue.FireHeadStep | code/src/timer.c:507-547 | firing the first timer leaves the other due timers in front and no more due than before |
| TimerQueue.FireAll | code/src/timer.c:494-553 | one check fires each due timer once, stops the one-shot ones, restarts the periodic ones from now, changes nothing else, and leaves none expired |
| TimerQueue.FireSome | code/src/timer.c:494-553 | after some firings the remaining due timers are the front of the list: they fire in timeout order, ties in start order |
| TimerQueue.Restarted | code/src/timer.c:532-538 | a periodic timer restarted from now is not due now |
| TimerQueue.AheadIsDifference | code/src/timer.c:359-363 | the model of tick subtraction is the difference modulo 2^32 |
| TimerQueue.InitValid | code/src/timer.c:80-104 | a timer just initialised is not started, and changes nothing else |
| TimerQueue.ArmedInit | code/src/timer.c:80-104 | initialising a timer keeps all timers within the window |
| TimerQueue.ArmedStart | code/src/timer.c:319-324 | a delay of 1 up to half the range keeps all timers within the window |
| TimerQueue.ArmedStop | code/src/timer.c:422-447 | a stop keeps all timers within the window |
| TimerQueue.ArmedTick | code/src/timer.c:494-517 | at the next tick the due timers are exactly those whose timeout equals it |
| TimerSkipList.UpperRowSubsequence | code/src/timer.c:379-391 | each row is a subsequence of every row below it |
| TimerSkipList.RowsInsert | code/src/timer.c:342-391 | rows found by the search and linked up to a level are the rows of the list with the timer at the plain list's place |
| TimerSkipList.RowsErase | code/src/timer.c:121-129 | removal erases the timer from every row |
| TimerSkipList.RemoveUndoesInsert | code/src/timer.c:121-391 | removing a timer just inserted gives back every row |
| TimerSkipList.TimerList.InitTimer | code/src/timer.c:80-104 | the loop makes every row member a ring of its own; the timer is known and not started, the rows are untouched |
| TimerSkipList.TimerList.Remove | code/src/timer.c:121-129 | unlinking all row members through the intrusive rings |
| TimerSkipList.TimerList.FindPlaces | code/src/timer.c:342-370 | the nested search loops end on every level at the last node due no later |
| TimerSkipList.TimerList.LinkRows | code/src/timer.c:376-391 | linking the bottom row and as many upper rows as the bits of random_nr say, for any random_nr |
| TimerSkipList.TimerList.Start | code/src/timer.c:296-413 | for any number of levels and any random_nr the skip list is the plain stable sorted list with the timer started |
| TimerSkipList.TimerList.Stop | code/src/timer.c:422-447 | the plain list's stop; -RT_ERROR exactly for a timer that is not active |
| TimerSkipList.TimerList.NextTimeout | code/src/timer.c:108-119 | a timeout of a started timer that none is before, or RT_TICK_MAX |
| TimerSkipList.TimerList.Fire | code/src/timer.c:507-547 | one round of the loop is one firing of the plain list |
| TimerSkipList.TimerList.Check | code/src/timer.c:494-553 | the callbacks made are exactly the expired timers, each once, in list order; none is expired afterwards; the loop ends |
| TimerRuns.StepKeeps | code/src/timer.c:80-553 | initialising, starting, stopping and ticking keep the list sorted and all timers within the window |
| TimerRuns.Waits | code/src/timer.c:494-519 | whatever another timer does, a started timer goes on waiting, one tick less with each tick; the next tick expires it exactly when one is left |
| TimerRuns.FiresOnTime | code/src/timer.c:296-553 | over every run a timer fires neither early nor late: after any ticks fewer than were left it waits with the rest, and the next one expires it exactly when it is the last |
| TimerRuns.StartedFires | code/src/timer.c:296-553 | a timer started with delay d waits through any d - 1 ticks, and the d-th fires it |
| TimerRuns.FiresAgain | code/src/timer.c:507-547 | when it fires, a periodic timer is started again for its whole period and any other timer is stopped |
| TimerRuns.FromNothing | code/src/timer.c:80-553 | every run from no timers at all keeps the list sorted and all timers within the window |
| TimerSkipList.TimerList.TickIncrease | code/src/clock.c:72-98 | with all timers in the window, each tick fires exactly the timers due at it, across wrap-around, and keeps the window |
| Bitmap.LowestBitExact | code/src/kservice.c:1257-1275 | the table gives the lowest set bit of every byte but 0 |
| Bitmap.FfsExact | code/src/kservice.c:1287-1301 | 0 for 0, else one more than the number of the lowest set bit |
| Bitmap.SetClear | code/src/scheduler.c:677-681 | setting and clearing one bit changes that bit only |
| Bitmap.NoBits | code/src/scheduler.c:764-775 | a word is 0 exactly when no bit is set |
| Bitmap.WordSets | code/src/ipc.c:1043-1095 | the word operations are intersection, union and difference of bit sets |
| Bitmap.SubsetBits | code/src/ipc.c:1066-1068 | a & b == a says that all bits of a are in b |
| Bitmap.MeetBits | code/src/ipc.c:1072-1074 | a & b != 0 says that a and b share a bit |
| Scheduling.HighestIsMostUrgent | code/src/scheduler.c:170-192 | the head of the first non-empty list is a most urgent READY thread, and none is READY when all lists are empty |
| Scheduling.TakeQueued | code/src/scheduler.c:749-779 | removal keeps READY threads in exactly the list of their priority and the current thread in none |
| Scheduling.InsertQueued | code/src/scheduler.c:652-686 | insertion keeps that, too |
| Scheduling.ScheduleQueued | code/src/scheduler.c:399-499 | a schedule keeps that, too |
| Scheduling.ScheduleThread | code/src/scheduler.c:399-499 | a schedule changes no thread but for READY/RUNNING, and nobody's ability to run |
| Scheduling.ScheduleMostUrgent | code/src/scheduler.c:399-499 | with something runnable, a most urgent runnable thread is RUNNING afterwards; the current thread is kept exactly when it is RUNNING and strictly more urgent than every READY one |
| Scheduling.RoundRobinFair | code/src/scheduler.c:399-499 | of k threads sharing the top priority, the i-th next call runs the i-th, and k calls restore the very state |
| ReadyQueues.SearchExact | code/src/scheduler.c:170-192 | the one- or two-level bit search through __rt_ffs finds the first non-empty list |
| ReadyQueues.RemovedIndex | code/src/scheduler.c:764-775 | clearing the bits of an emptied list keeps every bit set exactly for the non-empty lists |
| ReadyQueues.Scheduler.constructor | code/src/scheduler.c:199-247 | all lists empty, all bits clear |
| ReadyQueues.Scheduler.GetHighest | code/src/scheduler.c:170-192 | the head of the lowest-numbered non-empty list |
| ReadyQueues.Scheduler.InsertThread | code/src/scheduler.c:652-686 | the thread joins its list's end and its bits are set |
| ReadyQueues.Scheduler.RemoveThread | code/src/scheduler.c:749-779 | the thread leaves its list; bits are cleared exactly when it empties |
| ReadyQueues.Scheduler.SwitchThread | code/src/scheduler.c:432-485 | the switch proper, with the outgoing thread re-inserted if it was RUNNING |
| ReadyQueues.Scheduler.Schedule | code/src/scheduler.c:399-499 | the schedule of the specification when unlocked, nothing when locked; index and queues agree afterwards |
| ReadyQueues.Scheduler.Start | code/src/scheduler.c:254-278 | the first switch |
| ReadyQueues.Scheduler.EnterCritical | code/src/scheduler.c:819-834 | the lock nest counts up, nothing else changes |
| ReadyQueues.Scheduler.ExitCritical | code/src/scheduler.c:879-904 | leaving the outermost section schedules |
| ReadyQueues.Scheduler.Init | code/src/thread.c:117-206 | a thread in state INIT with its priority and time slice |
| ReadyQueues.Scheduler.Startup | code/src/thread.c:286-318 | number and masks are computed, the thread becomes READY and a running system schedules |
| ReadyQueues.Scheduler.Exit | code/src/thread.c:80-115 | the current thread closes, leaves all queues, and another one runs |
| ReadyQueues.Scheduler.Delete | code/src/thread.c:428-459 | the thread closes and leaves all queues |
| ReadyQueues.Scheduler.ChangePriority | code/src/thread.c:568-611 | a READY thread moves to the list of its new priority, others only get new masks; index and queues agree |
| ReadyQueues.Scheduler.Suspend | code/src/thread.c:655-694 | READY and RUNNING threads leave their list; -RT_ERROR and no change for others |
| ReadyQueues.Scheduler.Resume | code/src/thread.c:704-738 | a SUSPEND thread becomes READY in its list; -RT_ERROR and no change for others |
| ReadyQueues.Scheduler.Timeout | code/src/thread.c:747-769 | a waiting thread becomes READY, and a schedule follows |
| ReadyQueues.Scheduler.TickIncrease | code/src/clock.c:72-98 | a used-up time slice is refilled and the thread yields |
| ThreadLaws.ReprioritisedMeans | code/src/thread.c:568-611 | changing a priority: the thread has exactly the priority asked for and masks to match, a READY one is the last of that list and in no other; its state, initial priority and time slice, all other threads and their order in every list stay |
| ThreadLaws.SuspendedMeans | code/src/thread.c:655-694 | suspend: a READY or RUNNING thread ends in SUSPEND and in no list, nothing else changes; any other thread, and everything else, stays |
| ThreadLaws.ResumedMeans | code/src/thread.c:704-738 | resume: a SUSPEND thread is READY and the last of its priority's list, or RUNNING if it never stopped; any other stays |
| ThreadLaws.ClosedMeans | code/src/thread.c:428-459 | delete and detach: the thread ends in CLOSE and in no list, nothing else changes |
| ThreadLaws.StartedMeans | code/src/thread.c:286-312 | startup: the thread is READY at its initial priority, the last of that list, nothing else changes |
| ThreadLaws.StartUpMeans | code/src/thread.c:286-318 | startup with its schedule: the thread can run, at its initial priority, and with the scheduler unlocked a most urgent thread runs |
| ThreadLaws.ExitedMeans | code/src/thread.c:80-115 | exit: the current thread ends in CLOSE, and with the scheduler unlocked a most urgent thread runs; the others are switched at most |
| ThreadLaws.TimedOutMeans | code/src/thread.c:747-769 | timeout: the waiting thread can run, and with the scheduler unlocked a most urgent thread runs; the others are switched at most |
| ThreadLaws.TickedMeans | code/src/clock.c:72-98 | a time slice of one tick starts again in full and the system schedules; any other loses one tick and nothing else happens |
| ThreadLaws.ScheduledMeans | code/src/scheduler.c:399-499 | a schedule with the scheduler unlocked leaves a most urgent thread running, threads change at most between READY and RUNNING; locked, nothing happens |
| ThreadLaws.FirstSwitchMeans | code/src/scheduler.c:254-278 | the first switch: a most urgent READY thread runs and is in no list, nothing else changes |
| WaitList.PlaceExact | code/src/ipc.c:92-118 | a PRIO waiter goes behind all at least as urgent and before all less urgent ones: FIFO among equals |
| WaitList.InsertSorted | code/src/ipc.c:92-118 | a priority-sorted list stays sorted |
| WaitList.QueuedProps | code/src/ipc.c:79-122 | queueing adds exactly that thread, once |
| WaitList.QueuedInTurn | code/src/ipc.c:79-122 | first come, first served: queueing keeps any two waiters of a FIFO list, and any two of one priority on a PRIO list, in the order they came |
| WaitList.TailInTurn | code/src/ipc.c:133-146 | so does resuming the first waiter |
| WaitList.ErasedInTurn | code/src/ipc.c:133-181 | so does taking out a waiter |
| WaitList.HeadIsNext | code/src/ipc.c:133-146 | the head of a list in order is the waiter whose turn it is: the one that came first, on a PRIO list among the most urgent; and no other is |
| WaitList.QueuedJoined | code/src/ipc.c:79-122 | a newcomer is the last of a FIFO list, and on a PRIO list behind all at least as urgent and before all less urgent |
| WaitList.QueuedOrdered | code/src/ipc.c:79-122 | queueing keeps a list in order |
| WaitList.ErasedOrdered | code/src/ipc.c:133-181 | so does taking out a waiter |
| WaitList.ListSuspend | code/src/ipc.c:79-122 | the search loop puts the thread at the specified place |
| WaitList.ListResumeAll | code/src/ipc.c:156-181 | every waiter gets -RT_ERROR, nobody else is touched |
| SuspendLists.SuspendList.Suspend | code/src/ipc.c:79-122 | the same on the intrusive list: the loop follows the links of the ring |
| SuspendLists.SuspendList.FindPlace | code/src/ipc.c:97-117 | the loop ends at the node of the first less urgent waiter, or at the list head |
| SuspendLists.SuspendList.RemoveFirst | code/src/ipc.c:133-146 | the first waiter leaves the ring |
| SuspendLists.SuspendList.Remove | code/src/ipc.c:133-146 | a waiter leaves the ring, the others keep their order |
| SuspendLists.SuspendList.ResumeAll | code/src/ipc.c:156-181 | the loop empties the ring from the front, each thread with -RT_ERROR |
| SemaphoreModel.TakeKeeps | code/src/ipc.c:323-409 | take keeps the invariant; with units it succeeds and there is one less; without, it returns -RT_ETIMEOUT and changes nothing if the timeout is 0, and otherwise waits |
| SemaphoreModel.ReleaseKeeps | code/src/ipc.c:432-471 | release hands its unit to the waiter whose turn it is, or adds it to the value if nobody waits |
| SemaphoreModel.ResetKeeps | code/src/ipc.c:482-515 | a reset sets the value to the argument modulo 65536, empties the wait list, and every take that waited fails with -RT_ERROR |
| SemaphoreModel.RunKeeps | code/src/ipc.c:323-515 | over every interleaving with timeouts and resets the wait list is sorted by priority and, among equals, by arrival, and nobody waits while there are units |
| SemaphoreModel.UnitsConserved | code/src/ipc.c:323-471 | initial value plus releases equal value, takes that returned RT_EOK and units in the hands of woken threads, over every run |
| Semaphore.SemaphoreObject.constructor | code/src/ipc.c:198-220 | a semaphore with its value and no waiters |
| Semaphore.SemaphoreObject.Take | code/src/ipc.c:323-409 | the take step of the specification, on the intrusive list |
| Semaphore.SemaphoreObject.Continue | code/src/ipc.c:395-408 | the result of a take that waited |
| Semaphore.SemaphoreObject.Release | code/src/ipc.c:432-471 | the release step |
| Semaphore.SemaphoreObject.ControlReset | code/src/ipc.c:482-515 | all waiters fail, the value is the argument cut to 16 bits |
| Semaphore.SemaphoreObject.ThreadTimeout | code/src/thread.c:747-769 | a waiter leaves the list with -RT_ETIMEOUT |
| MutexModel.TakeKeeps | code/src/ipc.c:653-778 | take keeps the invariant; -RT_EOK means ownership |
| MutexModel.TakeOutcome | code/src/ipc.c:653-778 | take succeeds at once exactly when the mutex is free or the caller's; otherwise it returns -RT_ETIMEOUT and changes nothing if the timeout is 0, and else waits |
| MutexModel.LastRelease | code/src/ipc.c:789-880 | the owner's last release hands the mutex to the waiter whose turn it is, or frees it when nobody waits |
| MutexModel.HoldCounts | code/src/ipc.c:653-880 | over every run the hold count of an owner that runs is its takes that returned RT_EOK less its releases, and only the owner's balance is above 0 |
| MutexModel.MutualExclusion | code/src/ipc.c:653-880 | over every run no two threads have taken the mutex more often than they have released it |
| MutexModel.NthRelease | code/src/ipc.c:789-880 | a thread with n takes to its account keeps the mutex through n - 1 releases and gives it up at the n-th |
| MutexModel.StepUrged | code/src/ipc.c:720-727 | the owner's priority is the most urgent among its own and those of all that have started to wait since it became the owner |
| MutexModel.InheritKeeps | code/src/ipc.c:720-727 | inheritance changes the owner's priority only, which then is at least as urgent as the waiter's |
| MutexModel.ReturnKeeps | code/src/ipc.c:751-777 | a take that waited and returns -RT_EOK returns to the owner, with hold 1 |
| MutexModel.ReleaseKeeps | code/src/ipc.c:789-880 | release keeps the invariant, fails exactly for non-owners, and the last one restores the priority held at acquisition |
| MutexModel.HandOverInherits | code/src/ipc.c:840-860 | right after a hand-over the new owner is at least as urgent as all waiters if and only if no other waiter was more urgent than it, which a PRIO list guarantees |
| MutexModel.FifoInversion | code/src/ipc.c:840-860 | a FIFO mutex, where it fails |
| MutexModel.RunKeeps | code/src/ipc.c:653-880 | over every interleaving of takes, releases, timeouts and returns: value 1 iff no owner iff hold 0, and then no waiters; the list sorted by priority and, among equals, by arrival; the owner of a PRIO mutex at least as urgent as every waiter |
| MutexModel.TimeoutKeeps | code/src/thread.c:747-769 | a timed-out waiter leaves, the invariant stays |
| Mutex.MutexObject.constructor | code/src/ipc.c:529-551 | a free mutex |
| Mutex.MutexObject.Take | code/src/ipc.c:653-778 | the take step of the specification |
| Mutex.MutexObject.TakeReturns | code/src/ipc.c:751-777 | the result of a take that waited; -RT_EOK only to the owner |
| Mutex.MutexObject.Release | code/src/ipc.c:789-880 | the release step; the last release gives the holder back its priority |
| Mutex.MutexObject.ThreadTimeout | code/src/thread.c:747-769 | the timeout step |
| MailboxModel.SendMeans | code/src/ipc.c:1441-1560 | how a send ends: RT_EOK with the mail at the end of the contents and the receiver whose turn it is resumed, -RT_EFULL for a full box and timeout 0, or waiting with that mail and timeout |
| MailboxModel.RecvMeans | code/src/ipc.c:1589-1713 | how a receive ends: the first mail and the sender whose turn it is resumed, -RT_ETIMEOUT for an empty box and timeout 0, or waiting |
| MailboxModel.ResumeMeans | code/src/ipc.c:1511-1532 | a resumed thread returns the error it was resumed with, or tries again what it asked for |
| MailboxModel.WrapIsModulo | code/src/ipc.c:1536-1539 | the index wrap is the remainder modulo the size |
| MailboxModel.PutAtEnd | code/src/ipc.c:1534-1541 | a stored mail is the last of the contents; in_offset = (out_offset + entry) mod size stays |
| MailboxModel.GetAtFront | code/src/ipc.c:1682-1690 | a fetched mail is the first of the contents; the offset equation stays |
| MailboxModel.SendKeeps | code/src/ipc.c:1441-1560 | send keeps the invariant and appends the mail to those sent exactly when it returns -RT_EOK |
| MailboxModel.RecvKeeps | code/src/ipc.c:1589-1713 | receive keeps the invariant and appends the mail to those received |
| MailboxModel.ResumeKeeps | code/src/ipc.c:1511-1532 | a resumed sender or receiver that goes back to the test keeps the invariant: it alone answers for its wakeup |
| MailboxModel.ResetKeeps | code/src/ipc.c:1725-1757 | a reset empties box and lists, every waiting call fails, and the invariant stays |
| MailboxModel.RunKeeps | code/src/ipc.c:1441-1757 | over every interleaving of sends, receives, timeouts, resumptions and resets no wakeup is lost, and what was received is a prefix of what was sent |
| MailboxModel.Quiescent | code/src/ipc.c:1441-1713 | with no resumed thread still to run, receivers wait only for an empty box and senders only for a full one |
| MailboxModel.TimeOutKeeps | code/src/thread.c:747-769 | a timed-out waiter leaves, the invariant stays |
| Mailbox.MailboxObject.constructor | code/src/ipc.c:1293-1322 | an empty box |
| Mailbox.MailboxObject.Store | code/src/ipc.c:1534-1554 | the store through the array and its index, and the wakeup of one receiver |
| Mailbox.MailboxObject.Fetch | code/src/ipc.c:1682-1705 | the fetch, and the wakeup of one sender |
| Mailbox.MailboxObject.SendWait | code/src/ipc.c:1441-1560 | the send step of the specification |
| Mailbox.MailboxObject.Recv | code/src/ipc.c:1589-1713 | the receive step |
| Mailbox.MailboxObject.Continue | code/src/ipc.c:1511-1532 | a resumed thread: its error, or the test again with the waiting time that is left |
| Mailbox.MailboxObject.ControlReset | code/src/ipc.c:1725-1757 | the reset step |
| Mailbox.MailboxObject.ThreadTimeout | code/src/thread.c:747-769 | the timeout step |
| MsgQueueModel.GrabKeeps | code/src/ipc.c:1974-1997 | taking a slot keeps the invariant; -RT_EFULL only when the free list is empty |
| MsgQueueModel.FillKeeps | code/src/ipc.c:1999-2002 | copying with interrupts enabled touches no queued message and no other call's slot |
| MsgQueueModel.EnqueueKeeps | code/src/ipc.c:2004-2039 | linking at the end or, urgent, at the head keeps partition, order, contents and wakeups |
| MsgQueueModel.EnqueueOrdered | code/src/ipc.c:2006-2104 | urgent messages stay in front, latest first; the others behind them in the order of linking |
| MsgQueueModel.RecvKeeps | code/src/ipc.c:2160-2250 | receiving takes the first message, or waits; the invariant stays |
| MsgQueueModel.ResumeKeeps | code/src/ipc.c:2214-2235 | a resumed receiver that goes back to the test keeps the invariant |
| MsgQueueModel.CopyOutKeeps | code/src/ipc.c:2252-2253 | copying out with interrupts enabled keeps the invariant |
| MsgQueueModel.PutBackKeeps | code/src/ipc.c:2255-2265 | the slot goes back to the free list; the bytes received agree with the message sent as far as both go |
| MsgQueueModel.ResetKeeps | code/src/ipc.c:2279-2322 | a reset moves exactly the queued slots to the free list; slots in flight stay where they are |
| MsgQueueModel.RunKeeps | code/src/ipc.c:1963-2322 | at every point with interrupts enabled, over every interleaving: each slot is on the free list, in the queue, or with exactly one call; entry is the queue length; order and bytes are kept; no receiver misses a message |
| MsgQueueModel.GrabMeans | code/src/ipc.c:1963-1997 | how a send begins: -RT_ERROR for a message too long, -RT_EFULL without a free slot, else a free slot held with exactly what is to be sent |
| MsgQueueModel.FillMeans | code/src/ipc.c:1999-2002 | the slot begins with the caller's bytes; every other slot stays |
| MsgQueueModel.EnqueueMeans | code/src/ipc.c:2004-2104 | the message goes behind all others, an urgent one before them, and the first waiting receiver is resumed |
| MsgQueueModel.RecvMeans | code/src/ipc.c:2138-2250 | how a receive begins: with the first message, with -RT_ETIMEOUT for an empty queue and timeout 0, or waiting at its place in the list |
| MsgQueueModel.ResumeMeans | code/src/ipc.c:2214-2235 | a resumed receiver returns the error it was resumed with, or tries again with the time left |
| MsgQueueModel.CopyOutMeans | code/src/ipc.c:2252-2253 | a receiver gets the whole message first if it asks for that many bytes, and otherwise exactly the bytes it asks for of it |
| MsgQueueModel.PutBackMeans | code/src/ipc.c:2255-2265 | what was copied is delivered, and the slot is free again |
| MsgQueueModel.ResetMeans | code/src/ipc.c:2279-2322 | a reset frees exactly the queued slots, and every waiting receive fails |
| MsgQueueModel.NodesConserved | code/src/ipc.c:1963-2266 | free slots, queued messages and calls under way add up to max_msgs |
| MsgQueueModel.FullExactly | code/src/ipc.c:1983-1994 | a message is refused as one too many if and only if every slot is queued or with a call under way |
| MsgQueueModel.Quiescent | code/src/ipc.c:2138-2250 | with no resumed receiver still to run, receivers wait only for an empty queue |
| MsgQueueModel.TimeOutKeeps | code/src/thread.c:747-769 | a timed-out receiver leaves, the invariant stays |
| MsgQueue.NodesApart | code/src/ipc.c:1802-1821 | the slots lie one after the other inside the pool and hold the largest message |
| MsgQueue.ChainUnique | code/src/ipc.c:1809-1821 | the pointers alone determine the lists |
| MsgQueue.MessageQueue.constructor | code/src/ipc.c:1780-1826 | the loop links every slot into the free list; the queue is empty |
| MsgQueue.MessageQueue.Grab | code/src/ipc.c:1963-1997 | the first stretch of send and urgent: too long, full, or one slot taken |
| MsgQueue.MessageQueue.Fill | code/src/ipc.c:1999-2002 | the copying, and the link write of send; no other call and neither list sees it |
| MsgQueue.MessageQueue.Append | code/src/ipc.c:2006-2017 | head, tail and link after send: the queue with the slot at its end; the tail is the last slot |
| MsgQueue.MessageQueue.Prepend | code/src/ipc.c:2095-2101 | head, tail and link after urgent: the queue with the slot at its head |
| MsgQueue.MessageQueue.LinkMessage | code/src/ipc.c:2004-2039 | the last stretch of send and urgent, with the wakeup, whatever other calls did since the copying: the link written then is still there |
| MsgQueue.MessageQueue.Receive | code/src/ipc.c:2138-2250 | the first stretch of receive: time-out at once, waiting, or a slot taken |
| MsgQueue.MessageQueue.Unlink | code/src/ipc.c:2237-2244 | head and tail without the first slot; the tail is RT_NULL exactly when the queue is empty |
| MsgQueue.MessageQueue.Continue | code/src/ipc.c:2214-2250 | a resumed receiver: its error, or the test again with the waiting time that is left |
| MsgQueue.MessageQueue.CopyMessage | code/src/ipc.c:2252-2253 | no more bytes than a slot holds are copied |
| MsgQueue.MessageQueue.Release | code/src/ipc.c:2255-2265 | the last stretch of receive |
| MsgQueue.LinksStay | code/src/ipc.c:1999-2011 | relinking a list leaves the links that interrupted sends have written |
| MsgQueue.MessageQueue.Drain | code/src/ipc.c:2296-2311 | the loop moves the queued slots to the free list, from the head on, and leaves the tail RT_NULL |
| MsgQueue.MessageQueue.ControlReset | code/src/ipc.c:2279-2322 | the reset step |
| MsgQueue.MessageQueue.ThreadTimeout | code/src/thread.c:747-769 | the timeout step |
| EventModel.SatisfiedBits | code/src/ipc.c:1062-1081 | an AND thread is satisfied exactly when every bit it wants is in the event word, an OR thread exactly when some bit is; either gets the wanted bits that are there |
| EventModel.SendMeans | code/src/ipc.c:1028-1110 | a send bit by bit: the walk starts with the old and the sent bits; a waiter whose bits are there when its turn comes returns with the wanted ones that are there, which go if it asked to clear; every other waiter goes on waiting |
| EventModel.RecvMeans | code/src/ipc.c:1126-1214 | receive returns RT_EOK at once exactly when every wanted bit, or with OR some, is in the event word, with exactly those, and clears exactly the wanted ones if asked to; otherwise -RT_ETIMEOUT for timeout 0, else it waits |
| EventModel.ScanOk | code/src/ipc.c:1056-1099 | one walk: each waiter is resumed or stays; none that stays is satisfied by the bits left at the end, although CLEAR waiters shrink the set on the way; each resumed one got what it asked for; no bit went to two CLEAR waiters or got lost |
| EventModel.ScanExact | code/src/ipc.c:1057-1099 | a waiter is resumed if and only if the bits left by those before it satisfy it, and its recorded set is its share of exactly those |
| EventModel.ClearsWhatItGets | code/src/ipc.c:1086-1091 | the bits a CLEAR thread takes out of the set are exactly the ones recorded for it |
| EventModel.SendConserves | code/src/ipc.c:1028-1110 | old and sent bits are those left and those recorded for the CLEAR waiters resumed, each once |
| EventModel.SendKeeps | code/src/ipc.c:1028-1110 | after a send no suspended thread is satisfied |
| EventModel.RecvKeeps | code/src/ipc.c:1126-1236 | after a receive no suspended thread is satisfied, whatever bits it took |
| EventModel.ReturnKeeps | code/src/ipc.c:1213-1235 | a receive that waited returns its error or the recorded bits, which are not 0 |
| EventModel.ResetKeeps | code/src/ipc.c:1248-1276 | a reset leaves no bit, every waiting receive fails, and the invariant stays |
| EventModel.RunKeeps | code/src/ipc.c:1028-1276 | the invariant holds over every interleaving of sends, receives, timeouts, returns and resets |
| EventModel.NobodyWaitsInVain | code/src/ipc.c:1028-1276 | in every reachable state some bit that a suspended AND thread wants is missing from the event word, and no bit that a suspended OR thread wants is there |
| EventModel.TimeOutKeeps | code/src/thread.c:747-769 | a timed-out waiter leaves, the invariant stays |
| EventObjects.EventObject.constructor | code/src/ipc.c:914-932 | an empty set and no waiters |
| EventObjects.EventObject.Test | code/src/ipc.c:1062-1081 | the AND/OR test of one thread, and the recording |
| EventObjects.EventObject.Visit | code/src/ipc.c:1059-1098 | one round: the pointer moves on before the thread is unlinked, so it stays in the list |
| EventObjects.EventObject.WalkList | code/src/ipc.c:1056-1099 | the loop along the intrusive list that loses nodes under way is the walk of the specification |
| EventObjects.EventObject.Send | code/src/ipc.c:1028-1110 | the send step; -RT_ERROR and no change for an empty set |
| EventObjects.EventObject.Recv | code/src/ipc.c:1126-1214 | the receive step |
| EventObjects.EventObject.Continue | code/src/ipc.c:1213-1236 | the end of a receive that waited |
| EventObjects.EventObject.ControlReset | code/src/ipc.c:1248-1276 | the reset step |
| EventObjects.EventObject.ThreadTimeout | code/src/thread.c:747-769 | the timeout step |
| KconfigDeps.ComputeLocal | code/tools/kconfiglib.py:3443-3682 | an attribute depends on nothing but the attributes its evaluation looks at and the user's own settings |
| KconfigDeps.ScratchSolves | code/tools/kconfiglib.py:3443-3682 | values computed from scratch satisfy all defining equations at once |
| KconfigDeps.DependentsCover | code/tools/kconfiglib.py:2827-2900 | the _dependents sets cover every attribute an evaluation may look at, but for MODULES, constants, the item itself, and defaults of choices that are not tracked; a symbol that does not mention its choice is left to NeverVisibleReads |
| KconfigDeps.NeverVisibleReads | code/tools/kconfiglib.py:5215-5242 | a choice symbol that depends on n, and so does not mention its choice, is never visible and looks at nothing of it |
| KconfigDeps.UntrackedDefault | code/tools/kconfiglib.py:2886-2900 | the _dependents sets cover directly what a selection may look at if and only if every default of the choice is tracked, as a symbol of the choice is |
| KconfigCache.Survives | code/tools/kconfiglib.py:3995-4030 | what an invalidation leaves in the cache has the same value after the change of settings |
| KconfigCache.CutOffSound | code/tools/kconfiglib.py:3995-4030 | stopping at items without a cached visibility is sound: after the sweep every cached value equals recomputation under the new settings, and whatever it was computed from is cached too, provided no selection left was computed from an untracked default that the sweep reached |
| KconfigCache.SweepComplete | code/tools/kconfiglib.py:3995-4030 | that condition is exact: the sweep drops all that was computed from what it drops if and only if it holds |
| KconfigCache.TrackedNoneEscaped | code/tools/kconfiglib.py:2886-2900 | when all defaults of choices are tracked it always holds |
| KconfigStale.StaleSelection | code/tools/kconfiglib.py:4001-4030 | a configuration where it fails: a choice with a default outside it keeps its old selection in the cache after a set_value, though recomputation gives the default |
| KconfigRank.CheckRanks | code/tools/kconfiglib.py:871-873 | when the loop check has finished every symbol of a choice-free configuration, the order of finishing ranks all attributes, provided nothing MODULES depends on is a tristate symbol |
| KconfigRank.CheckStartup | code/tools/kconfiglib.py:871-873 | the pass on the dependency graph of a configuration: it raises exactly when there is a loop, and otherwise all values can be computed |
| KconfigRank.ModulesOnTristate | code/tools/kconfiglib.py:3431-3441 | the proviso is needed: with MODULES looking at a tristate symbol no rank exists, whatever the check says |
| KconfigChoices.ScratchUnique | code/tools/kconfiglib.py:3443-3682 | the values from scratch are the only solution of the defining equations; the order of evaluation does not matter |
| KconfigChoices.YModeVisibility | code/tools/kconfiglib.py:5215-5242 | in y mode each symbol of a choice is invisible or can be y |
| KconfigChoices.ExactlyOneSet | code/tools/kconfiglib.py:4536-4565 | a choice in y mode with a visible symbol selects one of them, sets it to y and all its others to n |
| KconfigLaws.ExprMeans | code/tools/kconfiglib.py:4986-5044 | expr_value read at each threshold is two-valued logic: && and || are the connectives, and ! of "at least m" is "less than y" |
| KconfigLaws.RelationMeans | code/tools/kconfiglib.py:5018-5041 | a relation compares numbers when both operands are numbers and not both strings, and otherwise texts in dictionary order |
| KconfigLaws.StrCmpMeans | code/tools/kconfiglib.py:5292-5295 | the comparison of texts is dictionary order |
| KconfigLaws.ModeMeans | code/tools/kconfiglib.py:4310-4328 | when the mode of a choice is n, m, y |
| KconfigLaws.ChoiceVisMeans | code/tools/kconfiglib.py:4340-4348 | when the visibility of a choice is n, m, y |
| KconfigLaws.SymVisMeans | code/tools/kconfiglib.py:5215-5242 | when the visibility of a symbol is n, m, y: by its prompts, by what its choice hides, and by whether it can be m |
| KconfigLaws.TriMeans | code/tools/kconfiglib.py:3610-3662 | for every solution of the defining equations: a bool or tristate symbol outside choices is on exactly when a select, the user as far as it is visible, or else the first default with a condition or a satisfied imply reaches m; and exactly when it is y |
| KconfigLaws.UserChooses | code/tools/kconfiglib.py:3613-3615 | a visible symbol with a user value that nothing selects has the smaller of user value and visibility, m counting as y where it cannot be m |
| KconfigLaws.DefaultChooses | code/tools/kconfiglib.py:3621-3627 | without the user's say, the first default whose condition is not n decides: the smaller of value and condition |
| KconfigLaws.NothingChooses | code/tools/kconfiglib.py:3608-3627 | with no user's say, select, imply or default a symbol is n |
| KconfigLaws.SelectsAndImplies | code/tools/kconfiglib.py:3629-3643 | a symbol is never below its selects, nor without a user's say below its implies when its dependencies hold |
| KconfigLaws.OtherTriMeans | code/tools/kconfiglib.py:3592-3659 | constants, symbols of other types, and symbols of choices: y if selected in y mode, m if set by the user in m mode, else n |
| KconfigLaws.StrMeans | code/tools/kconfiglib.py:3451-3582 | the text of a bool, tristate, string or undefined symbol |
| KconfigLaws.UserNumberChooses | code/tools/kconfiglib.py:3498-3514 | with a range in effect, a user's number inside it is taken as written |
| KconfigLaws.DefaultNumberChooses | code/tools/kconfiglib.py:3516-3559 | with a range in effect and no user's number inside it, the first default with a condition is taken as written if it is inside, else replaced by the bound it is beyond |
| KconfigLaws.UnrangedMeans | code/tools/kconfiglib.py:3470-3535 | with no range in effect the user's text, or else the default's |
| KconfigLaws.NumberInRange | code/tools/kconfiglib.py:3470-3559 | with a range in effect whose bounds are in order, the value is a number inside it |
| KconfigLaws.UserSelects | code/tools/kconfiglib.py:4536-4547 | only a choice in y mode has a selection, and a visible selection of the user counts first |
| KconfigLaws.DefaultSelects | code/tools/kconfiglib.py:4552-4557 | without one, the first default with a condition and a visible symbol |
| KconfigLaws.FirstVisibleSelects | code/tools/kconfiglib.py:4559-4565 | without any, the first visible symbol; none exactly when no symbol is visible |
| KconfigSettings.AcceptsMeans | code/tools/kconfiglib.py:3760-3767 | which settings each type takes, both ways |
| KconfigSettings.AssignedMeans | code/tools/kconfiglib.py:3779-3790 | the user value after setting a bool or tristate symbol; y makes a symbol of a choice the user's selection |
| KconfigSettings.AssignedText | code/tools/kconfiglib.py:3782-3796 | the user value after setting any other symbol |
| KconfigSettings.UnassignedMeans | code/tools/kconfiglib.py:3798-3805 | unsetting removes exactly that setting |
| KconfigSettings.SetThenRead | code/tools/kconfiglib.py:3613-3796 | set and read: a visible symbol outside choices that nothing selects has the smaller of what it was set to and its visibility |
| KconfigSettings.SetThenChosen | code/tools/kconfiglib.py:3785-3796 | set to y and read: in a choice in y mode the symbol is the selection, and y |
| KconfigSettings.SetThenReadText | code/tools/kconfiglib.py:3561-3564 | set and read, for a visible string symbol |
| KconfigSettings.SetThenReadNumber | code/tools/kconfiglib.py:3498-3514 | set and read, for a visible int or hex symbol whose range in effect holds the number |
| KconfigGrammar.ParseSound | code/tools/kconfiglib.py:2737-2821 | whatever the parser takes is a sentence of the grammar that means what it returns, and the rest is left as it was |
| KconfigGrammar.SentenceParses | code/tools/kconfiglib.py:2737-2821 | every sentence parses, at each level of the grammar, to what it means |
| KconfigGrammar.ParsesExactly | code/tools/kconfiglib.py:2746-2752 | of tokens followed by something that does not continue an expression the parser takes just those and returns e if and only if they are a sentence of the grammar that means e |
| KconfigGrammar.OneMeaning | code/tools/kconfiglib.py:2746-2752 | a sentence means one thing only |
| KconfigObjects.Kconfig.EnvSolves | code/tools/kconfiglib.py:3443-3682 | what the getters return is a solution of the defining equations, so the laws of KconfigLaws hold of it |
| KconfigObjects.MakeDependOn | code/tools/kconfiglib.py:5244-5260 | the item joins the dependents of exactly the non-constant items of the expression |
| KconfigObjects.BuildDep | code/tools/kconfiglib.py:2827-2900 | the loops build exactly the dependency relation |
| KconfigObjects.UnseenSym | code/tools/kconfiglib.py:3756-3796 | a new value of an invalidated symbol is not looked at by what stays cached |
| KconfigObjects.UnseenPromptless | code/tools/kconfiglib.py:4032-4050 | the value of a symbol without a prompt is looked at by nothing |
| KconfigObjects.UnseenChoice | code/tools/kconfiglib.py:4571-4578 | the same for the mode and selection of a choice |
| KconfigObjects.Kconfig.SymType | code/tools/kconfiglib.py:3431-3441 | the type property, TRISTATE degrading to BOOL |
| KconfigObjects.Kconfig.ChoiceTri | code/tools/kconfiglib.py:4310-4328 | the mode of a choice |
| KconfigObjects.Kconfig.ExprValue | code/tools/kconfiglib.py:4986-5044 | short-circuit evaluation gives the value of the full expression, caching all it looked at |
| KconfigObjects.Kconfig.SymVisibility | code/tools/kconfiglib.py:5215-5242 | the visibility of a symbol |
| KconfigObjects.Kconfig.ChoiceVisibility | code/tools/kconfiglib.py:4340-4348 | the visibility of a choice |
| KconfigObjects.Kconfig.GetVis | code/tools/kconfiglib.py:3674-3682 | the value returned equals recomputation from scratch; the cache stays coherent and only grows |
| KconfigObjects.Kconfig.GetTri | code/tools/kconfiglib.py:3584-3661 | the same for tri_value |
| KconfigObjects.Kconfig.GetStr | code/tools/kconfiglib.py:3443-3582 | the same for str_value |
| KconfigObjects.Kconfig.SelectionOf | code/tools/kconfiglib.py:4536-4565 | user selection, defaults, first visible symbol |
| KconfigObjects.Kconfig.GetSel | code/tools/kconfiglib.py:4350-4358 | the same for selection |
| KconfigObjects.Kconfig.InvalidateAll | code/tools/kconfiglib.py:2902-2910 | exactly the defined items lose their cached values |
| KconfigObjects.Kconfig.RecInvalidate | code/tools/kconfiglib.py:4001-4030 | the recursion ends on cyclic dependents, and reaches everything cached that depends on an invalidated item |
| KconfigObjects.Kconfig.RecInvalidateIfHasPrompt | code/tools/kconfiglib.py:4032-4050 | after a change of a symbol's value, coherence is restored |
| KconfigObjects.Kconfig.RecInvalidateChoice | code/tools/kconfiglib.py:4571-4578 | after a change of a choice's settings, coherence is restored |
| KconfigObjects.Kconfig.SetValue | code/tools/kconfiglib.py:3713-3796 | which values are accepted, the user settings afterwards, and coherence |
| KconfigObjects.Kconfig.UnsetValue | code/tools/kconfiglib.py:3798-3805 | the user setting is gone, and coherence |
| KconfigObjects.Kconfig.ChoiceSetValue | code/tools/kconfiglib.py:4360-4400 | which modes are accepted, the user settings afterwards, and coherence |
| KconfigObjects.Kconfig.ChoiceUnsetValue | code/tools/kconfiglib.py:4402-4409 | mode and selection are gone, and coherence |
| KconfigExpr.PrintParses | code/tools/kconfiglib.py:2737-2821 | parsing the tokens of expr_str takes exactly them and gives the expression with chains of && and of || nested to the right (and m as m && MODULES where asked for) |
| KconfigExpr.ParsesSymbol | code/tools/kconfiglib.py:2791-2805 | a lone symbol parses to itself, and m, where asked for, to m && MODULES |
| KconfigExpr.ParsesRelation | code/tools/kconfiglib.py:2807-2811 | the operands of a relation stay what they are, m included |
| KconfigExpr.TransformedVal | code/tools/kconfiglib.py:2799-2803 | where MODULES is no less than m, spelling m out changes no value |
| KconfigExpr.RoundTrip | code/tools/kconfiglib.py:5059-5100 | the round trip without that rewriting |
| KconfigExpr.NormVal | code/tools/kconfiglib.py:4986-5044 | re-association keeps expr_value under every assignment |
| KconfigExpr.RoundTripExact | code/tools/kconfiglib.py:5059-5100 | the round trip gives the very expression if and only if its chains are right-nested |
| KconfigExpr.RoundTripTwice | code/tools/kconfiglib.py:5059-5100 | a second round trip changes nothing |
| KconfigExpr.LeftChain | code/tools/kconfiglib.py:2737-2787 | a left-nested chain, which comes back right-nested |
| KconfigExpr.Parser.Check | code/tools/kconfiglib.py:2009-2015 | one token is taken exactly if it is the expected one |
| KconfigExpr.Parser.Expr | code/tools/kconfiglib.py:2737-2777 | the method on the token position gives exactly what the grammar gives, or the parse error |
| KconfigExpr.Parser.AndExpr | code/tools/kconfiglib.py:2779-2787 | the same for chains of && |
| KconfigExpr.Parser.Factor | code/tools/kconfiglib.py:2789-2821 | the same for factors |
| DepLoop.WalkDescends | code/tools/kconfiglib.py:5486-5558 | walking back along dependencies from a finished symbol leads to symbols that finished earlier |
| DepLoop.AllDoneNoCycle | code/tools/kconfiglib.py:5486-5558 | when every symbol is finished there is no cycle |
| DepLoop.LoopCheck.CheckSym | code/tools/kconfiglib.py:5486-5558 | either everything reachable is finished without a loop, or a part of a loop is on its way back, or a whole loop is raised; no symbol is expanded twice |
| DepLoop.LoopCheck.FoundLoop | code/tools/kconfiglib.py:5593-5600 | on the way back the tuple grows by one dependency, or is a whole loop |
| DepLoop.LoopCheck.CheckAll | code/tools/kconfiglib.py:871-873 | the pass raises if and only if the graph has a cycle; what it reports is a real cycle; every symbol is expanded at most once, and all of them if none is raised |

## Left out

- SMP: all of it, including cpu.c and the per-CPU queues.
- signal.c, the -RT_EINTR retry of rt_mutex_take, and rt_thread_resume called by users on threads that wait for an object.
- mempool.c: its free list is an easy instance of the others, and suspend_thread_count does not track the wait list.
- object.c, device.c, irq.c, idle.c, components.c, hooks, logging, shell commands, modules, detach and delete of IPC objects.
- kservice.c other than __rt_ffs.
- rt_realloc, used_mem and max_mem of slab.c, and the payload bytes of slab chunks.
- The heap semaphores: each allocator call is one step, including the malloc and free inside a realloc.
- Soft timers, rt_timer_control, and callbacks that start or stop timers.
- Context switching, stacks, the defunct list, and state bits outside RT_THREAD_STAT_MASK.
- rt_mutex_take with several mutexes at a time, and priority changes by others while a mutex is held.
- The linking of waiting threads of mutexes, mailboxes and message queues is modelled on sequences; `SuspendLists` does it on rings for semaphores and events.
- Ready queues are sequences of threads, without the ring of tlist nodes.
- The step from a waiting thread's timer to rt_thread_timeout: a waiting thread may time out at any point, also one that waits forever.
- Kconfig: reading and writing files, the tokenizer and quoting, the preprocessor, menus, warnings, `assignable`, `_write_to_conf`, environment and defconfig_list symbols.
- KconfigObjects.Kconfig.SetValue: the warnings about values out of range or without a prompt and the _was_set flag, which no value depends on, are not modelled.
- KconfigExpr.PrintParses: works on tokens, and choices in expressions are left out, since expr_str prints them in a form the parser does not read.
- DepLoop.LoopCheck.CheckAll: graphs without choices only; the choice branches of the search are not modelled.
- DepLoop.LoopCheck.CheckSym: the same, without choices.
- KconfigRank.CheckStartup: configurations without choices only; with choices that a rank exists is a precondition of KconfigObjects.
- KconfigObjects.Kconfig.ChoiceSetValue: like SetValue, without warnings and the _was_set flag.
- MemHeap.Heap.Realloc: says where blocks are and how large, not which bytes they hold.
- SmallMem.Heap.Realloc: the same exclusion as for SmallMem.Heap.Malloc, which it calls.
- SmallMem.Heap.Malloc: a serviceable request in a heap smaller than MIN_SIZE_ALIGNED is excluded, because the scan of the source does not end there.
- Slab.SlabAllocator.Free: the pointer must be live, as the source assumes.
- TimerSkipList.TimerList.Check: callbacks leave all timers alone and take no ticks, and a periodic timer has a period of at least 1.
- TimerSkipList.TimerList.Fire: the same about callbacks.
- TimerSkipList.TimerList.TickIncrease: the time-slice part is ReadyQueues.Scheduler.TickIncrease.
- ReadyQueues.Scheduler.TickIncrease: the tick counter and the timer check are TimerSkipList.TimerList.TickIncrease.
- ReadyQueues.Scheduler.Exit: the thread's timer and the defunct list are not modelled.
- ReadyQueues.Scheduler.Delete: the thread's timer and the defunct list are not modelled.
- ReadyQueues.Scheduler.Suspend: stopping the thread's timer is not modelled.
- ReadyQueues.Scheduler.Resume: stopping the thread's timer is not modelled.
- ReadyQueues.Scheduler.Timeout: the error number is part of the IPC modules instead.
- Semaphore.SemaphoreObject.ThreadTimeout: becoming READY and the schedule are ReadyQueues.Scheduler.Timeout.
- Mutex.MutexObject.ThreadTimeout: becoming READY and the schedule are ReadyQueues.Scheduler.Timeout.
- Mailbox.MailboxObject.ThreadTimeout: becoming READY and the schedule are ReadyQueues.Scheduler.Timeout.
- MsgQueue.MessageQueue.ThreadTimeout: becoming READY and the schedule are ReadyQueues.Scheduler.Timeout.
- EventObjects.EventObject.ThreadTimeout: becoming READY and the schedule are ReadyQueues.Scheduler.Timeout.
- Mutex.MutexObject.TakeReturns: the retry on -RT_EINTR is not modelled.
