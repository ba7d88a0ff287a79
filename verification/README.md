# Verification of the RT-Thread kernel model

This project models the RT-Thread kernel of `rt-thread/src` in its single-core configuration and proves what it
promises. Offsets stand for addresses, thread and timer numbers for objects, and a section that runs with
interrupts disabled is one atomic step.

- **Small-memory heap** (`HeapBlocks`, `SmallHeapSpec`, `SmallHeapTheorems`, `SmallHeap`): first fit with boundary
  tags over an array of memory cells, headers in place, coalescing, and reallocation that carries the contents along.
- **Slab allocator** (`PageRuns`, `PageHeap`, `ZoneSpec`, `Slab`): the address-sorted page list, zones of equal
  chunks, the lists of zones with free chunks and the page usage table.
- **Memheap** (`MemHeapBlocks`, `MemHeap`): items in an address ring, the unused ones also in a free ring.
- **Lists** (`Links`, `StableOrder`): the intrusive circular lists, and stable insertion by rank.
- **Timers** (`TimerOrder`, `TimerSpec`, `TimerTheorems`, `TimerList`): the skip list over wrap-around ticks, and the
  expiry loop with timeout functions that start, stop and reprogram timers.
- **Scheduler** (`KernelSpec`, `KernelTheorems`, `KernelFields`, `KernelRaces`, `RoundRobin`, `Words`, `Bitmap`,
  `Kernel`): thread states, ready and wait lists, both bitmap layouts down to the words, time slices.
- **IPC** (`WaitQueue`, `MutexSpec`, `MutexTheorems`, `Mutex`, `EventSpec`, `EventTheorems`, `Event`, `Waiters`,
  `RingMath`, `Mailbox`, `MessageSpec`, `MessageQueue`): mutex with priority inheritance, event sets, the mailbox ring, and the message queue with slots in flight
  under any interleaving.
- **Formatter** (`FormatSpec`, `FormatTheorems`, `Format`): `rt_vsnprintf` with a bounded buffer.

Modules named after an object hold a class whose methods change its fields as the C functions do and are proved
against the specification module beside them. The specification modules define the steps; the theorems about whole
runs are about these. `dafny verify dfyconfig.toml` checks everything.

Where the code does something other than its comments or documentation say, the model follows the code:

- `rt_malloc` of the small heap never uses an exactly fitting last block, because of the strict bound of its search
  loop (`rt-thread/src/mem.c:306`). `SmallHeapTheorems.MallocComplete` says exactly when it fails, and
  `SmallHeapTheorems.ExactFitRefused` is such a refusal.
- `lfree` is not always the lowest free block (`rt-thread/src/mem.c:131`): the cut in `rt_realloc` does not lower it
  (`rt-thread/src/mem.c:471-497`). `SmallHeapTheorems.StepLowestIff` is the exact condition and
  `SmallHeapTheorems.CutLosesFreeBlock` a run in which memory is lost to `rt_malloc`.
- The `prev` field of `heap_end` is not kept up after a split (`rt-thread/src/mem.c:345`); `SmallHeap.Heap.Split` leaves
  it as it was, and the model of the links does not rely on it.
- With 4 or 8 bytes of heap the bound `mem_size_aligned - size` of `rt_malloc` wraps around and its search never ends
  (`rt-thread/src/mem.c:305-307`): `SmallHeapTheorems.SearchEndsIff` and `SmallHeapTheorems.EndlessSearch`. Runs are of
  calls that return.
- Chunks of a power-of-two size are promised to be aligned to it (`rt-thread/src/slab.c:632`); zones are only page
  aligned, so `ZoneSpec.NaturalAlignment` gives the exact condition and `Slab.MisalignedChunk` a chunk that is not.
- A one-shot timer started again by its own function loses its ACTIVATED flag while it stays linked
  (`rt-thread/src/timer.c:539-543`); `TimerTheorems.FireFlagsIff` is the exact condition,
  `TimerTheorems.RefusedButFires` what follows, and `TimerTheorems.SelfRestart` such a timer.
- A FIFO mutex does not boost its new owner at hand-off (`rt-thread/src/ipc.c:852-855`); `MutexSpec.HandOffFifo` is the
  exact condition and `MutexSpec.FifoInversion` a run that ends in an inversion.
- `rt_thread_resume` tests the state of the thread once, before interrupts are disabled, and enables them again
  between its two sections (`rt-thread/src/thread.c:774-794`), so that two calls for one thread can damage the ready
  lists: `KernelTheorems.StepGoodIff` is the exact condition, `KernelRaces.ResumeInBetween`,
  `KernelRaces.ResumeBeforehand` and `KernelRaces.DoubleResume` are runs, and `KernelRaces.OneResumeSafe` says that one
  call at a time is safe.
- `rt_ipc_list_suspend` does not look at the state of the thread and ignores the error of `rt_thread_suspend`
  (`rt-thread/src/ipc.c:85`), while `rt_schedule` does nothing with the scheduler locked
  (`rt-thread/src/scheduler.c:428`), so a thread that waits under `rt_enter_critical` runs on and can wait again:
  `KernelSpec.SuspendOnGoodIff` is the exact condition, `KernelRaces.WaitTwice` and `KernelRaces.LockedWaits` are runs,
  and `KernelRaces.UnlockedWaitSafe` says that waits with the scheduler unlocked are safe.
- `rt_thread_delete` and `rt_thread_detach` enable interrupts between taking a thread off its list and closing it
  (`rt-thread/src/thread.c:332-462`): a ready thread is then in no list (`KernelRaces.ReadyNowhere`), and a timeout in
  between leaves the thread in two (`KernelRaces.TimeoutInBetween`). `KernelSpec.DeletedGoodIff` is the exact condition,
  and `KernelRaces.DeleteSafe` says that what happens to other threads in between does no harm.
- The yield flag outlives a time slice that ends while no equal is ready (`rt-thread/src/clock.c:92`,
  `rt-thread/src/scheduler.c:451`), so a later equal cuts a full slice short (`RoundRobin.SliceCutShort`). It makes
  turns come sooner, never later: `RoundRobin.RoundRobinBound`.
- A number printed with precision 0 loses its digits even when it is not 0 (`rt-thread/src/kservice.c:760`):
  `FormatSpec.NumberWidth`. `%.0s` does not cut the string (`rt-thread/src/kservice.c:919`): `FormatSpec.CutsIff` and
  `FormatSpec.NotCut`.
- `%o` prints hexadecimal digits, since `divide` knows only the bases 10 and 16 (`rt-thread/src/kservice.c:568-585`):
  `FormatSpec.OctalIff`.

## Model

| member | source | states |
|---|---|---|
| `SmallHeapTheorems.RunInv` | rt-thread/src/mem.c:204-607 | In every state of every run of calls of rt_malloc, rt_free and rt_realloc that return, whatever the size of the heap, the blocks tile the heap up to heap_end at word-aligned, increasing offsets, no two neighbours are free, lfree is a free block or heap_end, and used_mem is the extent of the used blocks |
| `SmallHeapTheorems.RunLowest` | rt-thread/src/mem.c:131 | lfree is the lowest free block in every state of a run in which no rt_realloc cut a block below lfree |
| `SmallHeapTheorems.StepLowestIff` | rt-thread/src/mem.c:471-497 | One call keeps lfree lowest if and only if it is not an rt_realloc that cuts a block lying below lfree whose successor is not free |
| `SmallHeapTheorems.CutLosesFreeBlock` | rt-thread/src/mem.c:471-497 | Three calls after which 96 free bytes in one block are out of the reach of rt_malloc |
| `SmallHeapTheorems.MallocFresh` | rt-thread/src/mem.c:272-410 | A block handed out is aligned, at least as large as asked for and too small to be split again, inside the heap and apart from every live block; all others stay live |
| `SmallHeapTheorems.MallocComplete` | rt-thread/src/mem.c:289-311 | With lfree lowest, a valid request fails exactly when every roomy free block is the last one before heap_end and fits exactly |
| `SmallHeapTheorems.ExactFitRefused` | rt-thread/src/mem.c:305-311 | A fresh heap of 128 bytes whose one free block fits 116 bytes exactly refuses a request for 116 bytes |
| `SmallHeapTheorems.SearchEndsIff` | rt-thread/src/mem.c:305-311 | The search of rt_malloc comes to an end if and only if its bound does not wrap around, that is, the heap has room for the least payload |
| `SmallHeapTheorems.EndlessSearch` | rt-thread/src/mem.c:305-311 | In a fresh heap of 4 bytes no round of the search for one byte is the last |
| `SmallHeapTheorems.MallocFreeRoundTrip` | rt-thread/src/mem.c:546-609 | Freeing what was just allocated gives back the identical block list, lfree and used_mem; only the maximum may differ |
| `SmallHeapTheorems.ReallocRoom` | rt-thread/src/mem.c:459-509 | What rt_realloc returns for a live block has room for the request, and no room for a block besides, and takes the place of that block among the live ones; the address stays if and only if the size fits exactly or the tail is cut off |
| `SmallHeapTheorems.ReallocNew` | rt-thread/src/mem.c:450-451 | For NULL it returns one more live block with room for the request |
| `SmallHeapTheorems.ReallocNull` | rt-thread/src/mem.c:430-510 | For a live block and a size above 0 it returns NULL, and changes nothing, if and only if the request exceeds the heap, or the block can neither stay nor be cut and no free block from lfree on can take the request |
| `SmallHeapTheorems.ReallocZero` | rt-thread/src/mem.c:444-448 | For size 0 it frees exactly the block |
| `HeapBlocks.TilingUnique` | rt-thread/src/mem.c:156-194 | A coalesced tiling is determined by its live blocks alone |
| `HeapBlocks.DistinctBlocksDisjoint` | rt-thread/src/mem.c:272-410 | Two blocks of one heap never overlap |
| `SmallHeapSpec.MallocKeepsInv` | rt-thread/src/mem.c:313-403 | rt_malloc keeps the heap tiled, coalesced and accounted for |
| `SmallHeapSpec.FreeKeepsInv` | rt-thread/src/mem.c:590-607 | rt_free with coalescing keeps the heap tiled, coalesced and accounted for |
| `SmallHeapSpec.ReallocKeepsInv` | rt-thread/src/mem.c:421-510 | rt_realloc, in place, cut or moved, keeps the heap tiled, coalesced and accounted for |
| `SmallHeap.Heap.constructor` | rt-thread/src/mem.c:204-257 | rt_system_heap_init of any range its check accepts: one free block up to heap_end, linked both ways |
| `SmallHeap.Heap.FindFit` | rt-thread/src/mem.c:305-311 | The search finds the first free block from lfree on that fits, under the strict bound of its loop, or there is none |
| `SmallHeap.Heap.Malloc` | rt-thread/src/mem.c:272-410 | Where the search comes to an end, the headers in memory after the call are those of the first-fit step; no payload byte of a live block changes; a failing call changes no byte |
| `SmallHeap.Heap.PlugHoles` | rt-thread/src/mem.c:156-194 | Coalescing to the right and then to the left leaves the linked block list with the freed block merged into its free neighbours |
| `SmallHeap.Heap.Free` | rt-thread/src/mem.c:546-609 | rt_free makes exactly the one block free and changes no payload byte of a block that stays live |
| `SmallHeap.Heap.Realloc` | rt-thread/src/mem.c:421-510 | The block returned has room for the request and takes the place of the old one; its first min(old payload, new size) bytes are those of the old one; other live payloads are unchanged; a NULL result for a non-zero size changes nothing at all |
| `SmallHeap.SplitLinked` | rt-thread/src/mem.c:329-348 | Splitting a block keeps next and prev of all headers inverse to each other, but for the prev of heap_end, which goes stale |
| `SmallHeap.JoinLinked` | rt-thread/src/mem.c:170-193 | Joining two neighbours keeps next and prev of all headers inverse to each other |
| `SmallHeap.ClientWriteKeepsLinks` | rt-thread/src/mem.c:396-403 | Writing any byte of a live payload leaves every header as it is |
| `PageRuns.Unique` | rt-thread/src/slab.c:236-322 | A sorted list of separated runs is determined by the pages it covers |
| `PageRuns.AllocFreeRestores` | rt-thread/src/slab.c:236-322 | rt_page_free of a range just taken restores the identical page list |
| `PageRuns.FreesCommute` | rt-thread/src/slab.c:272-322 | The order in which ranges are given back does not matter |
| `PageHeap.Pages.constructor` | rt-thread/src/slab.c:327-336 | The page list starts as one run of all pages |
| `PageHeap.Pages.Alloc` | rt-thread/src/slab.c:236-270 | Fails exactly when no such number of consecutive pages is free, else takes exactly the lowest such range; the list stays the sorted list of maximal free runs |
| `PageHeap.Pages.Free` | rt-thread/src/slab.c:272-322 | Exactly the pages given back become free, and the linked list stays the sorted list of maximal free runs, in every case of merging |
| `ZoneSpec.ZoneIndex` | rt-thread/src/slab.c:401-459 | The index is the lowest whose chunks hold the request, and the request is rounded to that chunk size |
| `ZoneSpec.TakeChunkOk` | rt-thread/src/slab.c:534-577 | The chunk handed out was not live and is the only new live one; z_nfree stays the never used chunks plus the length of z_freechunk |
| `ZoneSpec.PutChunkOk` | rt-thread/src/slab.c:830-842 | Returning a live chunk makes it the only one no longer live |
| `ZoneSpec.WhollyFree` | rt-thread/src/slab.c:854-855 | z_nfree equals z_nmax exactly when no chunk of the zone is live |
| `ZoneSpec.BitTest` | rt-thread/src/slab.c:635 | The bit test recognises exactly the powers of two |
| `ZoneSpec.NewZoneOk` | rt-thread/src/slab.c:625-648 | A new zone has room for at least two chunks and its first chunk is the only live one |
| `ZoneSpec.ChunkInside` | rt-thread/src/slab.c:625-648 | Every chunk lies behind the zone header and within the pages of its zone |
| `ZoneSpec.NaturalAlignment` | rt-thread/src/slab.c:631-638 | Wherever the heap starts, at a page boundary, chunks of a power-of-two size are aligned to it if and only if their zone is; up to the page size they always are |
| `Slab.MisalignedChunk` | rt-thread/src/slab.c:631-652 | In a heap of 16640 pages that starts at a multiple of 8192 the first zone of 8192-byte chunks lies at page 17, so its first chunk is not aligned to 8192 bytes |
| `Slab.UsageLeadsHome` | rt-thread/src/slab.c:615-622 | The memusage entry of any chunk address gives the distance back to its own zone |
| `Slab.OneZone` | rt-thread/src/slab.c:826-828 | A chunk address belongs to one zone only |
| `Slab.Slab.OneWhollyFree` | rt-thread/src/slab.c:854-855 | Each list of zone_array holds at most one zone of which no chunk is handed out |
| `Slab.IdleBehind` | rt-thread/src/slab.c:842-846 | Such a zone need not be alone: a full zone that gets a chunk back goes in front of it |
| `Slab.Slab.NoPageLost` | rt-thread/src/slab.c:478-900 | Every page behind the usage table is free, or part of a large block, or of a zone that is full, on the list of its index, or on zone_free |
| `Slab.ListsTake` | rt-thread/src/slab.c:539-577 | zone_array holds exactly the zones with free chunks that are not on zone_free, also after a chunk was taken |
| `Slab.ListsPut` | rt-thread/src/slab.c:842-846 | The same after a chunk came back to a zone that may have been full |
| `Slab.ListsRetire` | rt-thread/src/slab.c:862-874 | The same after a wholly free zone moved to zone_free |
| `Slab.ListsRelease` | rt-thread/src/slab.c:881-897 | The same after the pages of a zone on zone_free were given back |
| `Slab.Slab.constructor` | rt-thread/src/slab.c:344-394 | The zone size is the largest of 32, 64 and 128 KiB below a 1024th of the range, or the least, and exactly the pages behind the usage table are free |
| `Slab.ZoneSizeFor` | rt-thread/src/slab.c:374-377 | The zone size loop |
| `Slab.Slab.TakeFrom` | rt-thread/src/slab.c:534-577 | A chunk taken from a listed zone was not live before and is the only new live address |
| `Slab.Slab.NewZoneFor` | rt-thread/src/slab.c:587-659 | A request without a listed zone takes a whole free zone, else fresh pages; it fails only when neither exists |
| `Slab.Slab.MallocLarge` | rt-thread/src/slab.c:493-521 | A large block gets fresh whole pages, and fails only when there is no such range |
| `Slab.Slab.Malloc` | rt-thread/src/slab.c:478-668 | No address is handed out twice; the chunk has the smallest size that holds the request; failure means no pages for a zone or a block are left |
| `Slab.Slab.Free` | rt-thread/src/slab.c:771-900 | Exactly the freed address stops being live, whether chunk or pages; a zone left wholly free beside others of its index leaves their list |
| `Slab.Slab.Retire` | rt-thread/src/slab.c:854-900 | Moving a zone to zone_free, and giving pages back above the threshold, touches no live chunk |
| `Slab.Slab.ChunksApart` | rt-thread/src/slab.c:478-668 | Live chunks share no byte |
| `Slab.Slab.ChunkOffLarge` | rt-thread/src/slab.c:478-668 | Live chunks share no byte with a large block |
| `MemHeap.MemHeap.constructor` | rt-thread/src/memheap.c:50-121 | One unused block, linked in both rings, before a used tail block |
| `MemHeap.MemHeap.Search` | rt-thread/src/memheap.c:170-182 | The first block of the free list that fits, or none fits |
| `MemHeap.MemHeap.Alloc` | rt-thread/src/memheap.c:138-281 | Fails exactly when the rounded request is not below available_size or no unused block has room; otherwise one new block is live, all others stay |
| `MemHeap.MemHeap.Free` | rt-thread/src/memheap.c:495-591 | Exactly the freed block stops being live; the address ring still covers the pool, the free list is the unused blocks, no two of them adjacent, and available_size is their payload |
| `MemHeap.MemHeap.Realloc` | rt-thread/src/memheap.c:284-492 | Extended, cut, kept or moved: one live block is exchanged for one with room for the request and none for a block besides; NULL for a non-zero size if and only if the block neither fits nor can grow and nothing can be allocated, and then nothing changes |
| `MemHeap.MemHeap.Grow` | rt-thread/src/memheap.c:334-402 | Extends the block in place if and only if the block behind it is unused and the two payloads together exceed the request by more than the least payload; no other live block changes |
| `MemHeap.MemHeap.Shrink` | rt-thread/src/memheap.c:420-492 | The rest of a cut block, with an unused block behind it, is one unused block |
| `MemHeap.MemHeap.Spend` | rt-thread/src/memheap.c:230-235 | max_used_size is the maximum of what it was and the present usage |
| `MemHeapBlocks.Exchange` | rt-thread/src/memheap.c:193-213 | Exchanging blocks on the same ground keeps the address ring, the tiling and the used marks |
| `MemHeapBlocks.Dropped` | rt-thread/src/memheap.c:216-217 | Unlinking a node leaves the ring of the other free blocks |
| `MemHeapBlocks.Added` | rt-thread/src/memheap.c:222-225 | Linking a node behind the list header puts it in front of the free ring |
| `Links.Store.InsertAfter` | rt-thread/include/rtservice.h:58-65 | Inserting behind a node of a ring gives the ring with the new node there, and changes no other node |
| `Links.Store.InsertBefore` | rt-thread/include/rtservice.h:73-80 | Inserting before a node of a ring gives the ring with the new node there, and changes no other node |
| `Links.Store.Remove` | rt-thread/include/rtservice.h:86-92 | Removing a node gives the ring without it and the node as a ring of its own |
| `Links.Store.Len` | rt-thread/include/rtservice.h:107-119 | The length without the head |
| `Links.InsertRing` | rt-thread/include/rtservice.h:58-65 | The four assignments link a new node into a ring at exactly one place |
| `Links.RemoveRing` | rt-thread/include/rtservice.h:86-92 | The assignments of a removal leave two rings |
| `TimerOrder.WrapCompare` | rt-thread/src/timer.c:359-366 | The unsigned difference test orders two deadlines that are not overdue as their distances from now |
| `TimerOrder.DueTest` | rt-thread/src/timer.c:516 | A deadline that is not overdue counts as reached only at its own tick |
| `StableOrder.InsertPosition` | rt-thread/src/timer.c:345-367 | Where the search stops is the stable place: behind all ranks that are not larger |
| `StableOrder.InsertSelect` | rt-thread/src/timer.c:342-391 | Inserting into an upper row on its own gives the rows that inserting into the lowest row would select |
| `StableOrder.InsertWithout` | rt-thread/src/timer.c:121-129 | Removing undoes inserting |
| `TimerList.RowsNested` | rt-thread/src/timer.c:376-391 | For any number of levels each row is a subsequence of the row below |
| `TimerList.FindRow` | rt-thread/src/timer.c:345-367 | The search in one row ends at the last node that is not later |
| `TimerList.Timers.Start` | rt-thread/src/timer.c:296-396 | The lowest row is the stable insertion by deadline in wrap-around order; every upper row gets the timer exactly as far up as the counter says; all rows stay nested |
| `TimerList.Timers.Remove` | rt-thread/src/timer.c:121-129 | The timer leaves every row, and the rows stay nested |
| `TimerList.Timers.Stop` | rt-thread/src/timer.c:422-446 | An inactive timer gives an error and no change; an active one leaves all rows |
| `TimerList.Timers.SetTime` | rt-thread/src/timer.c:471-473 | Only the ticks of the timer change, whether or not it is linked |
| `TimerList.Timers.SetKind` | rt-thread/src/timer.c:475-481 | Only the kind of the timer changes, whether or not it is linked |
| `TimerList.Timers.NextTimeout` | rt-thread/src/timer.c:108-119 | The deadline of the first pending timer, or the largest tick |
| `TimerList.Timers.Check` | rt-thread/src/timer.c:494-553 | The loop ends, and leaves the state and the fired timers of the specification |
| `TimerList.Timers.Tick` | rt-thread/src/clock.c:72-100 | One tick and one check keep the deadlines ahead of the clock |
| `TimerSpec.StartGood` | rt-thread/src/timer.c:296-396 | Starting keeps the pending timers duplicate-free and in deadline order |
| `TimerSpec.Check` | rt-thread/src/timer.c:494-553 | The expiry loop terminates, by the number of due timers, and leaves no due timer linked |
| `TimerSpec.FireDue` | rt-thread/src/timer.c:507-547 | One round fires the first due timer; whatever its function does, the rest stays due in order or is no longer due |
| `TimerTheorems.CheckFires` | rt-thread/src/timer.c:494-553 | Only due timers fire, in deadline order with ties first come; a due timer is left out only if the function of a fired one names it |
| `TimerTheorems.CheckExact` | rt-thread/src/timer.c:494-553 | If no function names another timer, exactly the due timers fire, in order |
| `TimerTheorems.Countdown` | rt-thread/src/timer.c:494-553 | A pending timer that neither the event nor the function of another timer fired by it names fires exactly when one tick was left |
| `TimerTheorems.PeriodicFires` | rt-thread/src/timer.c:532-538 | With one check a tick, a periodic timer of period p with k ticks before it (the ticks set when it was started) fires at ticks k, k + p, k + 2p, ... and at no others, modulo 2^32, in every run of ticks, starts, stops and controls in which no event and no function of a timer fired so far names it |
| `TimerTheorems.OneShotFires` | rt-thread/src/timer.c:539-543 | A one-shot timer with k ticks before it fires at tick k, in every run of ticks, starts, stops and controls in which no event and no function of another timer fired so far names it; never again if its own function leaves it alone |
| `TimerTheorems.TimeThenStart` | rt-thread/src/timer.c:320-324 | A start leaves before a timer exactly the ticks set last, in whatever state it was, so the two results above hold from there on |
| `TimerTheorems.TimeKeepsDeadline` | rt-thread/src/timer.c:471-473 | Setting the ticks of a linked timer changes its period, not when it fires next |
| `TimerTheorems.CallLast` | rt-thread/src/timer.c:525 | The last start or stop among the calls a timeout function makes for a timer decides whether it is linked and, with the ticks set before that start, its deadline; the last control calls decide its ticks and kind |
| `TimerTheorems.FiredAgain` | rt-thread/src/timer.c:525-543 | Whatever calls its own function makes for it, a fired timer is linked again exactly when it ends periodic and not stopped, with the ticks set last, or ends one-shot and started, with the ticks set before that start |
| `TimerTheorems.StartedByFunction` | rt-thread/src/timer.c:525-543 | A timer started by the function of another has all its ticks before it after the check, unless the function of a timer fired later names it |
| `TimerTheorems.RunGoesOn` | rt-thread/src/timer.c:494-553 | Every run can go on with any event about existing timers |
| `TimerTheorems.FireFlagsIff` | rt-thread/src/timer.c:532-543 | Firing keeps the ACTIVATED flag equal to being linked if and only if it is not a timer that its own function leaves one-shot and does not stop after starting it |
| `TimerTheorems.RefusedButFires` | rt-thread/src/timer.c:422-447 | In that case rt_timer_stop is refused although the timer is linked, with all the ticks it was started with before it |
| `TimerTheorems.SelfRestart` | rt-thread/src/timer.c:532-543 | Such a timer: one shot of 10 ticks whose function starts it again |
| `TimerTheorems.SelfRestartFires` | rt-thread/src/timer.c:532-543 | It fires at the tenth tick after that although it cannot be stopped |
| `WaitQueue.Suspend` | rt-thread/src/ipc.c:80-123 | The loop puts the thread before the first that is less urgent, in any list, or at the end for FIFO |
| `WaitQueue.InsertBefore` | rt-thread/src/ipc.c:93-110 | In any list, sorted or not, that place is the one stable insertion chooses |
| `WaitQueue.HeadFirstUrgent` | rt-thread/src/ipc.c:93-110 | The head of a PRIO queue is the most urgent waiting thread, the longest waiting among equals |
| `WaitQueue.ArrangeWithout` | rt-thread/src/ipc.c:80-123 | A thread that leaves the queue leaves the order of the others as if it had never come |
| `WaitQueue.Unlink` | rt-thread/include/rtservice.h:86-92 | Exactly the one thread leaves the list |
| `MutexSpec.After` | rt-thread/src/ipc.c:654-881 | No run of take, release and timeout leaves the invariant of the mutex |
| `MutexSpec.RunConsistent` | rt-thread/src/ipc.c:654-881 | Value 1 iff no owner iff hold 0; the owner does not wait; waiters imply an owner; the queue is in its order; a PRIO owner is at least as urgent as every waiter |
| `MutexSpec.InheritanceExact` | rt-thread/src/ipc.c:721-728 | In every run each thread has its own priority except the owner, which has the most urgent among its own and those that came to wait since it got the mutex |
| `MutexSpec.ReleaseRestores` | rt-thread/src/ipc.c:831-839 | The full release gives the releasing thread back its priority at acquisition and changes no other |
| `MutexTheorems.HoldIsDepth` | rt-thread/src/ipc.c:681-831 | At the end of every run hold is the number of takes of the present owner since it got the mutex less its releases, counted from the calls |
| `MutexTheorems.KeptUntilReleased` | rt-thread/src/ipc.c:681-881 | An owner keeps the mutex through all that others do until it has released it as often as it has taken it, and no longer |
| `MutexTheorems.NestedTakes` | rt-thread/src/ipc.c:681-831 | A thread that takes a free mutex n times over gives it up with its n-th release, not before |
| `MutexTheorems.TakeOutcome` | rt-thread/src/ipc.c:676-777 | A take succeeds if and only if the mutex is free or the caller owns it, and the caller owns it afterwards; else it waits, or has timed out with nothing changed |
| `MutexTheorems.ReleaseOutcome` | rt-thread/src/ipc.c:816-822 | A release succeeds if and only if the caller owns the mutex; else nothing changes |
| `MutexSpec.HandOffPrio` | rt-thread/src/ipc.c:842-861 | By priority, the mutex goes to the most urgent waiter, the longest waiting among equals |
| `MutexSpec.HandOffFifo` | rt-thread/src/ipc.c:842-861 | In arrival order, the new owner is as urgent as all other waiters if and only if it was so by itself |
| `MutexSpec.FifoInversion` | rt-thread/src/ipc.c:852-858 | A run after which a thread of priority 20 owns a FIFO mutex a thread of priority 5 waits for |
| `Mutex.Mutex.Take` | rt-thread/src/ipc.c:654-777 | The fields change as the take step says, with inheritance before the suspension; Taken if and only if the caller owns the mutex afterwards, and then hold is one more |
| `Mutex.Mutex.Release` | rt-thread/src/ipc.c:790-881 | The fields change as the release step says; a thread that is not the owner gets an error; the owner keeps the mutex with one hold less if and only if it had more than one |
| `Mutex.Mutex.Expire` | rt-thread/src/thread.c:807-829 | A waiter that times out leaves the queue; the owner keeps the priority it inherited |
| `EventSpec.StaysUnsatisfied` | rt-thread/src/ipc.c:1064-1082 | Bits that disappear fulfil no condition |
| `EventSpec.WakeIsReceive` | rt-thread/src/ipc.c:1063-1095 | A woken thread receives and clears exactly what an immediate receive at that point would |
| `EventSpec.WokenAsReceived` | rt-thread/src/ipc.c:1056-1100 | The scan treats each waiting thread as if it received after those before it in the list |
| `EventSpec.ScanLeavesNone` | rt-thread/src/ipc.c:1056-1100 | After the scan no thread still waits whose condition holds, although the bits change during the scan |
| `EventSpec.ScanSplits` | rt-thread/src/ipc.c:1056-1100 | The threads still waiting keep their order; all others are woken |
| `EventTheorems.RecvExact` | rt-thread/src/ipc.c:1160-1190 | All wanted bits set, for AND, or any, for OR: then exactly the wanted bits are cleared if the caller asked for clearing, and none otherwise; if the condition does not hold no bit changes, and the caller waits if it may |
| `EventTheorems.ScanTurn` | rt-thread/src/ipc.c:1063-1095 | At its turn a waiting thread is woken if and only if its condition holds of the bits left by then; it receives its wanted bits that are left, which are cleared if and only if it asked for that |
| `EventTheorems.BitsConserved` | rt-thread/src/ipc.c:1056-1100 | Each bit set before the scan is set afterwards and was received by no clearing thread, or is gone and was received by exactly one |
| `EventTheorems.ClearedOnce` | rt-thread/src/ipc.c:1090-1091 | A thread woken after a clearing one receives none of its bits |
| `EventTheorems.OneReceiverPerSend` | rt-thread/src/ipc.c:1029-1237 | No bit set by one send is received by two clearing threads: in every run a bit is sent at least as often as it is received by clearing threads, and once more if it is still set |
| `EventSpec.After` | rt-thread/src/ipc.c:1029-1274 | At the end of every run, also with priorities that change, no waiting thread has its condition fulfilled by the event bits |
| `Event.Event.Send` | rt-thread/src/ipc.c:1029-1111 | The loop over the list does the scan and resumes the threads it wakes, in list order; each bit stays or is received by exactly one clearing thread |
| `Event.Event.Recv` | rt-thread/src/ipc.c:1127-1237 | Received if and only if all (AND) or any (OR) of the bits are set: exactly the wanted bits that are set, which are cleared if and only if that was asked for; else an error or suspension and no bit changes |
| `Event.Event.Reset` | rt-thread/src/ipc.c:1257-1274 | No bits and no waiting threads |
| `Event.Event.SetPriority` | rt-thread/src/thread.c:620-673 | The priority of a waiting thread may change at any time; the list stays as it is |
| `Waiters.Waiters.ResumeReceiver` | rt-thread/src/ipc.c:134-146 | The first sleeping receiver, if any, is woken |
| `Waiters.Waiters.ResumeAll` | rt-thread/src/ipc.c:157-184 | Both lists are empty afterwards |
| `RingMath.WindowPut` | rt-thread/src/ipc.c:1535-1542 | Writing at the input offset makes the window of the ring one element longer |
| `RingMath.WindowGet` | rt-thread/src/ipc.c:1683-1691 | Reading at the output offset leaves the window one place on |
| `Mailbox.Mailbox.Send` | rt-thread/src/ipc.c:1442-1561 | Sent iff there was room; mails got and still there are, in order, the mails put; nobody is stranded |
| `Mailbox.Mailbox.Recv` | rt-thread/src/ipc.c:1590-1714 | The oldest mail iff there was one; nobody is stranded |
| `Mailbox.Mailbox.Put` | rt-thread/src/ipc.c:1535-1542 | in_offset stays (out_offset + entry) modulo the size |
| `Mailbox.Mailbox.Expire` | rt-thread/src/thread.c:807-829 | A sleeper that times out strands nobody |
| `Mailbox.Mailbox.Reset` | rt-thread/src/ipc.c:1734-1755 | An empty box and no sleepers |
| `Mailbox.Mailbox.SetPriority` | rt-thread/src/thread.c:620-673 | The priority of a sleeping thread may change at any time; the lists stay as they are |
| `MessageSpec.After` | rt-thread/src/ipc.c:1975-2437 | In every interleaving of senders, urgent senders, receivers, timeouts, resets and changes of priority each slot is in exactly one place, slots in flight hold what their threads put or found there, and nobody is stranded |
| `MessageSpec.StepGood` | rt-thread/src/ipc.c:1975-2437 | Every section and every copy keeps that, whatever other threads are in the middle of |
| `MessageSpec.RunIsDeque` | rt-thread/src/ipc.c:2090-2342 | Any interleaving does to the messages what its linking and taking sections do, in their order, to a plain double-ended queue of whole messages |
| `MessageSpec.OthersKeep` | rt-thread/src/ipc.c:2085-2088 | No operation touches a slot in flight with another thread |
| `MessageSpec.SentWhole` | rt-thread/src/ipc.c:2083-2097 | What a sender copied is what it links later, whatever others do in between |
| `MessageSpec.ReceivedWhole` | rt-thread/src/ipc.c:2338-2356 | What a receiver takes from the front is what it copies out later, whatever others do in between |
| `MessageQueue.MessageQueue.Do` | rt-thread/src/ipc.c:1975-2437 | Each operation on the links and bytes does exactly the step of the interleaving model, from any state with any slots in flight |
| `MessageQueue.MessageQueue.GrabSlot` | rt-thread/src/ipc.c:2005-2083 | The slot taken from the free list was in no other place and is now in flight with this thread |
| `MessageQueue.MessageQueue.Fill` | rt-thread/src/ipc.c:2085-2088 | Copying with interrupts enabled changes only the bytes of the slot in flight, and its link to null for the tail |
| `MessageQueue.MessageQueue.LinkTail` | rt-thread/src/ipc.c:2090-2111 | The message copied becomes the last one; one receiver is woken |
| `MessageQueue.MessageQueue.LinkHead` | rt-thread/src/ipc.c:2194-2211 | The urgent message copied becomes the first one; one receiver is woken |
| `MessageQueue.MessageQueue.Take` | rt-thread/src/ipc.c:2262-2352 | The first message leaves the queue, in flight with this thread |
| `MessageQueue.MessageQueue.GiveBack` | rt-thread/src/ipc.c:2357-2366 | The slot is free again; one sender is woken |
| `MessageQueue.MessageQueue.Reset` | rt-thread/src/ipc.c:2406-2437 | All queued slots are free, in reverse order in front; slots in flight stay with their threads |
| `MessageQueue.MessageQueue.Send` | rt-thread/src/ipc.c:1975-2124 | Uninterrupted: one more message at the end that begins with the bytes sent; an error if too long |
| `MessageQueue.MessageQueue.Urgent` | rt-thread/src/ipc.c:2155-2226 | Uninterrupted: one more message in front that begins with the bytes sent |
| `MessageQueue.MessageQueue.Receive` | rt-thread/src/ipc.c:2240-2384 | Uninterrupted: the first message, cut to the size asked for |
| `MessageQueue.ChainSnoc` | rt-thread/src/ipc.c:2092-2097 | Linking behind the tail extends the chain by one slot |
| `KernelTheorems.After` | rt-thread/src/thread.c:80-829 | In every run in which no section finds its thread otherwise than it expects (rt_thread_resume: ready at its first section, linked at its second; rt_ipc_list_suspend: suspended and linked already; the end of a deletion: linked), each thread is on the one queue its state dictates: ready on the list of its priority unless it is being deleted, running the current thread and on no list, suspended on at most one wait list; any other run is broken there |
| `KernelTheorems.StepGoodIff` | rt-thread/src/thread.c:332-798 | Every step keeps that, except exactly a first section of rt_thread_resume for a ready thread that is not being deleted, a second one for a linked thread, a wait of a thread that is neither running nor suspended and linked nowhere, and the end of a deletion of a thread that is linked again |
| `KernelRaces.OneResumeSafe` | rt-thread/src/thread.c:774-794 | One rt_thread_resume at a time never goes wrong, whatever happens to other threads between its test and its sections |
| `KernelRaces.ResumeInBetween` | rt-thread/src/thread.c:784-794 | From any state with the thread asleep, a whole resume of it between the two sections of another breaks the lists |
| `KernelRaces.ResumeBeforehand` | rt-thread/src/thread.c:774-787 | So does one between the test of the other and its first section |
| `KernelRaces.DoubleResume` | rt-thread/src/thread.c:289-320 | Such a run from the start of the system |
| `KernelRaces.WaitTwice` | rt-thread/src/ipc.c:80-123 | With the scheduler locked a running thread that waits goes on, since rt_schedule does nothing, and its second wait breaks the lists, from any state |
| `KernelRaces.LockedWaits` | rt-thread/src/ipc.c:80-123 | Such a run from the start of the system |
| `KernelRaces.UnlockedWaitSafe` | rt-thread/src/ipc.c:80-123 | A wait with the scheduler unlocked is safe for the wait that comes next, whoever waits, if rt_schedule runs in between with a thread ready, before anybody locks the scheduler |
| `KernelRaces.HandedWaitSafe` | rt-thread/src/ipc.c:80-123 | A wait never goes wrong in a run in which, since the current thread was last stopped, rt_schedule chose a thread or the stopped one was woken |
| `KernelRaces.ReadyNowhere` | rt-thread/src/thread.c:432-462 | Between the sections of a deletion a ready thread is in no list |
| `KernelRaces.TimeoutInBetween` | rt-thread/src/thread.c:432-462 | From any state with the thread asleep, a timeout between the sections of its deletion breaks the lists |
| `KernelRaces.DeleteSafe` | rt-thread/src/thread.c:432-462 | The deletion of a thread that is not current is safe, whatever happens between its sections to other threads |
| `KernelRaces.DetachSafe` | rt-thread/src/thread.c:342-370 | So is the last section of rt_thread_detach |
| `KernelRaces.SelfDeleteSafe` | rt-thread/src/thread.c:432-462 | A running thread can delete itself |
| `KernelTheorems.ScheduleMostUrgent` | rt-thread/src/scheduler.c:418-538 | With the scheduler unlocked and something to run, the thread that runs after rt_schedule is at least as urgent as every ready thread |
| `KernelTheorems.ScheduleInTurn` | rt-thread/src/scheduler.c:437-471 | A thread newly chosen was the head of its ready list; the one that gave way is last of its list; no other list changes |
| `KernelSpec.InsertGood` | rt-thread/src/scheduler.c:708-742 | Inserting an unlinked thread keeps all threads on the queues their states dictate |
| `KernelSpec.SuspendGood` | rt-thread/src/thread.c:715-754 | So does suspending, in whatever state the section finds the thread |
| `KernelSpec.UnlinkGood` | rt-thread/src/thread.c:784-787 | So does unlinking any thread but a ready one that is not being deleted |
| `KernelSpec.SuspendOnGoodIff` | rt-thread/src/ipc.c:80-123 | Waiting on the list of an IPC object does so if and only if the thread is ready or running, or suspended and linked nowhere |
| `KernelSpec.SetPriorityGood` | rt-thread/src/thread.c:630-671 | So does changing a priority |
| `KernelSpec.PriorityExact` | rt-thread/src/thread.c:630-671 | A change of priority sets it for a thread in any state, and changes nothing else but the place of a ready thread |
| `KernelFields.PriorityIsLast` | rt-thread/src/thread.c:289-671 | At the end of every run the priority of a thread is the one set last, by creation, start-up or change |
| `KernelFields.StatDiagram` | rt-thread/src/thread.c:80-829 | How each event changes the state of each thread: the one it is about goes where the state diagram says, and the scheduler only makes the running one ready and a ready one running |
| `KernelFields.PlacesAfter` | rt-thread/src/thread.c:80-829 | Where each event leaves the thread it is about: on its ready list, on the list it waits in, in front of the defunct list, or on none |
| `KernelFields.StaysClosed` | rt-thread/src/thread.c:80-462 | A closed thread is never ready and never runs again, unless a call of rt_thread_resume or rt_thread_suspend that tested it before goes on |
| `KernelFields.LockIsDepth` | rt-thread/src/scheduler.c:878-965 | At the end of every run the lock count is the number of calls of rt_enter_critical not undone by rt_exit_critical, and above 0 the current thread stays |
| `KernelSpec.ExitGood` | rt-thread/src/thread.c:80-115 | So does rt_thread_exit |
| `KernelSpec.RemovedGood` | rt-thread/src/thread.c:342-346 | So does the first section of a deletion |
| `KernelSpec.DeletedGoodIff` | rt-thread/src/thread.c:351-370 | Closing a thread does so if and only if it is linked nowhere or defunct; linking it into the defunct list, if and only if it is closed and linked nowhere; both at once, as in rt_thread_delete, if and only if it is linked nowhere |
| `KernelSpec.TickGood` | rt-thread/src/clock.c:72-94 | So does the end of a time slice |
| `RoundRobin.TurnComes` | rt-thread/src/clock.c:82-97 | A ready thread runs as soon as the ticks passed and the ticks lost make up those left at the start to the current thread and to those ahead of it, and not before, in every run in which nothing names it, no more urgent thread runs or becomes ready and the scheduler is not locked; lost are the ticks of a slice that rt_schedule cuts short, because the thread waits, ends, is stopped or has its yield flag set, and of threads ahead that leave the ready list |
| `RoundRobin.RoundRobinBound` | rt-thread/src/clock.c:82-97 | It runs after at most the ticks left to the current thread and those ahead of it, and after exactly as many if and only if until then rt_schedule cuts no slice short and no thread ahead leaves the ready list |
| `RoundRobin.TickNearer` | rt-thread/src/clock.c:82-97 | Each tick brings the turn exactly one tick nearer |
| `RoundRobin.ScheduleNearer` | rt-thread/src/scheduler.c:418-538 | rt_schedule brings the turn nearer by exactly the ticks left to the current thread, if that gives way, and changes nothing otherwise |
| `RoundRobin.OtherNearer` | rt-thread/src/thread.c:80-829 | Any other event brings it nearer by exactly the ticks of a thread ahead that it takes off the ready list, and changes nothing otherwise |
| `RoundRobin.EqualTakesOverIff` | rt-thread/src/scheduler.c:445-453 | A running thread gives way to a ready equal if and only if its yield flag is set |
| `RoundRobin.SliceCutShort` | rt-thread/src/clock.c:87-95 | The flag outlives a slice that ends without a ready equal, so a later equal takes over although a full new slice is left |
| `Words.BitsOfOps` | rt-thread/src/scheduler.c:734-737 | On the sets of one bits, and, or and and-not of words are intersection, union and difference |
| `Words.BitsOfMask` | rt-thread/src/thread.c:302-307 | The set of one bits of 1 << i is {i} |
| `Words.BitsOfZero` | rt-thread/src/scheduler.c:432 | Only the word 0 has no one bit |
| `Words.TableIs` | rt-thread/src/kservice.c:1286-1304 | The table gives the lowest one bit of every byte |
| `Words.Ffs` | rt-thread/src/kservice.c:1316-1330 | The cascade over the four bytes and the table of lowest bits finds one more than the lowest one bit, 0 without any |
| `Bitmap.TwoLevelsSet` | rt-thread/src/scheduler.c:734-737 | Setting both bits makes exactly one more priority ready in the two-level bitmap |
| `Bitmap.TwoLevelsClear` | rt-thread/src/scheduler.c:820-831 | Clearing the bit in the table, and the group bit with the last of its entry, makes exactly that priority not ready |
| `Bitmap.AddMarks` | rt-thread/src/scheduler.c:734-737 | The words after setting the masks of a thread say that its priority is ready too, in both layouts |
| `Bitmap.DropMarks` | rt-thread/src/scheduler.c:820-831 | The words after clearing them say that it is not; the masks of a thread never started change nothing |
| `Bitmap.GroupTells` | rt-thread/src/scheduler.c:432 | The group word is 0 exactly when no priority is ready |
| `Bitmap.MostUrgent` | rt-thread/src/scheduler.c:162-184 | The search finds the least ready priority in both layouts |
| `Kernel.Scheduler.PickHighest` | rt-thread/src/scheduler.c:162-184 | In both layouts the words lead to the head of the first non-empty ready list |
| `Kernel.Scheduler.InsertThread` | rt-thread/src/scheduler.c:708-742 | Lists, states and bitmap words after inserting |
| `Kernel.Scheduler.RemoveThread` | rt-thread/src/scheduler.c:805-835 | Lists, states and bitmap words after removing |
| `Kernel.Scheduler.Schedule` | rt-thread/src/scheduler.c:418-538 | The scheduling step, decided from the bitmap |
| `Kernel.Scheduler.SuspendThread` | rt-thread/src/thread.c:715-754 | The suspend step, an error for a thread neither ready nor running |
| `Kernel.Scheduler.SuspendOnList` | rt-thread/src/ipc.c:80-123 | The current thread, whatever its state, goes to its place in the list of an IPC object, sorted or not; the lists stay right if and only if it is ready or running, or suspended and linked nowhere |
| `Kernel.Scheduler.Resume` | rt-thread/src/thread.c:764-798 | When nothing comes in between, the thread becomes ready, an error unless it was suspended |
| `Kernel.Scheduler.Timeout` | rt-thread/src/thread.c:807-829 | The thread becomes ready and the scheduler runs |
| `Kernel.Scheduler.ChangePriority` | rt-thread/src/thread.c:620-673 | The thread has the priority asked for, whatever its state, and no other thread changes; a ready thread moves to the end of the list of its new priority, with its masks |
| `Kernel.Scheduler.ExitThread` | rt-thread/src/thread.c:80-115 | The current thread is on no list, or first of the defunct ones |
| `Kernel.Scheduler.DeleteFirst` | rt-thread/src/thread.c:439-443 | The first section of a deletion: the thread is on no list |
| `Kernel.Scheduler.CloseThread` | rt-thread/src/thread.c:351-352 | rt_thread_detach closes the thread; the lists stay right if and only if it is linked nowhere or defunct |
| `Kernel.Scheduler.DeleteSecond` | rt-thread/src/thread.c:448-457 | The second section of rt_thread_delete: closed and first of the defunct list; the lists stay right if and only if the thread is linked nowhere |
| `Kernel.Scheduler.DetachSecond` | rt-thread/src/thread.c:361-366 | The second section of rt_thread_detach: first of the defunct list; the lists stay right if and only if the thread is closed and linked nowhere |
| `Kernel.Scheduler.TickIncrease` | rt-thread/src/clock.c:72-97 | The tick step |
| `Kernel.Scheduler.StartUp` | rt-thread/src/thread.c:289-320 | A new thread becomes ready at the end of the list of its initial priority |
| `Kernel.Scheduler.Start` | rt-thread/src/scheduler.c:246-277 | The head of the most urgent ready list becomes the current thread |
| `Kernel.Scheduler.ExitCritical` | rt-thread/src/scheduler.c:940-965 | The lock count never goes below 0, and the last unlock schedules |
| `Format.VsnPrintf` | rt-thread/src/kservice.c:777-1040 | The result is the length of the whole text for any size; of size > 0 characters the first min(length, size - 1) are the text, then a NUL, and nothing else changes |
| `Format.Output.PrintNumber` | rt-thread/src/kservice.c:606-775 | print_number appends exactly the number text, whatever room there is |
| `Format.Output.ReverseDigits` | rt-thread/src/kservice.c:676-683 | The digits are found last first and never leave the temporary array |
| `Format.ScanDirective` | rt-thread/src/kservice.c:820-883 | Flags, width, precision and qualifier as the specification reads them |
| `Format.PutConversion` | rt-thread/src/kservice.c:888-1024 | The text of one conversion |
| `FormatTheorems.IntegerPrinted` | rt-thread/src/kservice.c:964-1024 | Every integer conversion, with any flags, width, non-zero precision and qualifier, prints the number its argument stands for, signed for d and i only and 16 bits wide for h, in its base and case; the sign, the zeros and the blanks stand where the flags ask for them, and the width and the number of digits are those asked for |
| `FormatTheorems.ReadsBack` | rt-thread/src/kservice.c:964-1024 | Reading that text back gives the number |
| `FormatTheorems.PlainConversions` | rt-thread/src/kservice.c:964-1024 | %d and %i read back to the signed argument, %u, %x and %X to the word |
| `FormatTheorems.DigitsLeftOut` | rt-thread/src/kservice.c:760 | With precision 0 sign and padding are printed without digits |
| `FormatTheorems.PointerPrinted` | rt-thread/src/kservice.c:940-955 | %p prints the address in base 16, with 8 digits where no width is given |
| `FormatTheorems.StringPrinted` | rt-thread/src/kservice.c:911-938 | %s prints the string, cut by a positive precision, at the end of its field, or at the front if aligned to the left |
| `FormatTheorems.CharPrinted` | rt-thread/src/kservice.c:888-909 | %c prints the low byte of its argument there |
| `FormatTheorems.PercentPrinted` | rt-thread/src/kservice.c:957-960 | %% prints a percent sign and takes no argument to convert |
| `FormatTheorems.DirectiveRead` | rt-thread/src/kservice.c:820-883 | Flags in any order and number, a width, a precision and a qualifier, given as digits or by stars, are read as they are spelled |
| `FormatTheorems.InTurn` | rt-thread/src/kservice.c:810-1026 | Each directive prints what it prints by itself and takes the next arguments: one for each star and one to convert |
| `FormatSpec.DecimalRoundTrip` | rt-thread/src/kservice.c:651-683 | Reading a decimal number back gives the signed argument |
| `FormatSpec.NumberWidth` | rt-thread/src/kservice.c:685-774 | A number has the width asked for or more, but precision 0 leaves its digits out |
| `FormatSpec.CutsIff` | rt-thread/src/kservice.c:919 | A precision limits a string if and only if it is positive or the string is empty |
| `FormatSpec.NotCut` | rt-thread/src/kservice.c:919 | %.0s of a string of one character prints it |
| `FormatSpec.OctalIff` | rt-thread/src/kservice.c:568-585 | The digits %o prints are octal digits if and only if the number is below 8 |
| `FormatSpec.DigitsFit` | rt-thread/src/kservice.c:634 | No 32-bit number has more than 10 digits |
| `FormatSpec.DirectiveAdvances` | rt-thread/src/kservice.c:820-883 | A directive is read forward and never past the end of the format |
| `FormatSpec.PlainText` | rt-thread/src/kservice.c:810-818 | A format without a percent sign is printed as it is |

## Left out

- SMP, IPIs, spinlocks and CPU binding: not configured here.
- Signals, and the retry of `rt_mutex_take` after `-RT_EINTR`: stack rewriting has no place in the model.
- Context switches, stacks, the overflow check, hooks, assertions' handlers and debug output: a switch is the assignment of the current thread.
- Soft timers and the timer thread: they use the same list; the hard timer path carries the properties.
- `rt_thread_delay`, `rt_thread_delay_until`, `rt_thread_find` and the object registry: nothing beyond the steps modelled.
- Semaphores and memory pools: simpler forms of the wait-queue and free-slot arguments. The heap semaphores appear only as the serialisation of heap operations.
- `rt_calloc`, `rt_malloc_align` and the block copy routines: small wrappers.
- `rt_realloc` of the slab allocator and the `used_mem` statistic there: the small heap carries reallocation and accounting.
- Contents of the blocks of the slab allocator and of memheap: only the small heap models the bytes of payloads.
- Wrap-around of sizes near 2^32, of 16-bit counters and of the 8-bit mutex hold: counters are unbounded integers; ticks, argument words and the time slice counter do wrap.
- The end-before-start guard of `rt_vsnprintf` for a size that wraps the address space, and the wrap-around of `skip_atoi`: unbounded integers again.
- `MemHeap.MemHeap.Realloc`: does not state that the contents are copied, because payload bytes of memheap are not modelled.
- `Kernel.Scheduler.Resume`: rt_thread_resume when nothing comes in between; its test and its two sections are events of their own in `KernelTheorems.Event`, so runs interleave between them.
- `TimerList.Timers.Start`: one step, though rt_timer_start reads the tick and sets the deadline with interrupts enabled, between its two sections; a start preempted there for at least the ticks of the timer links it overdue, and it fires at the first check after that, however late.
- `TimerList.Timers.InitTimer`: timers of 0 ticks, which rt_timer_start does not refuse; such a timer is due at once, and a periodic one is due again whenever it is restarted, so that rt_timer_check would not end.
- `TimerList.Timers.Stop`: one step, though rt_timer_stop clears the flag after it has enabled interrupts again.
- `KernelTheorems.Event`: rt_thread_exit and a wait of the current thread on an IPC object are one event each; the test of rt_thread_suspend is not an event, its section may come at any time; neither is the test for RT_THREAD_INIT in rt_thread_delete and rt_thread_detach, since a new thread is in no list.
- `RoundRobin.RoundRobinBound`: nothing about runs in which a more urgent thread becomes ready, the scheduler is locked, or the waiting thread itself is suspended, deleted or given another priority.
- `Mailbox.Mailbox.Send`: like Recv, and like `Event.Event.Recv` and `Mutex.Mutex.Take`, only for threads that do not wait already; a thread that waits with the scheduler locked runs on, and can go round the loop of rt_mb_send_wait or call again while on a list, which is the case of `KernelRaces.WaitTwice`.
- `MessageSpec.Op`: the same holds of a thread that waits on the message queue, whose loops a locked scheduler lets it go round while on a list.
- `MutexSpec.After`: a thread that owns the mutex waits for nothing else, and priorities change in no other way, as the priority inheritance of the kernel supposes.
- `MessageQueue.MessageQueue.Send`: the uninterrupted call, like Urgent and Receive; interleavings are the operations of `MessageSpec.Op`, carried out by `MessageQueue.MessageQueue.Do`.
- Remaining time after a wake-up in the waiting loops of mailbox and message queue: each round of a loop is one call that waits or does not.
- The words of event sets: `Event.Event` keeps the set of one bits; `Words.BitsOfOps` says what the operations on the words do to it.
