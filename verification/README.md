# The kernel's resource managers and locks, in Dafny

A model of the memory allocators, page tables, process forest, scheduler queues, lookup structures and locks of
the kernel, with proofs of what they keep. `dafny verify dfyconfig.toml` checks the project.

Operations that the C code does in place are methods of classes whose fields are the C structures; their contracts
give the new state as a function of the old one, and lemmas prove what that function means. The two lock protocols
are state machines in which one access to a shared word is one step, so the results hold for every interleaving.

| files | what they model |
|---|---|
| `Extents`, `ExtentRuns` | the boundary tags of a vmem arena as values: tiling, coalescing, canonical form, whole runs |
| `VmemImport` | an arena that imports from another one, over whole runs |
| `VmemTags`, `Vmem`, `HighBits` | the arena itself: linked tags, linked spans, per-span hashes and free lists that agree |
| `PhysMem` | the bitmap page allocator |
| `LiballocLayout`, `LiballocHeap`, `Liballoc` | malloc, free and realloc, on top of the page allocator |
| `KmemLayout`, `KmemCache` | the slab layout and the slab cache |
| `RwLock`, `RwLockProgress` | the reader/writer lock, step by step, and when a writer or a reader can get in |
| `SchedLock`, `SchedLockProgress` | the handshake that halts another CPU's scheduler, and when it can return |
| `SchedSpec`, `SchedRuns`, `Scheduler` | the run queue and the sorted pause queue: what each operation does, every run, and the arrays |
| `Paging`, `PageCopy`, `Ualloc` | two-level page tables as a flat map, copies through them, `user_ensure` |
| `Family`, `Forest` | the intrusive forest, thread deletion, the collector's loop, the process tree |
| `Htable`, `Iqueue` | the rehashing table and the resizing ring |
| `Multiples`, `Sequences`, `Options`, `PageSize` | shared arithmetic, sequences, the option type and the size of a page |

## Where the code does not do what one would expect

- `num_readers += 1` in the reader/writer lock is not atomic while releases run without the spinlock. A decrement
  that falls inside it is lost. Exclusion survives (`RwLock.Exclusion`), but no writer gets in ever again
  (`RwLock.LostForGood`, `RwLock.ShutToWriters`); a writer can get in exactly as long as no decrement has been lost
  (`RwLockProgress.WriterGetsInExactly`). The next thread that asks to write then shuts the lock to readers as well
  (`RwLockProgress.ShutForGood`, `RwLockProgress.ReaderGetsInExactly`). With an atomic increment the count is exact
  (`RwLock.AtomicIncrement`).
- Two threads that completely lock each other's CPU at the same time wait for each other for good
  (`SchedLockProgress.CrossLockingReached`, `SchedLock.DeadlockIsForGood`). A call of `sched_lock` can return exactly
  when its caller is in no such set (`SchedLockProgress.ReturnsExactly`, `SchedLockProgress.GrantedExactly`). A thread
  that yields with the lock of its own CPU is such a set by itself. Safety of the handshake does not depend on it.
- `sched_unlock` of another CPU's scheduler leaves the interrupts of the caller off, even if they were on before
  `sched_lock` (`SchedLock.FlagComesBackExactly`).
- The page allocator's search passes over runs that start among the first blocks when it wraps around. For every
  request of three pages or more, some run of its operations ends in a refusal although enough pages are free and in a
  row; for one or two pages no run does (`PhysMem.CompleteExactly`). Which runs it can miss is known
  (`PhysMem.SearchMisses`).
- Between `pause` and `remove_last` a thread that goes to sleep is still RUNNING. If another thread suspends it just
  then, it sleeps without being DORMANT; set RUNNING before it wakes, it is put on the run queue while it is still in
  the pause queue (`SchedRuns.SleeperQueued`). Threads are in two places for no other reason (`SchedRuns.EveryRun`).
  The collector does not do this with the threads it finishes (`SchedRuns.NeverRequeued`); the thread call of
  `kernel/old.syscalls:188-203`, which passes on any state, could.
- A thread that is set RUNNING while the run queue is full is RUNNING and in no queue
  (`Scheduler.SchedulerInfo.SetThreadState`).
- The position of the run queue misses the next thread when the thread that gives up its turn for good stood last, or
  when a thread behind the next one is taken out (`SchedSpec.TurnPasses`, `SchedSpec.NextExactly`). The unsigned
  position wraps around there, and may fall on any thread.
- A page table has the access rights of the first mapping in its 4 MB. A page that is mapped there later allows no more
  than that, whatever is asked for (`Paging.Directory.AllowsAsTheTable`).
- An arena whose source hands out address 0 takes that for a refusal, and the allocation of the source is lost
  (`VmemImport.EveryRun`, `VmemImport.NullIsLost`).
- A ring whose initial size is not a multiple of its growth step overruns when it shrinks
  (`Iqueue.SafeExactlyWhenEven`).
- A hash table can reach a rehash that drops elements or rehashes again exactly when its percentage is below 49 or
  above 195 (`Htable.SafeExactly`); the run for less than 49 fills a table of 100 slots while memory for a larger one
  is refused. The kernel uses 75 and 80.
- A slab cache for empty objects with an owner pointer only does not find the last object of a slab again
  (`KmemLayout.InsideExactly`).
- The header of the paging code says that `page_present` returns 0 for a missing page; the code returns 0 for a
  present one, and the model follows the code.
- `user_alloc_hard` records the number of pages that were already mapped, which is 0, as the virtual address. The
  model does the same (`Ualloc.Region`).
- `page_find_free` bounds only the start of the run by `finish`. The run ends above it exactly when no unmapped run
  ends below it (`Paging.Directory.EndsBelowExactly`); `Paging.Directory.EndsAbove` is an input.

## Model

| member | source | states |
|---|---|---|
| `HighBits.HighBitRange` | kernel/mm/vmem.c:36-50 | the bit index that `highbit` returns brackets a positive value between two powers of two |
| `HighBits.HighBitMonotone` | kernel/mm/vmem.c:36-50 | a larger value never has a smaller bit index, so the classes of the free lists are ordered |
| `Extents.FitIffRun` | kernel/mm/vmem.c:216-233 | a free tag of at least n bytes exists if and only if n free addresses lie in a row inside one span |
| `Extents.RunInOneExtent` | kernel/mm/vmem.c:350-393 | any run of free addresses inside a span lies within a single free tag, because neighbours are never both free |
| `Extents.Same` | kernel/mm/vmem.c:187-213 | two tags that share an address are the same tag: the tags of an arena are disjoint |
| `Extents.Covers` | kernel/mm/vmem.c:430-528 | every address of a span is in some tag of that span: the tags leave no hole |
| `Extents.ApartExactly` | kernel/mm/vmem.c:430-460 | spans are apart if and only if they have no address in common |
| `Extents.AllocKeeps` | kernel/mm/vmem.c:287-302 | cutting a request off a free tag keeps the exact tiling and the spans, and adds exactly the new allocation to those in use |
| `Extents.FreeKeeps` | kernel/mm/vmem.c:346-393 | freeing and melting keeps the exact tiling with no two free neighbours, and removes exactly the freed allocation |
| `Extents.AddKeeps` | kernel/mm/vmem.c:430-523 | adding a span apart from the others keeps the tiling, adds exactly that span, and touches no allocation |
| `Extents.MergeTests` | kernel/mm/vmem.c:352-377 | the address comparisons of `vmem_free` accept a free neighbour if and only if it belongs to the same span |
| `Extents.FreeInSteps` | kernel/mm/vmem.c:350-393 | melting left and then right, as the source does, yields the same tags as replacing the whole free stretch at once |
| `ExtentRuns.AllocQuantized` | kernel/mm/vmem.c:273-302 | sizes and offsets stay multiples of the quantum through an allocation |
| `ExtentRuns.FreeQuantized` | kernel/mm/vmem.c:346-393 | and through a free |
| `ExtentRuns.AddQuantized` | kernel/mm/vmem.c:430-504 | and through the addition of a span |
| `ExtentRuns.SlotOfAddress` | kernel/mm/vmem.c:307-308 | an address falls into the hash slot of a tag if and only if it lies in the first quantum of the tag; every tag has a slot |
| `ExtentRuns.Canonical` | kernel/mm/vmem.c:346-393 | two tag lists with the same spans and the same allocations are equal: melting leaves a canonical form |
| `ExtentRuns.AllocFree` | kernel/mm/vmem.c:287-401 | allocating and then freeing gives back the very same tags |
| `ExtentRuns.UndoAlloc` | kernel/mm/vmem.c:310-318 | so does freeing by any address in the first quantum of the allocation, which is what the rollback does |
| `ExtentRuns.RunGoesOn` | kernel/mm/vmem.c:266-528 | a run with one more operation is the operation after the run |
| `ExtentRuns.RunsKeepTiling` | kernel/mm/vmem.c:266-528 | every run of additions, allocations and frees keeps the tiling on quantum boundaries |
| `ExtentRuns.HistoryIndependent` | kernel/mm/vmem.c:266-528 | two runs that end with the same spans and allocations end with the same tags, whatever the order of operations |
| `VmemTags.SplitTag` | kernel/mm/vmem.c:187-213 | the right end of a free tag becomes a linked tag of its own; the doubly linked list stays consistent |
| `VmemTags.Absorb` | kernel/mm/vmem.c:359-368 | a tag takes over its right neighbour, which leaves the doubly linked list |
| `VmemTags.InsertTag` | kernel/mm/vmem.c:508-523 | a tag enters the doubly linked list at its place |
| `VmemTags.InsertSpan` | kernel/mm/vmem.c:487-499 | a span enters the singly linked span list at its place |
| `VmemTags.FlUnlink` | kernel/mm/vmem.c:82-89 | a tag leaves its free list, which keeps exactly its other members |
| `VmemTags.FlPush` | kernel/mm/vmem.c:68-73 | a tag becomes the head of its free list, in front of exactly the former members |
| `Vmem.Arena.constructor` | kernel/mm/vmem.c:106-137 | an arena without spans satisfies the whole invariant and has no tags; it caches one class per bit of the limit |
| `Vmem.Arena.Create` | kernel/mm/vmem.c:96-147 | the new arena has one free tag that covers the initial span, or no tag if that is empty |
| `Vmem.Arena.GetSpan` | kernel/mm/vmem.c:20-33 | the span that contains an address, or none if no span does |
| `Vmem.Arena.RemFreelist` | kernel/mm/vmem.c:77-90 | exactly this tag leaves the free lists |
| `Vmem.Arena.AddFreelist` | kernel/mm/vmem.c:61-74 | exactly this tag enters the free list of its class |
| `Vmem.Arena.AllocSearch` | kernel/mm/vmem.c:216-233 | the plain scan: the first tag that fits, or with best fit the first of the smallest that do; null only if nothing fits |
| `Vmem.Arena.AllocQuantum` | kernel/mm/vmem.c:235-263 | the segregated search: from the lowest class, at or above the starting class, that has a tag that fits, the first such tag, or with best fit the first of the smallest; null only if no listed tag from the starting class on fits |
| `Vmem.Arena.ClassOrder` | kernel/mm/vmem.c:52-58 | tags of a larger class, and tags on no list, are at least as large as all tags of a smaller class |
| `Vmem.Arena.ListedExactly` | kernel/mm/vmem.c:52-74 | on the free lists are exactly the free tags below the size limit, each in the class of its highest bit |
| `Vmem.Arena.ClassReached` | kernel/mm/vmem.c:239-242 | a tag that fits is never in a class below the one where the search starts |
| `Vmem.Arena.InstantFits` | kernel/mm/vmem.c:240-240 | every tag of a class above that of the request fits |
| `Vmem.Arena.Find` | kernel/mm/vmem.c:276-287 | the segregated search with its fallback agrees with the plain scan: null only if no tag fits, and with best fit and no instant fit the least size among all free tags; an instant fit takes the head of the lowest list above the class of the request, if any tag is there |
| `Vmem.Arena.SplitAndList` | kernel/mm/vmem.c:294-300 | the remainder of a split goes back to the free list of its new class |
| `Vmem.Arena.Record` | kernel/mm/vmem.c:304-308 | the slot of the new allocation is empty before, as the source asserts, and holds its tag after; no other slot changes |
| `Vmem.Arena.Erase` | kernel/mm/vmem.c:342-348 | the slot is cleared, and the tag is free but on no list yet |
| `Vmem.Arena.Lookup` | kernel/mm/vmem.c:332-336 | the span and slot of an address lead to the allocation whose first quantum contains it, and to nothing if there is none |
| `Vmem.Arena.MeltIntoLeft` | kernel/mm/vmem.c:352-370 | the left melt is the left step on the tag values |
| `Vmem.Arena.MeltInRight` | kernel/mm/vmem.c:374-393 | the right melt is the right step on the tag values |
| `Vmem.Arena.FreeTag` | kernel/mm/vmem.c:342-401 | the tag list, span list, hashes and free lists agree again after a free |
| `Vmem.Arena.AllocTag` | kernel/mm/vmem.c:291-308 | the four structures agree again after an allocation, whose tag is the cut-off part |
| `Vmem.Arena.GiveBack` | kernel/mm/vmem.c:310-318 | after a failed import the rollback restores exactly the tags of before |
| `Vmem.Arena.Alloc` | kernel/mm/vmem.c:266-325 | keeps the whole invariant; NULL leaves the tags unchanged and, unless the import failed, means that no free tag holds the rounded size; otherwise exactly one free tag is cut: with best fit the smallest, with a plain search the first by address |
| `Vmem.Arena.Free` | kernel/mm/vmem.c:328-401 | keeps the whole invariant; frees exactly the allocation that the address names, or nothing if there is none |
| `Vmem.Arena.Add` | kernel/mm/vmem.c:430-528 | keeps the whole invariant and adds one free tag that covers the new span |
| `VmemImport.GivenBackIsNothing` | kernel/mm/vmem.c:310-318 | an allocation whose import fails leaves the tags of the arena as they were |
| `VmemImport.FindsIts` | kernel/mm/vmem.c:338-339 | by the address that a tag remembers, the free finds an allocation of the source, and it is the one that the tag holds |
| `VmemImport.StepKeeps` | kernel/mm/vmem.c:310-339 | every step of the arena, of its source and of the other callers of the source keeps each allocated tag paired with an allocation of the source of its own, large enough, that no one else holds; an allocation is lost exactly when an import is handed address 0 |
| `VmemImport.EveryRun` | kernel/mm/vmem.c:266-401 | so does every run; all that the source has allocated is held by a tag or by another caller if and only if no import was handed address 0 |
| `VmemImport.NothingLostAboveZero` | kernel/mm/vmem.c:310-318 | with no span of the source at address 0, every run leaves nothing lost |
| `VmemImport.RefusedExactly` | kernel/mm/vmem.c:310-318 | an import is refused if and only if the source can cut it from none of its tags |
| `VmemImport.NullIsLost` | kernel/mm/vmem.c:310-318 | a run in which an import is handed address 0 |
| `VmemImport.LeavesNoTrace` | kernel/mm/vmem.c:266-401 | once the arena has freed all, its source has the very tags that any run leaves which never imported and ends with the same spans and the allocations of the others |
| `PhysMem.ClearUpdate` | kernel/mm/physmem.c:65-69 | changing one bit changes the number of clear bits by one, or not at all |
| `PhysMem.MarkUnmark` | kernel/mm/physmem.c:65-113 | setting a clear run and clearing it again restores the bitmap |
| `PhysMem.RunsApart` | kernel/mm/physmem.c:48-61 | a run that was clear shares no page with a run that was set |
| `PhysMem.AllocOutstanding` | kernel/mm/physmem.c:79-93 | the runs handed out and not yet freed stay set and pairwise disjoint through an allocation |
| `PhysMem.FreeOutstanding` | kernel/mm/physmem.c:97-115 | and through the free of one of them |
| `PhysMem.Pages.constructor` | kernel/mm/physmem.c:203-223 | at first every page is in use and none is free; this is the start of the runs below |
| `PhysMem.NotPassed` | kernel/mm/physmem.c:34-61 | from any offset of the scan on, a clear run still ahead is found, unless it starts before the last page and among the first `pages - 2` blocks |
| `PhysMem.SearchMisses` | kernel/mm/physmem.c:34-61 | so a search that fails has passed over no other run |
| `PhysMem.ReachesGapped` | kernel/mm/physmem.c:28-161 | for every request a run of `memory_set`, `memory_alloc` and `memory_free` from the start, after which one page more than asked for is free, and as many as asked for in a row |
| `PhysMem.CompleteExactly` | kernel/mm/physmem.c:28-161 | over all memories and all runs from the start: `memory_alloc` never refuses while more pages are free than asked for, and enough of them in a row, exactly for requests of one or two pages |
| `PhysMem.Pages.FindRun` | kernel/mm/physmem.c:34-61 | the loop is that search; a block found is in range and wholly clear, and if none is found the only clear runs are those it can pass over |
| `PhysMem.Pages.MultipleAlloc` | kernel/mm/physmem.c:28-75 | exactly the pages of a clear run are set, the count of free pages falls by their number, the search pointer moves behind them; a refusal changes nothing and means that no run is left but those the search can pass over |
| `PhysMem.Pages.Alloc` | kernel/mm/physmem.c:79-93 | a step of those runs; the count of free pages stays exact; one or two pages are granted if and only if more pages than that are free, and that many in a row; a larger request is refused only for too few free pages or if no run is left but those the search can pass over |
| `PhysMem.Pages.Free` | kernel/mm/physmem.c:97-115 | a step of those runs: exactly the pages given back are cleared and counted |
| `PhysMem.Pages.Set` | kernel/mm/physmem.c:118-161 | a step of those runs: marks in use every page that meets the range, or free every page that lies inside it, and keeps the count exact |
| `LiballocLayout.FitIffVacant` | kernel/mm/liballoc.c:412-541 | the scan of cases 2 to 4 finds a place if and only if some vacant stretch of the major is long enough |
| `LiballocLayout.GapWithinFree` | kernel/mm/liballoc.c:343-374 | no gap is larger than size minus usage |
| `LiballocLayout.NoRoomNoFit` | kernel/mm/liballoc.c:343-374 | so case 1 passes over no major that has room |
| `LiballocLayout.InsertOrdered` | kernel/mm/liballoc.c:412-541 | a block placed in a gap keeps the minors address-ordered and disjoint with their headers |
| `LiballocLayout.RemoveOrdered` | kernel/mm/liballoc.c:680-685 | taking a block out keeps them so |
| `LiballocLayout.InsertUsage` | kernel/mm/liballoc.c:412-541 | usage and bytes in use grow by exactly the new block |
| `LiballocLayout.RemoveUsage` | kernel/mm/liballoc.c:675-678 | and shrink by exactly the freed one |
| `LiballocHeap.BlocksApart` | kernel/mm/liballoc.c:243-586 | any two live blocks, in the same major or in different ones, occupy disjoint bytes with their headers |
| `LiballocHeap.AddBlock` | kernel/mm/liballoc.c:378-541 | placing a block keeps every major well formed, its header findable and the totals exact |
| `LiballocHeap.DropBlock` | kernel/mm/liballoc.c:673-685 | so does unlinking one |
| `LiballocHeap.DropEmpty` | kernel/mm/liballoc.c:690-699 | so does taking an empty major off the list |
| `LiballocHeap.AddEmpty` | kernel/mm/liballoc.c:187-237 | so does appending a new major |
| `LiballocHeap.Resized` | kernel/mm/liballoc.c:815-820 | so does changing the size asked for in place |
| `Liballoc.AlignedRange` | kernel/mm/liballoc.c:20-33 | the aligned address is a multiple of four, two to five bytes past the raw one |
| `Liballoc.PayloadInside` | kernel/mm/liballoc.c:252-258 | the aligned payload with its two tag bytes fits into the request plus six bytes |
| `Liballoc.UnalignUndoesAlign` | kernel/mm/liballoc.c:20-44 | UNALIGN leads from every payload back to the raw address that ALIGN started from |
| `Liballoc.UnalignExactly` | kernel/mm/liballoc.c:37-44 | UNALIGN goes back by exactly the tags that are no larger than one ALIGN writes, and ignores any other |
| `Liballoc.PayloadsApart` | kernel/mm/liballoc.c:243-586 | a payload meets no header of a major or minor and no other live block |
| `Liballoc.Heap.constructor` | kernel/mm/liballoc.c:88-99 | an empty heap satisfies the invariant |
| `Liballoc.Heap.Grow` | kernel/mm/liballoc.c:187-237 | asks the page allocator once, for the least number of pages that takes the block with both headers, but for 16 at least; is refused if and only if the page allocator grants nothing for that number, and then changes nothing; or else appends one empty major of pages that no other major has; free pages and major bytes stay balanced |
| `Liballoc.Heap.FindGap` | kernel/mm/liballoc.c:412-541 | the gap that cases 2 to 4 choose is the first that fits |
| `Liballoc.Heap.SkipIsSafe` | kernel/mm/liballoc.c:343-374 | a major passed over in case 1 has no room |
| `Liballoc.Heap.Place` | kernel/mm/liballoc.c:412-541 | the new block is in that gap; no payload byte outside it changes (headers are records of their own, so the links of its neighbours and the usage of its major, which the source writes, are in those records) |
| `Liballoc.Heap.FindPlace` | kernel/mm/liballoc.c:330-570 | the majors before the chosen one, from the best bet on and around, have no room and no more free than the best bet of afterwards; the gap is the first that fits; new pages are asked for, at most once, only if no linked major has room |
| `Liballoc.Heap.Scan` | kernel/mm/liballoc.c:330-570 | the block goes into that gap and nowhere else; NULL exactly when new pages were refused; the loop ends |
| `Liballoc.Heap.Malloc` | kernel/mm/liballoc.c:243-586 | keeps the heap invariant; returns NULL if and only if no linked major has room and the page allocator grants nothing for the least sufficient number of pages, with heap, bytes and pages as before; or else adds exactly one block of the requested payload, in the first gap that fits of the first major with room from the best bet on, or of a new major; without asking no page changes |
| `Liballoc.Heap.Release` | kernel/mm/liballoc.c:688-699 | an emptied major leaves the list and its pages go back |
| `Liballoc.Heap.Unlink` | kernel/mm/liballoc.c:673-710 | removes exactly one block; what is left is well formed with no empty major |
| `Liballoc.Heap.HeaderLeads` | kernel/mm/liballoc.c:673-673 | the block field of a live header leads to the major that holds it |
| `Liballoc.Heap.Free` | kernel/mm/liballoc.c:596-719 | removes exactly the block whose live header lies where the pointer leads; any other pointer changes no block (live headers are a table of their own, where the source tests a magic word that payload bytes could imitate); pages and bytes stay balanced |
| `Liballoc.Heap.Memcpy` | kernel/mm/liballoc.c:116-139 | copies exactly n bytes between ranges that do not overlap |
| `Liballoc.Heap.Store` | kernel/mm/liballoc.c:243-586 | a write by the caller to the bytes it asked for keeps the whole invariant and changes only that byte |
| `Liballoc.Heap.Enlarge` | kernel/mm/liballoc.c:824-829 | the new payload starts with the old contents, every other byte outside the new block is unchanged, and exactly the old block is gone; stops, with the heap as before, if and only if malloc would return NULL for the new size |
| `Liballoc.Heap.OthersKept` | kernel/mm/liballoc.c:824-829 | a change confined to one block leaves the payload of every other live block as it was |
| `Liballoc.Heap.Shrink` | kernel/mm/liballoc.c:815-820 | the block keeps its place; only the size asked for changes |
| `Liballoc.Heap.Realloc` | kernel/mm/liballoc.c:741-830 | keeps contents up to the smaller size and every other live payload; frees on size 0 and allocates on NULL, refuses a pointer that leads to no live header; no byte changes when it frees, refuses, shrinks or finds no memory, which it does if and only if the block must grow and malloc would return NULL |
| `KmemLayout.GuessSuffices` | kernel/mm/kmem_cache.c:239-257 | for every size, alignment and option, each object with its guard words and owner pointer lies inside the object space that the author calls a guess |
| `KmemLayout.LeastSize` | kernel/mm/kmem_cache.c:240-249 | int_size is the least aligned size that takes the object with its guard words and owner pointer |
| `KmemLayout.LeastOffset` | kernel/mm/kmem_cache.c:111-120 | the first object is at the least aligned address that leaves room for what comes in front of it |
| `KmemLayout.GuessSlack` | kernel/mm/kmem_cache.c:252-257 | how much of that space is left over |
| `KmemLayout.InsideExactly` | kernel/mm/kmem_cache.c:35-48 | every object address is among those that `get_object_slab` attributes to its slab, except exactly for empty objects without guard words and alignment: the last of them starts where the space ends |
| `KmemLayout.ObjectsApart` | kernel/mm/kmem_cache.c:20-73 | the objects of a slab, with all that belongs to them, do not overlap |
| `KmemLayout.ObjectsAligned` | kernel/mm/kmem_cache.c:111-120 | every object meets the alignment asked for |
| `KmemLayout.IndexInverse` | kernel/mm/kmem_cache.c:20-32 | from index to pointer and back is the identity, and the assertion in between holds |
| `KmemCache.Slab.constructor` | kernel/mm/kmem_cache.c:132-166 | a new slab has every index on its stack |
| `KmemCache.Slab.Pop` | kernel/mm/kmem_cache.c:305-307 | the index handed out was free and is live afterwards; the stack stays a duplicate-free list of exactly the free indices |
| `KmemCache.Slab.Push` | kernel/mm/kmem_cache.c:366-369 | exactly the freed index goes back |
| `KmemCache.Cache.constructor` | kernel/mm/kmem_cache.c:204-261 | a new cache has no slab and no live object |
| `KmemCache.Cache.Grow` | kernel/mm/kmem_cache.c:281-295 | a new empty slab becomes the first, and no object changes its state |
| `KmemCache.Cache.OneObject` | kernel/mm/kmem_cache.c:20-47 | an address is an object of one slab only, at one index only |
| `KmemCache.Cache.LiveApart` | kernel/mm/kmem_cache.c:298-350 | what belongs to two live objects never overlaps |
| `KmemCache.Cache.TakeFirst` | kernel/mm/kmem_cache.c:302-308 | an address that was not live becomes live, and only that one |
| `KmemCache.Cache.FindRoom` | kernel/mm/kmem_cache.c:326-338 | behind a full first slab the search finds one with room whenever fewer objects are used than exist |
| `KmemCache.Cache.MoveToFront` | kernel/mm/kmem_cache.c:341-347 | the slab becomes the first; the cache keeps its slabs and its live objects |
| `KmemCache.Cache.Alloc` | kernel/mm/kmem_cache.c:298-350 | hands out an address that was not live and makes exactly it live; fails exactly when all objects are used and the cache may not or cannot grow; the recursion ends |
| `KmemCache.Cache.Free` | kernel/mm/kmem_cache.c:353-371 | exactly the freed address stops being live; an address in no slab changes nothing |
| `KmemCache.Cache.Shrink` | kernel/mm/kmem_cache.c:386-411 | exactly the slabs without a live object go |
| `RwLock.StepKeeps` | kernel/ds/rwlock.c:29-84 | every step of every thread keeps the invariant of the lock |
| `RwLock.Exclusion` | kernel/ds/rwlock.c:29-84 | after every run of any number of threads: a writer overlaps no reader and no other writer, `num_readers` is at least the number of readers, and a release takes the branch of the access given back |
| `RwLock.Conservation` | kernel/ds/rwlock.c:50-84 | `num_readers` is the number of readers plus the decrements that ran inside another thread's `num_readers += 1` |
| `RwLock.AtomicIncrement` | kernel/ds/rwlock.c:50-84 | if that increment is one step, `num_readers` is exactly the number of readers |
| `RwLock.FusedIsARun` | kernel/ds/rwlock.c:50-84 | the runs with that one step are among the runs of the lock |
| `RwLock.RequestHasWriter` | kernel/ds/rwlock.c:35-41 | a set `write_request` has a writer behind it that waits, holds the lock or is about to clear it |
| `RwLock.WriterFirst` | kernel/ds/rwlock.c:57-62 | while the request is set and nobody writes, no new reader gets in until a writer has |
| `RwLock.RefusedAsks` | kernel/ds/rwlock.c:35-41 | over every run: a thread that took the spinlock to write is a writer, or `write_request` is set, at some moment before it gives the spinlock back |
| `RwLock.LostForGood` | kernel/ds/rwlock.c:29-84 | once a decrement is lost no thread ever becomes a writer again |
| `RwLockProgress.WriterGetsInExactly` | kernel/ds/rwlock.c:29-84 | after every run of any number of threads, some continuation lets a writer in if and only if no decrement has been lost |
| `RwLock.DecrementCanBeLost` | kernel/ds/rwlock.c:59-59 | a run of two threads in which that happens |
| `RwLock.ShutToWriters` | kernel/ds/rwlock.c:29-84 | so an idle lock can be shut to writers for good |
| `RwLockProgress.ShutToAll` | kernel/ds/rwlock.c:29-84 | after a lost decrement, once the request is set or is bound to be, no run lets in another reader or a writer |
| `RwLockProgress.ReaderGetsInExactly` | kernel/ds/rwlock.c:29-84 | after every run of any number of threads, some continuation lets in another reader if and only if no decrement has been lost, or the request is not set, the owner of the spinlock is not about to set it, and some thread is on no path of a writer |
| `RwLockProgress.ShutForGood` | kernel/ds/rwlock.c:29-84 | a run of two threads after which nobody is inside the lock and nobody ever gets in again |
| `SchedLock.StepKeeps` | kernel/scheduler/scheduler.c:432-480 | every step of every CPU and thread keeps the invariant of the handshake |
| `SchedLock.HaltedUntilUnlock` | kernel/scheduler/scheduler.c:432-480 | from the return of a complete `sched_lock` until the same thread unlocks that CPU, its `running` is 0 and its scheduler changes no queue, over every run of any number of CPUs and threads |
| `SchedLock.RisesUnderLock` | kernel/processes/threads.c:396-399 | over every run: if a halted CPU is found running later, its scheduler had its own lock in between |
| `SchedLock.OnlyOwnerUnlocks` | kernel/scheduler/scheduler.c:469-480 | over every run: a thread keeps a lock until it gives it up itself |
| `SchedLock.FlagComesBackExactly` | kernel/scheduler/scheduler.c:438-480 | over every run, whatever the others do in between: after `sched_unlock` a thread has the interrupt flag that it had before `sched_lock`, if and only if the CPU is its own; after the lock of another CPU the flag stays off |
| `SchedLock.CanBeGranted` | kernel/scheduler/scheduler.c:458-461 | one direction, by a look at the target CPU only: a complete lock can be granted if the thread there is not itself inside `sched_lock` |
| `SchedLockProgress.ReturnsExactly` | kernel/scheduler/scheduler.c:432-480 | after every run of any CPUs and threads: a thread inside `sched_lock` comes out in some continuation if and only if it is in no set of threads that block one another |
| `SchedLockProgress.GrantedExactly` | kernel/scheduler/scheduler.c:458-461 | a complete lock that is waited for can be granted if and only if its waiter is in no such set |
| `SchedLockProgress.NoNewDeadlock` | kernel/scheduler/scheduler.c:432-480 | a thread that finishes and leaves its CPU adds no such set among the others |
| `SchedLock.DeadlockIsForGood` | kernel/scheduler/scheduler.c:445-461 | threads that wait for each other, inside `sched_lock` or off their CPUs, do so over every run |
| `SchedLock.CrossLocking` | kernel/scheduler/scheduler.c:453-461 | two threads that lock each other's CPU completely at the same time end up there |
| `SchedLockProgress.CrossLockingReached` | kernel/scheduler/scheduler.c:453-461 | a run from the start of two CPUs after which neither of two calls of `sched_lock` ever returns |
| `SchedSpec.InsertedAt` | kernel/scheduler/scheduler.c:166-185 | a pause goes behind every entry that is not later and in front of every later one |
| `SchedSpec.WakesTheDue` | kernel/scheduler/scheduler.c:351-375 | a loop that stops at the first entry that is not due wakes all due entries, wherever they stand, in their order, and leaves all others |
| `SchedSpec.EachGetsATurn` | kernel/scheduler/scheduler.c:609-610 | as many dispatches as there are threads give each thread one turn, in the order of the run queue from the position on |
| `SchedSpec.NextExactly` | kernel/scheduler/scheduler.c:118-130 | taking out a thread leaves the next one next if and only if it stood before it, or the first thread is next and the wrapped position falls on 0 |
| `SchedSpec.TurnPasses` | kernel/scheduler/scheduler.c:609-625 | when a thread gives up its turn for good the one behind it is next, if and only if it did not stand last or the wrapped position falls on 0 |
| `SchedSpec.FastWaitsExactly` | kernel/scheduler/scheduler.c:580-597 | a fast thread that is there is passed over if and only if another one had the turn before and left threads waiting on the run queue |
| `SchedSpec.FastTakesTurns` | kernel/scheduler/scheduler.c:580-617 | in every stretch of turns at most every other one goes to a fast thread while others wait, and at least every other one while a fast thread is there |
| `SchedRuns.StepConserves` | kernel/scheduler/scheduler.c:76-380 | how often each thread stands in the queues changes only as asked: sleeping adds one place until the request is honoured, waking moves one, restarting changes nothing |
| `SchedRuns.StepKeeps` | kernel/processes/threads.c:61-91 | every step of the dispatch loop, of the thread that executes and of `set_thread_state` keeps each thread in its place: on the run queue once while it is RUNNING and else not, asleep at most once; except one that sets RUNNING a sleeper which another thread took off the run queue in the middle of its pause |
| `SchedRuns.EveryRun` | kernel/processes/threads.c:61-91 | over every run the pause queue is sorted and the position in range; every thread is in at most one queue, once, or in both while its request is pending, all along the run if and only if no step of it is of that kind |
| `SchedRuns.OnceEach` | kernel/scheduler/scheduler.c:293-337 | once the request is honoured, no thread is in the queues twice |
| `SchedRuns.SleeperQueued` | kernel/processes/threads.c:61-91 | a run with such a step: the thread is on the run queue while it sleeps |
| `SchedRuns.NeverRequeued` | kernel/gc.c:216-234 | no run has such a step in which nobody sets RUNNING a thread that another has set to some other state before |
| `SchedRuns.NothingHalts` | kernel/processes/threads.c:61-91 | after any run without such a step the assertions of the source hold: a thread that executes and has not asked for anything may ask for any state and pause for any time but 0; another may be set to any state unless it sleeps for a time, and be woken if it does |
| `SchedRuns.RequestIsHonoured` | kernel/scheduler/scheduler.c:293-337 | what a thread asks for is its state when its turn ends, and it is off the run queue then |
| `SchedRuns.SetsExactly` | kernel/processes/threads.c:61-91 | `set_thread_state` by another thread leaves the thread with that state, its duration and all other threads as they were, if and only if it does not sleep for a time |
| `SchedRuns.PauseMakesDream` | kernel/scheduler/scheduler.c:136-192 | whatever happens between a pause and the honouring of its request: the thread is DORMANT with a duration afterwards, if it is still on the run queue then, so that setting it RUNNING wakes it and does not queue it |
| `SchedRuns.SleepsItsTime` | kernel/scheduler/scheduler.c:155-184 | over every run: the pause of a thread that neither pauses again nor is set RUNNING lasts exactly until a look at the timers at the end of its time or later |
| `SchedRuns.NeverLost` | kernel/scheduler/scheduler.c:293-375 | over every run and whatever happened before: a thread that pauses stays in a queue as long as nobody sets it to a state other than RUNNING and it asks for none itself |
| `Scheduler.CloseGap` | kernel/scheduler/scheduler.c:118-120 | the gap-closing loop takes out exactly one entry |
| `Scheduler.OpenGap` | kernel/scheduler/scheduler.c:173-177 | the shifting loop moves everything from a place on up by one |
| `Scheduler.SchedulerInfo.constructor` | kernel/scheduler/scheduler.c:31-70 | the start of the runs above: both queues are empty |
| `Scheduler.SchedulerInfo.SubQueue` | kernel/scheduler/scheduler.c:76-95 | appends to the run queue, or refuses if it is full |
| `Scheduler.SchedulerInfo.SubDequeue` | kernel/scheduler/scheduler.c:98-133 | takes exactly this thread out and keeps the order of the others |
| `Scheduler.SchedulerInfo.PauseThread` | kernel/scheduler/scheduler.c:136-192 | a step of those runs, by array loops: the sorted insertion, the request for DORMANT and the duration; or refuses if the queue is full |
| `Scheduler.SchedulerInfo.RestartThread` | kernel/scheduler/scheduler.c:199-255 | the entry moves to the front, due at once; refused if the thread does not sleep |
| `Scheduler.SchedulerInfo.RemoveLastThread` | kernel/scheduler/scheduler.c:293-337 | a step of those runs: the requested state change is honoured and the request cleared |
| `Scheduler.SchedulerInfo.RemoveTimers` | kernel/scheduler/scheduler.c:343-380 | a step of those runs: moves exactly the due entries, tells each woken thread how long it slept, changes no other thread, and returns the time to the next one |
| `Scheduler.SchedulerInfo.Dispatch` | kernel/scheduler/scheduler.c:609-610 | a step of those runs: the thread at the position gets the turn |
| `Scheduler.SchedulerInfo.SetThreadState` | kernel/processes/threads.c:61-91 | a step of those runs, if the run queue has room or is not needed; a full run queue leaves the thread RUNNING and in no queue |
| `Scheduler.SchedulerInfo.RequestState` | kernel/processes/threads.c:66-77 | a step of those runs: the request is recorded |
| `Scheduler.SchedulerInfo.ClearDuration` | kernel/processes/threads.c:510-532 | a step of those runs: only the duration of the thread changes |
| `Paging.EntryWordHolds` | kernel/paging.c:334-334 | an entry word is present and gives back the frame it was made from |
| `Paging.Directory.constructor` | kernel/paging.c:51-69 | a new directory maps no user page |
| `Paging.Directory.EntryPresent` | kernel/paging.c:91-104 | the two-level lookup answers as the flat map does |
| `Paging.Directory.AddTable` | kernel/paging.c:325-330 | a fresh table adds no mapping and changes none |
| `Paging.Directory.SetWord` | kernel/paging.c:333-334 | changes the word of one page only |
| `Paging.Directory.DirectMap` | kernel/paging.c:300-343 | maps exactly the pages asked for to consecutive frames; each lets the user write, or use it at all, as asked; tables come only where there was none, with the access asked for |
| `Paging.Directory.Release` | kernel/paging.c:366-391 | clears exactly the mapped pages of the range |
| `Paging.Directory.FindFree` | kernel/paging.c:471-509 | the lowest start below `finish` whose whole run is unmapped, 0 only if there is none; skipping past a mapped page misses nothing |
| `Paging.Directory.EndsBelowExactly` | kernel/paging.c:471-509 | the run found ends below `finish` if and only if some unmapped run does |
| `Paging.Directory.Provide` | kernel/paging.c:346-360 | never overwrites a mapping; fails only if no start has a free run; the pages and the tables that come give the access asked for |
| `Paging.Directory.Ensure` | kernel/paging.c:181-226 | maps exactly the missing pages, each to the next frame and with the access asked for, and returns how many were there already |
| `Paging.Directory.AllowsAsTheTable` | kernel/paging.c:325-334 | through both levels, a page mapped by a call allows what was asked for, if its table was not there before, or else what both the request and the table allow |
| `PageCopy.CopyMoves` | kernel/paging.c:428-464 | a copy between places that do not overlap moves exactly its bytes |
| `PageCopy.RoundTrip` | kernel/paging.c:428-464 | copying in and then out again gives the same bytes, with the source intact |
| `PageCopy.OwnFrames` | kernel/paging.c:457-459 | pages with frames of their own keep the bytes of an address range apart |
| `PageCopy.Locate` | kernel/paging.c:457-459 | the address arithmetic gives the physical place of a byte |
| `PageCopy.CopyIn` | kernel/paging.c:447-464 | the loop is that byte-by-byte copy |
| `PageCopy.CopyOut` | kernel/paging.c:428-445 | so is the other one |
| `Ualloc.Space.AllocHard` | kernel/ualloc.c:63-110 | maps exactly the pages of its arguments for the user, finds none of them mapped, and records and logs them; or changes nothing |
| `Ualloc.Space.UserEnsure` | kernel/ualloc.c:274-303 | calls the allocator on exactly the maximal unmapped runs, each once and in order, leaves every present page as it was, stops at the first call that finds no memory, and on success all pages are present |
| `Family.Unlink` | kernel/ds/family.h:54-70 | a node leaves its chain; the others stay linked in order and the parent's first child is right |
| `Family.AddSibling` | kernel/ds/family.h:86-95 | a node enters the chain right after its new brother |
| `Family.AddChild` | kernel/ds/family.h:73-84 | a node becomes the first of the chain |
| `Family.Adopt` | kernel/ds/family.h:101-125 | the children of one node, last first, come in front of those of another; all links are consistent |
| `Forest.Tree.constructor` | kernel/processes/process.c:129-131 | a process without threads is a well-formed forest |
| `Forest.Tree.Remove` | kernel/ds/family.h:54-70 | the forest stays well formed; the node leaves exactly its own chain |
| `Forest.Tree.AddSibling` | kernel/ds/family.h:86-95 | the forest stays well formed; the node enters exactly that chain |
| `Forest.Tree.AddChild` | kernel/ds/family.h:73-84 | the same for a child |
| `Forest.Tree.Adopt` | kernel/ds/family.h:101-125 | the forest stays well formed; exactly two chains change |
| `Forest.Tree.Orphan` | kernel/processes/threads.c:326-336 | the children of a root become roots behind it, last one first |
| `Forest.Tree.SaveChildren` | kernel/processes/threads.c:318-336 | in both cases the deleted thread has no child left |
| `Forest.Tree.DeleteThread` | kernel/processes/threads.c:298-351 | the forest stays well formed and headed by `proc->threads`, with exactly the deleted thread gone and its children in front of its siblings or in its place among the roots |
| `Forest.Tree.NoRoots` | kernel/gc.c:230-237 | a forest without roots is empty |
| `Forest.Tree.DeleteAll` | kernel/gc.c:229-237 | the loop ends with every thread deleted |
| `Forest.Tree.NewThread` | kernel/processes/threads.c:259-287 | a new thread is the first root, a root behind the first, or the first child of its parent |
| `Forest.Tree.InsertProcess` | kernel/processes/process.c:216-251 | a process becomes the root or the first child of its parent |
| `Forest.Tree.RemoveProcess` | kernel/processes/process.c:253-269 | adopting and then removing takes out exactly the process |
| `Forest.Tree.ParentsAfter` | kernel/processes/threads.c:318-342 | everyone keeps its parent, but the children of the deleted node have its parent |
| `Forest.Tree.AncestorsKept` | kernel/processes/threads.c:318-342 | deleting a node changes nothing about who descends from whom among the others |
| `Htable.ProbesAll` | kernel/ds/htable.c:95-106 | the probe sequence visits every slot |
| `Htable.SafeExactly` | kernel/ds/htable.c:76-144 | no run of insertions and removals, from any initial size and with any refusals of memory, reaches a rehash that nests or drops an element, exactly for percentages from 49 to 195 |
| `Htable.GrowFits` | kernel/ds/htable.c:85-88 | doubling a table that is not full is safe from 49 on |
| `Htable.ShrinkFits` | kernel/ds/htable.c:121-124 | halving is safe up to 195 |
| `Htable.NeverBelowDefault` | kernel/ds/htable.c:112-124 | over every run a table of the default size never becomes smaller |
| `Htable.LoadStays` | kernel/ds/htable.c:76-124 | over every run in which memory is there, the load stays at or below the percentage, for percentages from 50 to 195 |
| `Htable.ElementsAreBag` | kernel/ds/htable.c:184-188 | the elements in slot order are the stored bag, each once |
| `Htable.Table.constructor` | kernel/ds/htable.c:10-36 | a new table is empty, with the size asked for or the default |
| `Htable.Table.Insert` | kernel/ds/htable.c:76-109 | adds exactly one element, through growth; refuses only a full table; the sizes are those of the runs above |
| `Htable.Table.Rehash` | kernel/ds/htable.c:49-72 | the larger or smaller table holds exactly the same elements, without another rehash |
| `Htable.Table.Remove` | kernel/ds/htable.c:112-144 | removes one occurrence, if there is one, through shrinking; the sizes are those of the runs above |
| `Htable.Table.Retrieve` | kernel/ds/htable.c:146-171 | a stored element that matches, or NULL if and only if none does, whatever holes removals left |
| `Htable.Table.Get` | kernel/ds/htable.c:175-191 | the numbers below the total enumerate the elements, each once |
| `Iqueue.RoomToShrink` | kernel/ds/iqueue.c:80-90 | among multiples of the step, fewer elements than the size leave room for one step less |
| `Iqueue.SafeExactlyWhenEven` | kernel/ds/iqueue.c:41-96 | no run ever writes past the shrunk queue if and only if the queue does not grow or the initial size is a multiple of the step |
| `Iqueue.Queue.constructor` | kernel/ds/iqueue.c:7-31 | a new queue is empty |
| `Iqueue.Queue.Resize` | kernel/ds/iqueue.c:53-62 | copying into another size keeps the elements in order |
| `Iqueue.Queue.Add` | kernel/ds/iqueue.c:41-67 | appends, through growth; refuses only a full queue that may not or cannot grow; the sizes are those of the runs above |
| `Iqueue.Queue.Next` | kernel/ds/iqueue.c:69-96 | takes the oldest element, through shrinking; the sizes are those of the runs above |

## Left out

- Sizes and addresses are unbounded integers: sums that exceed the machine word are not modelled, and counters do
  not wrap. The one subtraction below zero that the code relies on, in the scheduler position, is written out.
- HighBits: `bsr` is a function that is -1 for 0; the assertion of `highbit` becomes the requirement that the cache
  limit is at least one quantum.
- Vmem.Arena.constructor: memory for the record and for the free lists is there.
- Vmem.Arena.Alloc: what the import function returns is a parameter and the imported address is not stored in the
  tag; `VmemImport` has both, on values. Failure of `kmalloc` for a tag is not modelled. NULL and an address of 0 differ
  here, so spans and imports are taken to start above 0.
- Vmem.Arena.Free: does not call the release function for an imported address; `VmemImport` does.
- VmemImport: the source is an arena of the same kind, and which free tag either search picks is arbitrary. A caller of
  the source frees only what it holds.
- Vmem.Arena.Add: requires a span apart from the others, which the code does not check, and memory for its records.
- `vmem_destroy` and the unimplemented `vmem_xalloc` and `vmem_xfree`.
- PhysMem.Pages: the bitmap is an array of booleans, not of words; the spinlock around each operation is not modelled.
- PhysMem.Pages.Set: requires that the rounded range lies inside the bitmap and is not reversed. For a range inside one
  page that is to become free the rounded ends are reversed, the page count of the source wraps around, and it would
  write outside its bitmap.
- Liballoc.Heap: the linked majors and their minors are sequences of records, so the relinking of these two lists is
  not modelled; the magic word and the major pointer of a header are a table of live headers beside the byte array.
- Liballoc.Heap.Free: that table is never wrong, while payload bytes could contain the magic word; the counters of
  possible overruns, the diagnostic output and `calloc` are not modelled.
- Liballoc.Heap.Enlarge: when the inner allocation fails the source goes on to copy through NULL; the model stops
  there and reports it as `wild`.
- Liballoc.Heap.Realloc: requires that a pointer which leads to a live header is the one that malloc gave for it.
- `libsmk/liballoc.c` is the same code under another prefix and is covered by the same model.
- KmemCache.Cache: the slab list is a sequence, so its relinking is not modelled; contents of objects, guard words,
  constructors, destructors and the effect of the reclaim callback are not modelled; off-slab control data is not
  modelled, because creation and destruction test different flags. The address that `kmalloc` returns for a slab is a
  parameter that is apart from the slabs in use.
- KmemCache.Cache.constructor: requires a layout in which `get_object_index` does not divide by 0 and
  `get_object_slab` finds every object, which leaves out only empty objects without guard words and alignment.
- KmemCache.Cache.Free: requires a live object, or an address in no slab; what the source does with any other address
  of a slab, it does without a check.
- RwLock: `num_readers` is unbounded, and fairness of the spinlock is not modelled.
- SchedLock: threads are pinned to CPUs, and which thread a CPU picks is arbitrary; the global lock of
  `sched_lock_all` is not modelled.
- SchedLock.CanBeGranted: weaker than what is true; `SchedLockProgress.GrantedExactly` gives the exact condition.
- SchedRuns: the runs of one CPU. `set_thread_state` is one step; its complete lock and that of the scheduler are in
  `SchedLock`. The assertions of the source are the guards of the steps. Both queues have room: where they have none,
  `pause` and `sub_queue` return an error that their callers ignore. Threads registered for interrupts, idle threads and
  collectors are left out: they are never RUNNING, so they neither ask for another state nor pause
  (`kernel/processes/threads.c:70`, `497`).
- SchedSpec.EachGetsATurn: the run queue does not change between the dispatches; what a removal does to the order is in
  `SchedSpec.NextExactly`.
- Scheduler.SchedulerInfo.PauseThread: requires a RUNNING thread, as `set_thread_state` asserts of the current one.
- Scheduler.SchedulerInfo.RemoveTimers: requires room in the run queue for the due threads, as the source asserts.
- The fast queue itself, and choosing a CPU.
- Paging.Directory: only the part of the address space that has page tables; the 4 MB pages of the kernel are one
  opaque slot value.
- Paging.Directory.FindFree: every address that the search can look at must lie in that part. At the kernel's own
  ceiling, 0xFA000000, this leaves out requests for more than 16384 pages.
- Paging.Directory.Provide: the same bound as FindFree.
- Paging.Directory.Ensure: memory for a page table is assumed to be there; frames are a parameter, and may be 0, as
  the source does not look at a failed allocation.
- `page_map_in`, `page_map_out`, `page_data_get`, `delete_page_directory`, and flushing of cached translations.
- PageCopy.CopyIn: the pages copied to must be mapped, which the source does not check.
- PageCopy.CopyOut: the pages copied from must be mapped, which the source does not check.
- Ualloc.Space.AllocHard: the list of allocations is a sequence, the physical block that `user_alloc_hard` allocates
  beside the frames is not tracked, and whether it finds memory is a parameter.
- Forest.Tree: the linear thread list, the hash table of threads and everything a thread owns besides its family
  links. Freshly initialised and removed nodes are not in the forest; the model keeps them apart as loose.
- Forest.Tree.InsertProcess: the parent is given, instead of being looked up by its number.
- Htable.Table: keys are integers whose absolute value exists, and a probe index does not overflow.
- Htable.Table.constructor: requires a percentage between 49 and 195, outside of which rehashes can nest or drop
  elements (`Htable.SafeExactly`).
- Iqueue.Queue.constructor: requires an initial size that is a multiple of the growth step, or no growth, without which
  a shrinking queue can overrun (`Iqueue.SafeExactlyWhenEven`).
- The notification queue and the message passing built on it, shared memory, interrupts, boot code and devices.
