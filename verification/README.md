# Mseastar core, modelled and verified in Dafny

This project models the parts of Mseastar that are hardest to get right and proves what
their callers rely on: the per-CPU memory allocator, the timer set, cross-core messaging,
the scheduler of appending file I/O, buffered output streams with packets, the links of
promises and futures, and the chunked queue. `dafny verify dfyconfig.toml` checks all of it.

| files | what they model |
|---|---|
| `Bits`, `Utils` | powers of two, bit counts, `align_up`, exclusive or; the larger and the smaller of two numbers |
| `PageList`, `Tiling`, `CpuPages` | the page array and its index-linked lists, what boundary tags say about spans, and the page allocator |
| `Slabs`, `SmallPool`, `PoolSizing`, `SizeClasses` | where the objects of slab spans are, the pool that moves them, its span size and limits, and the size classes |
| `Allocator` | one CPU's 57 pools over one page allocator: `allocate`, `allocate_aligned`, `free`, `shrink` |
| `TimerSet` | the radix buckets keyed by `timestamp ^ _last` and the bitmap over them |
| `SpscQueue`, `MessageQueue`, `MessageRings` | the ring, the four-stage message queue, and both together a load or a store at a time |
| `MessageProgress`, `RingProgress` | that everything submitted gets done, in steps of the queue and in loads and stores |
| `Wakeup` | the way to sleep and back |
| `AppendFile` | the operation scheduler of files with costly size changes |
| `OutputStream`, `OutputFlush` | buffering, splitting and put-off flushes; what a flush does over runs, and the end of every call |
| `Packet` | packets of fragments |
| `PromiseFuture` | promise, future and continuation with their back pointers |
| `ChunkedFifo` | the linked list of ring chunks with 32-bit counters |

Classes follow the source's classes: fields that are updated in place, methods whose
contracts tie the new state to the old one, and a `Valid()` predicate. Where the order of
steps of several cores or of completions matters, the class stands beside a state machine on
values (`Ring`, `Queue`, `Machine`, `State`, `File`, `Stream`), whose lemmas speak about
every run, and each method of the class is shown to take exactly the steps of that machine.

Ghost state stands for what the source does not store: the map of spans that tile the
pages, the place of every object (held, pooled, on its span's freelist), the history of a
queue or file, the length of a file on disk, and the place, the status and the way of every
result from the promise it was set on to its consumer.

Besides what never goes wrong there is what does come about: a queue, a receiver on its way
to sleep, a file with work left and a stream with a caller waiting have, in every state of
every run, steps to take that get the work done, and these are named (`EverythingDone`,
`ItemIsTaken`, `ComesBack`, `NeverStuck`, `StepsRunOut`, `CarriedOut`, `EveryCallEnds`).

The constructor of a pool doubles its span until, among other things, little of it is
wasted. That test never decides, however its floating-point result is rounded: a span is
large enough if and only if it has room for 32 objects (`WasteNeverDecides`). With the limits
chosen no request for a small object takes more than three spans (`FewSpans`, `FewPages`).

Where a promise of the source does not hold for all inputs, the exact condition is proved,
with an input that fails:

* `find_and_unlink_span(n)` finds a span if and only if one fits, for `n` up to 2^30 pages.
  Above that `2u << idx` is zero in 32 bits and the call throws whatever is free
  (`WrapsAtTop`, `TopRequestRefused`).
* `allocate_aligned` cuts both page counts to 32 bits and adds them in 32 bits, unchecked.
  When a span is found, the memory is large enough and the invariant of tags and free lists
  survives if and only if the pages of the request and of its alignment add up to at most
  2^32 (`Countable`, `AllocateAligned`). A request cut to no pages leaves tags and lists that
  no choice of spans explains (`NoPagesExample`, `TrimHollow`); a sum that wraps makes the
  memory handed out reach beyond the page array (`WrappedSumExample`, `WrapOverruns`).
  `allocate_large` checks its count and throws.
* `shrink` to no pages takes the tag off the page before the allocation. The invariant
  survives if and only if the allocation began on the first managed page (`Empty`, `Shrink`);
  none is kept for size zero and for the last 4095 sizes below 2^64 (`PagesKeptHold`).
* A packet keeps its length in 32 bits. `append` joins two packets if and only if they have
  fewer than 2^32 bytes together (`AppendExact`, `AppendAllExact`, `AppendWrapExample`), and
  a copy of data has the right length if and only if the data is that short (`FromData`). The
  array of fragments doubles, and the source asserts that 16 bits can count it
  (`AllocateIfNeeded`, `HoldsWhen`). An output stream skips a packet of 2^32 bytes and
  replaces one it holds under the length zero (`PacketWrapExample`).
* An output stream has accepted everything written if and only if no event has dropped
  anything (`AllAccepted`); while the packets to hold stay below 2^32 bytes, that is if and
  only if no failed put had bytes left after it (`ShortPackets`).
* A write that returns with no bytes written moves the committed size of an append file to
  its position. The committed size stays on disk if and only if that does not happen beyond
  the end of the file (`StepKeepsDisk`); if it does, writes that make the file longer run
  beside each other (`HollowExample`).
* `chunked_fifo::size()` adds the counts of both end chunks in 32 bits, and is right if and
  only if they are not both full chunks of 2^31 items (`SizeExact`, `SizeWrapExample`).
* A full chunk is seen to be full if and only if its size is at most 2^31 (`FullIsSeen`).
* `chunked_fifo::reserve(n)` asks for enough chunks, also when its subtraction goes below
  zero, if and only if rounding up does not wrap (`NeededChunksEnough`,
  `ReserveWrapExample`). For `n` below the size it asks for nothing if and only if less than
  a chunk is too much, and otherwise for almost 2^64 items (`NeededChunksBelow`,
  `ReserveBelowExample`).

## Model

| member | source | states |
|---|---|---|
| `Allocator.CpuMemory.constructor` | include/future/memory.hh:336-354 | the 57 pools of one CPU, one for each size class, with the spans and limits their constructor chooses, share one page allocator and start with nothing held |
| `Allocator.CpuMemory.Allocate` | include/future/future_all12.cc:5078-5099 | the memory handed out was held by nobody, holds `size` bytes and less than a page more or the size of its class, and changes nothing of what others hold; a small request takes no page while its pool has a free object, and no more than three spans when it has none, on the first use too; it is refused only when no object and no free span can serve the request |
| `Allocator.CpuMemory.AllocateAligned` | include/future/future_all12.cc:5102-5121 | as `Allocate`, at a multiple of a power of two if the CPU's range starts at one; the memory is large enough and the invariant survives if and only if the pages of the request and of its alignment add up to at most 2^32; it is less than twice the request or a page more |
| `Allocator.CountableIff` | include/future/future_all12.cc:5062-5067 | that sum is at most 2^32 if and only if the 32-bit page counts are exact, the request has pages, and the number of pages searched for does not wrap |
| `Allocator.NoPagesExample` | include/future/future_all12.cc:5062-5067 | 2^44 bytes at a multiple of two pages are taken for no pages, and one page is searched for |
| `Allocator.WrappedSumExample` | include/future/future_all12.cc:5470-5474 | 2^44 - 2^31 bytes at a multiple of 2^32: both counts fit in 32 bits, their sum wraps, and 2^19 - 1 pages are searched for |
| `Allocator.AlignPagesCut` | include/future/future_all12.cc:5062-5067 | the pages of a power of two are cut to 32 bits as a whole or not at all |
| `Allocator.CpuMemory.AllocateSmall` | include/future/future_all12.cc:5137-5144 | the object comes from the pool of the size's class and nothing else changes hands; from a pool with free objects one is taken and no page, from any other only as many spans as the refill needs |
| `Allocator.CpuMemory.FewPages` | include/future/future_all12.cc:4950-4987 | with the limits that the pools are made with, which nothing changes, no small request takes more than three spans |
| `Allocator.CpuMemory.AllocatePages` | include/future/future_all12.cc:5050-5059 | a large allocation is a new span in use of no pool; it fails only when no free span fits or above 2^30 pages |
| `Allocator.CpuMemory.AllocatePagesAligned` | include/future/future_all12.cc:5062-5067 | as above, beginning at a page index that is a multiple of the alignment; when a span is found, the invariant survives if and only if the request has pages and the sum with the alignment does not wrap |
| `Allocator.CpuMemory.Free` | include/future/future_all12.cc:5192-5200 | frees exactly the memory at the address, found through the page tag, whether an object or a span |
| `Allocator.CpuMemory.Shrink` | include/future/future_all12.cc:5226-5244 | a large allocation keeps the pages of its first bytes, a small one stays, nobody else notices; with no page left the allocation is gone, and the invariant survives if and only if it began on the first managed page |
| `Allocator.CpuMemory.ObjectSize` | include/future/future_all12.cc:5152-5161 | the size found through the page tags is that of the memory held there |
| `Allocator.CpuMemory.LiveApart` | include/future/future_all12.cc:5078-5121 | no two pieces of memory held by users overlap, of the same pool, of different pools, or large |
| `Allocator.CpuMemory.LiveNotFree` | include/future/future_all12.cc:5308-5338 | memory held by users lies in the managed pages and overlaps no free span |
| `Allocator.CpuMemory.OwnerFound` | include/future/future_all12.cc:5192-5200 | the tag of the page an allocation begins on names its pool, or none for a large one |
| `Allocator.CpuMemory.OthersStay` | include/future/future_all12.cc:4950-5010 | whatever one pool or the large allocations do with their own spans, every other pool's invariant stands |
| `Allocator.CpuMemory.SmallAligned` | include/future/future_all12.cc:5107-5112 | objects of a power-of-two class are aligned to every power of two up to it and to a page |
| `Allocator.PagesAligned` | include/future/future_all12.cc:5062-5067 | whole pages at a multiple of the alignment in pages are aligned in bytes, below and above a page |
| `Allocator.SlabAligned` | include/future/future_all12.cc:4979-4985 | an object whose size is a power of two is at a multiple of it, from a page-aligned base |
| `Allocator.PagesSuffice` | include/future/future_all12.cc:5050-5066 | the 32-bit page count covers the bytes if and only if they are at most 2^32 - 1 pages |
| `Allocator.PagesLeast` | include/future/future_all12.cc:5050-5066 | one page fewer would not hold the bytes |
| `Allocator.PagesMost` | include/future/future_all12.cc:5050-5066 | the pages are never a page more than the bytes need, also when the count is cut |
| `Allocator.PagesCutExample` | include/future/future_all12.cc:5062-5067 | an aligned request for 2^44 + 1 bytes is taken for one page |
| `Allocator.LargeKept` | include/future/future_all12.cc:4950-5010 | work of a pool on its spans leaves all large allocations and their sizes in place |
| `PoolSizing.WasteNeverDecides` | include/future/future_all12.cc:4908-4912 | the test of the waste never decides, even if its result is off by one part in 100: a span is too small if and only if it has fewer than 32 objects, and one that is not wastes less than one part in 32 |
| `PoolSizing.Choose` | include/future/future_all12.cc:4906-4915 | the loop ends at the least power of two of pages that has room for 32 objects, at most 128 pages for objects of at most four pages, and with the limits of the source |
| `PoolSizing.OneSpanSize` | include/future/future_all12.cc:4908-4912 | there is one such size only |
| `PoolSizing.HalfWay` | include/future/future_all12.cc:4913-4914 | with these limits half way between them are 75 objects at least, fewer than the upper limit, and no more than three spans have |
| `SmallPools.SmallPool.constructor` | include/future/future_all12.cc:4906-4915 | an empty pool with the span size and the limits chosen for its objects |
| `SizeClasses.SmallestClass` | include/future/memory.hh:324-334 | exactly the classes from `size_to_idx(size)` up hold objects of `size` bytes |
| `SizeClasses.ClassBracket` | include/future/memory.hh:331-334 | the class picked fits and the one below it does not |
| `SizeClasses.SizeToIdxInverts` | include/future/memory.hh:324-334 | `size_to_idx` is the inverse of `idx_to_size` from class 8 on |
| `SizeClasses.IdxToSizeMonotonic` | include/future/memory.hh:324-329 | object sizes do not decrease with the class, and increase from class 7 on |
| `SizeClasses.PoolsSuffice` | include/future/memory.hh:336-357 | a size has a pool if and only if it is at most 16384 |
| `SizeClasses.Log2Ceil` | include/util/bitops.hh:57-61 | the least power of two not below `n` |
| `SizeClasses.PowerClass` | include/future/memory.hh:324-334 | a power of two from 4 up is the object size of its own class |
| `SmallPools.SmallPool.Allocate` | include/future/future_all12.cc:4925-4937 | an object nobody holds: with any on `_free` the first of them, and nothing else changes; otherwise only as many spans are added as it takes to get half way between the limits; none only when all are held and no free span of the pool's size is left; pages are conserved |
| `SmallPools.SmallPool.FewSpans` | include/future/future_all12.cc:4950-4987 | with these limits a request takes no more than three spans |
| `SmallPools.SmallPool.Deallocate` | include/future/future_all12.cc:4939-4948 | the object is pooled; at the limit the pool is trimmed, keeping exactly the spans with an object held or pooled |
| `SmallPools.SmallPool.AddMoreObjects` | include/future/future_all12.cc:4950-4987 | refills `_free` half way between the limits unless spans run out, and stops as soon as it is there, at most the objects of one span beyond; a span is added only when no own one is listed; objects held and pages are conserved |
| `SmallPools.SmallPool.DrainListed` | include/future/future_all12.cc:4953-4964 | whole freelists of listed spans move to `_free` until the goal is met or no span is listed, and no further than the objects of one span beyond the goal; no span joins or leaves the pool |
| `SmallPools.SmallPool.DrainSpan` | include/future/future_all12.cc:4956-4963 | every object of the span's freelist is pooled, counted as allocated, and the span stays off the list; at most as many as a span has |
| `SmallPools.SmallPool.TakeSpan` | include/future/future_all12.cc:4967-4972 | a span in use that was not in use before and is not the pool's, or none exactly when none fits |
| `SmallPools.SmallPool.AddSpans` | include/future/future_all12.cc:4965-4987 | with the goal met nothing is taken; otherwise only as many spans are added, all their objects with them, as it takes to meet it, and none is left free when it is not met |
| `SmallPools.OneSpanMore` | include/future/future_all12.cc:4965-4987 | a span taken below the goal leaves fewer objects than the goal and a span's together |
| `SmallPools.SmallPool.MarkSpan` | include/future/future_all12.cc:4973-4978 | every page of the fresh span names the pool and its offset; no other page changes |
| `SmallPools.SmallPool.CarveObjects` | include/future/future_all12.cc:4979-4985 | all objects that fit in the span are pooled, in stack order, and counted |
| `SmallPools.SmallPool.AddSpan` | include/future/future_all12.cc:4966-4985 | a fresh span joins the pool with all objects pooled; held objects and the sum of pages stay |
| `SmallPools.SmallPool.TrimFreeList` | include/future/future_all12.cc:4989-5010 | drops the head of `_free` down to half way; a span goes back exactly when no object of it is held or pooled; pages are conserved |
| `SmallPools.SmallPool.TrimObject` | include/future/future_all12.cc:4993-5008 | one object goes back to its span's freelist, and the span to the page allocator if that was the last one out |
| `SmallPools.SmallPool.Relist` | include/future/future_all12.cc:4998-5001 | a span whose freelist is empty gets listed; a span is on the list if and only if its freelist is not empty |
| `SmallPools.SmallPool.ReturnSpan` | include/future/future_all12.cc:5004-5008 | the span leaves list and pool, its pages become free, no held object is lost |
| `SmallPools.SmallPool.Destroy` | include/future/future_all12.cc:4917-4920 | only spans with an object still held survive; with none held all pages are free again |
| `SmallPools.PoolsIsolated` | include/future/future_all12.cc:4950-5010 | what a pool does outside its own spans leaves every other pool's invariant and span list standing |
| `SmallPools.PageNamesPool` | include/future/future_all12.cc:4996-4997 | from an object's address the page tag leads to its pool and, less its offset, to the head of its span |
| `SmallPools.KeptSpansBusy` | include/future/future_all12.cc:5004-5008 | every span a pool keeps has an object held or pooled |
| `SmallPools.ReturnedIff` | include/future/future_all12.cc:4989-5010 | after a trim the spans kept are exactly those with an object held or pooled |
| `SmallPools.SpanAdded` | include/future/future_all12.cc:4971-4985 | marking and carving a fresh span keeps the conservation of objects and disturbs nobody's pages |
| `SmallPools.SpanReturned` | include/future/future_all12.cc:5004-5008 | dropping a span with nothing out keeps the conservation of objects and those held |
| `Slabs.AllInSpanIff` | include/future/future_all12.cc:5004-5008 | `nr_small_alloc` is zero if and only if every object of the span is on its freelist |
| `Slabs.TakePooled` | include/future/future_all12.cc:4933-4936 | popping `_free` keeps every object in exactly one place |
| `Slabs.PutHeld` | include/future/future_all12.cc:4941-4944 | pushing a held object keeps every object in exactly one place |
| `Slabs.DrainOne` | include/future/future_all12.cc:4957-4962 | moving an object from a span's freelist to `_free` keeps every object in exactly one place and the count right |
| `Slabs.TrimOne` | include/future/future_all12.cc:4993-5004 | moving an object back keeps every object in exactly one place; its span counted it |
| `Slabs.AddSpan` | include/future/future_all12.cc:4971-4985 | a fresh span's objects are new and all pooled |
| `Slabs.DropSpan` | include/future/future_all12.cc:5004-5008 | a span with no object out takes no held or pooled object with it |
| `Slabs.ObjAtIsObj` | include/future/future_all12.cc:4979-4985 | the multiples of the object size are objects if and only if they are below the number that fits |
| `Slabs.ObjPage` | include/future/future_all12.cc:4996-4997 | the page an object begins on belongs to its span |
| `PageAllocator.IndexOf` | include/future/memory.hh:454-458 | the largest index whose power of two does not exceed the pages |
| `PageAllocator.IndexOfConservative` | include/future/memory.hh:460-467 | the smallest index whose power of two is not below the pages |
| `PageAllocator.ConservativeFits` | include/future/memory.hh:460-467 | every span on the conservative list or above fits the request |
| `PageAllocator.FitsWhere` | include/future/future_all12.cc:5351-5364 | a span that fits is on the exact list or on one from the conservative index up |
| `PageAllocator.NoneFound` | include/future/future_all12.cc:5351-5371 | a search that took the first non-empty list, or the exact one, and found nothing missed nothing |
| `PageAllocator.FirstIsGood` | include/future/future_all12.cc:5351-5371 | a span from the list that the search looks at is less than twice as large as any free span that holds the request rounded up to a power of two |
| `PageAllocator.WrapsAtTop` | include/future/future_all12.cc:5345-5350 | the 32-bit shift exceeds the request if and only if it is at most 2^30 pages; above, it wraps to zero |
| `PageAllocator.TopRequestRefused` | include/future/future_all12.cc:5348-5350 | 2^30 + 1 pages are refused whatever is free |
| `PageAllocator.CpuPages.constructor` | include/future/memory.hh:367-390 | before the first request nothing is managed or listed |
| `PageAllocator.CpuPages.Initialize` | include/future/future_all12.cc:5254-5284 | on first use the bootstrap memory becomes one free span behind the page array; later calls change nothing |
| `PageAllocator.CpuPages.FreeSpanNoMerge` | include/future/future_all12.cc:5308-5317 | the pages become one free span, tagged at both ends, on its list, and counted, with the rest of the tiling kept |
| `PageAllocator.CpuPages.FreeSpan` | include/future/future_all12.cc:5319-5338 | the pages and the free spans they touch become one free span, and no two free spans touch |
| `PageAllocator.CpuPages.MergeBefore` | include/future/future_all12.cc:5320-5328 | a free span that ends at the hole is taken over, found by its tail tag |
| `PageAllocator.CpuPages.MergeAfter` | include/future/future_all12.cc:5329-5336 | a free span that begins at the end of the hole is taken over, found by its head tag |
| `PageAllocator.CpuPages.FindAndUnlinkSpan` | include/future/future_all12.cc:5340-5374 | finds a span if and only if a free one fits, unless the request exceeds 2^30 pages, which throws; the span leaves its list and the tiling, and no free span less than half its size holds the request rounded up to a power of two |
| `PageAllocator.CpuPages.SearchLists` | include/future/future_all12.cc:5355-5373 | finds a span if and only if a free one fits, given where the upward scan stopped |
| `PageAllocator.CpuPages.FindOn` | include/future/future_all12.cc:5367-5371 | first fit on a list: none only when none of its spans fits |
| `PageAllocator.CpuPages.AllocateLargeAndTrim` | include/future/future_all12.cc:5427-5461 | for any trimmer: null only when no free span fits; a part with pages that lies in the span found is cut out of it and the invariant of tiling, tags, lists and count holds; a part without pages leaves tags and lists that no spans explain; a part that reaches beyond the span is reported |
| `PageAllocator.CpuPages.TrimFound` | include/future/future_all12.cc:5441-5460 | the span found is cut into what was asked for and free remainders, for a part with pages |
| `PageAllocator.CpuPages.TrimHollow` | include/future/future_all12.cc:5441-5460 | for a part without pages the remainders become free spans, one of which then loses a tag, so that no spans explain tags and lists |
| `PageAllocator.HollowBroken` | include/future/future_all12.cc:5446-5458 | the tags of an empty part contradict the list of a remainder, whichever sides have one |
| `PageAllocator.NoTiling` | include/future/future_all12.cc:5446-5458 | a listed page that reads as not free, or whose span's last page does, fits no tiling |
| `PageAllocator.CpuPages.AllocateLarge` | include/future/future_all12.cc:5463-5468 | exactly `n` pages from the start of a free span, one less than twice as large as any that holds `n` rounded up to a power of two |
| `PageAllocator.CpuPages.AllocateLargeAligned` | include/future/future_all12.cc:5470-5474 | `n` pages at a page index that is a multiple of the alignment, if and only if the sum of both does not wrap; with `n` zero no spans explain tags and lists afterwards; with a sum that wraps the part reaches beyond the managed pages |
| `PageAllocator.AlignedFits` | include/future/future_all12.cc:5470-5474 | the aligned part lies in the span found if the sum does not wrap |
| `PageAllocator.AlignedTight` | include/future/future_all12.cc:5470-5474 | with a page fewer than are searched for, the aligned part would not fit in a span that begins on page 1 |
| `PageAllocator.WrapOverruns` | include/future/future_all12.cc:5470-5474 | when the sum wraps, the part reaches beyond the span found and beyond the page array |
| `PageAllocator.CpuPages.FreeLarge` | include/future/future_all12.cc:5146-5150 | the span at the address is free again, merged with its free neighbours, and counted |
| `PageAllocator.CpuPages.FreeUsed` | include/future/future_all12.cc:5319-5338 | as above, for a span given by its index |
| `PageAllocator.CpuPages.Shrink` | include/future/future_all12.cc:5226-5244 | the span keeps its first pages and the rest is free, merged; spans of pools and of the right size stay |
| `PageAllocator.PagesKeptHold` | include/future/future_all12.cc:5233 | the pages kept hold the bytes; none is kept for no bytes and for the last 4095 sizes below 2^64 |
| `PageAllocator.CpuPages.Empty` | include/future/future_all12.cc:5239-5243 | an allocation shrunk to nothing is free and merged if it began on the first managed page; elsewhere the page before it has lost its tag, and no spans explain tags and lists any more |
| `PageAllocator.NoTilingBehind` | include/future/future_all12.cc:5240-5243 | a free span above the first managed page with no size on the page before it fits no tiling |
| `PageAllocator.CpuPages.Link` | include/future/future_all12.cc:5303-5306 | the page is first on its list; all other lists, all tags and the pages of spans in use stay |
| `PageAllocator.CpuPages.Unlink` | include/future/future_all12.cc:5298-5301 | the page is off its list; all other lists, all tags and the pages of spans in use stay |
| `PageAllocator.CarvedCount` | include/future/future_all12.cc:5436-5452 | an allocation lowers the sum of free span sizes by exactly its pages |
| `PageAllocator.FillCount` | include/future/future_all12.cc:5308-5317 | freeing pages raises the sum of free span sizes by exactly them, within the managed pages |
| `PageAllocator.BootstrapLayout` | include/future/future_all12.cc:5264-5281 | 32 MiB are 8192 pages, 65 of which hold the page array |
| `Tilings.TiledExactly` | include/future/future_all12.cc:5308-5338 | every managed page is in exactly one span and no span leaves the managed range |
| `Tilings.Fill` | include/future/future_all12.cc:5311-5314 | filling an end of the hole with a tagged span keeps every other span's head and tail tags, despite stale ones inside |
| `Tilings.FreeBefore` | include/future/future_all12.cc:5320-5327 | a free tag before the hole is the tail of a free span that ends there, with nothing free before it |
| `Tilings.FreeAfter` | include/future/future_all12.cc:5329-5335 | a free tag after the hole is the head of a free span, with nothing free after it |
| `Tilings.FreeNeighbours` | include/future/future_all12.cc:5319-5338 | the pages around a free span read as not free |
| `Tilings.FreeBelowFill` | include/future/future_all12.cc:5308-5317 | placing a span adds its pages to the sum if and only if it is free |
| `PageLists.PageList.Erase` | include/future/memory.hh:251-262 | the page leaves the list, links of other pages stay, and the null index is never written |
| `PageLists.PageList.PushFront` | include/future/memory.hh:263-273 | the page comes first and only links of listed pages change |
| `PageLists.PageList.PopFront` | include/future/memory.hh:274-281 | the first page leaves and only links of listed pages change |
| `PageLists.PageList.Find` | include/future/memory.hh:282-291 | the first page on the list with enough pages, or none exactly when none has |
| `Bits.AlignUp` | include/future/future_all12.cc:5471-5473 | the least multiple not below the value |
| `TimerSets.Index` | include/future/timer.hh:33-44 | the fallback bucket if and only if the time is past; otherwise by the highest bit in which it differs from `_last` |
| `TimerSets.HigherBucketEarlier` | include/future/timer.hh:160-168 | a timer in a higher bucket is earlier than any in a lower one |
| `TimerSets.IndexMoves` | include/future/timer.hh:126-158 | moving `_last` keeps lower buckets right, expires higher ones, and sends the rest of its own bucket strictly higher |
| `TimerSets.FoundInBucket` | include/future/timer.hh:97-106 | every pending timer is in the bucket computed for it now |
| `TimerSets.TimerSet.constructor` | include/future/timer.hh:64 | no timer is pending |
| `TimerSets.TimerSet.Insert` | include/future/timer.hh:77-92 | the timer is pending, buckets and bitmap stay right, `_next` stays a lower bound, and the answer is whether it became earlier |
| `TimerSets.TimerSet.Remove` | include/future/timer.hh:97-106 | exactly one occurrence of a pending timer leaves the set, from the bucket computed now; the bitmap stays right |
| `TimerSets.TimerSet.SpliceAbove` | include/future/timer.hh:130-134 | all buckets above are emptied into the result, which is all due |
| `TimerSets.TimerSet.Rescan` | include/future/timer.hh:140-156 | the bucket of the time is emptied in finitely many rounds: due timers leave, the others land in strictly higher buckets |
| `TimerSets.TimerSet.FindNext` | include/future/timer.hh:160-169 | `_next` becomes the earliest pending timestamp, or the largest one when none is pending |
| `TimerSets.TimerSet.Expire` | include/future/timer.hh:115-172 | returns exactly the pending timers that are due, each once, keeps exactly the others, and makes `_next` exact |
| `TimerSets.TimerSet.GetNextTimeout` | include/future/timer.hh:174-176 | the time to arm for is not in the past, comes after no pending timer that is not, and is that of one when `_next` is exact |
| `TimerSets.TimerSet.Size` | include/future/timer.hh:183-189 | the number of pending timers |
| `TimerSets.TimerSet.Empty` | include/future/timer.hh:190-192 | whether no timer is pending, from the bitmap alone |
| `TimerSets.EarliestInLast` | include/future/timer.hh:160-168 | the minimum of the highest non-empty bucket is the minimum of all |
| `TimerSets.SetIterator.constructor` | include/future/bitset.h:73-80 | stands at the first set bit from the offset on, or at the end |
| `TimerSets.SetIterator.Advance` | include/future/bitset.h:62-71 | moves to the next set bit, skipping none |
| `TimerSets.FirstSet` | include/future/bitset.h:44-49 | the position of the lowest set bit |
| `TimerSets.LastSet` | include/future/bitset.h:51-56 | the position of the highest set bit |
| `SpscQueues.SpscQueue.Push` | include/future/smp.hh:57-67 | appends the item unless one slot only is free |
| `SpscQueues.SpscQueue.PushAll` | include/future/smp.hh:69-79 | appends items in order until one does not fit |
| `SpscQueues.SpscQueue.Pop` | include/future/smp.hh:81-90 | takes the oldest item, or nothing when there is none |
| `SpscQueues.SpscQueue.PopMany` | include/future/smp.hh:92-99 | takes the oldest items in order, as many as there are and fit |
| `SpscQueues.SpscQueue.Empty` | include/future/smp.hh:48-50 | whether there is no item |
| `SpscQueues.SpscQueue.Full` | include/future/smp.hh:52-55 | whether exactly one slot is left free |
| `SpscQueues.StepKeepsRing` | include/future/smp.hh:57-90 | each load or store of either side keeps the ring right for the other side wherever it is |
| `SpscQueues.FifoInEveryRun` | include/future/smp.hh:57-90 | in every interleaving items come out in order, once each |
| `SpscQueues.StepOnItems` | include/future/smp.hh:57-90 | to the items of the ring, publishing `_tail` is the push, publishing `_head` is the pop, and every other load and store is nothing; a check fails exactly when the ring is full or empty |
| `MessageQueues.EveryState` | include/future/future_all12.cc:3318-3442 | the invariant of order, conservation and counts holds after every step of sender and receiver |
| `MessageQueues.ExactlyOneStage` | include/future/future_all12.cc:3318-3442 | each submitted item is in exactly one stage, once, and nothing else is in any |
| `MessageQueues.ProcessedInOrder` | include/future/future_all12.cc:3433-3442 | `process()` sees the items in the order of submission |
| `MessageQueues.CompletedOnce` | include/future/future_all12.cc:3416-3425 | no item is completed twice, and none before it was processed |
| `MessageQueues.QueueLengthOk` | include/future/future_all12.cc:3318-3331 | `_current_queue_length` is `_sent - _compl` and never underflows |
| `MessageQueues.DrainedMeansDone` | include/future/future_all12.cc:3416-3431 | when the sender has nothing outstanding, exactly the submitted items are completed |
| `MessageRings.StepSimulates` | include/future/future_all12.cc:3318-3442 | with the cores' loads and stores on both rings interleaved in any way, each of them is at most one step of the queue |
| `MessageRings.RunSimulated` | include/future/future_all12.cc:3318-3442 | every run of loads and stores ends where some run of the queue with single-step pushes and pops ends |
| `MessageRings.OneStage` | include/future/future_all12.cc:3318-3442 | in every such run each submitted item is in exactly one stage, once, and nothing else is in any |
| `MessageRings.InOrderAndOnce` | include/future/future_all12.cc:3416-3442 | in every such run `process()` sees the items in the order of submission, and none is completed twice or unprocessed |
| `MessageQueues.MessageQueue.MovePending` | include/future/future_all12.cc:3318-3331 | the longest prefix of the waiting requests that the ring has room for goes into it, in order, and is counted as sent and outstanding; these are exactly the sender's steps from `move_pending` |
| `MessageQueues.MessageQueue.SubmitItem` | include/future/future_all12.cc:3339-3345 | one submission; with a full batch of 16 waiting they are moved, with fewer none is: exactly the steps of the queue |
| `MessageQueues.MessageQueue.Respond` | include/future/future_all12.cc:3347-3352 | one response; with a full batch or a stopped engine the responses are flushed, otherwise none is: exactly the steps of the queue |
| `MessageQueues.MessageQueue.FlushResponseBatch` | include/future/future_all12.cc:3354-3365 | the longest prefix of the waiting responses that the ring has room for goes into it, in order, however few they are: exactly the receiver's steps of flushing |
| `MessageQueues.MessageQueue.FlushRequestBatch` | include/future/future_all12.cc:3427-3431 | the longest prefix of the waiting requests that the ring has room for goes into it, in order, however few they are, counted as sent and outstanding: exactly the sender's steps |
| `MessageQueues.MessageQueue.ProcessCompletions` | include/future/future_all12.cc:3416-3425 | all items that came back are completed, in order, and counted, and the ring is empty: exactly the sender's steps |
| `MessageQueues.MessageQueue.ProcessIncoming` | include/future/future_all12.cc:3433-3442 | all items that came in are processed, in order, and the ring is empty: exactly the receiver's steps |
| `MessageQueues.MoveStepsTo` | include/future/future_all12.cc:3318-3331 | the steps of moving push the longest prefix that fits |
| `MessageQueues.MoveResult` | include/future/future_all12.cc:3318-3331 | from an idle sender the steps of flushing the requests push as many of them as the ring has room for, and count them |
| `MessageQueues.FlushResult` | include/future/future_all12.cc:3354-3365 | the steps of flushing push the longest prefix that fits, and none is lost |
| `MessageQueues.CompletionResult` | include/future/future_all12.cc:3394-3425 | popping one, then the rest, then completing leaves every item completed in ring order |
| `MessageQueues.IncomingResult` | include/future/future_all12.cc:3394-3442 | popping one, then the rest, then processing leaves every item processed in ring order |
| `MessageProgress.NeverStuck` | include/future/future_all12.cc:3318-3442 | in every state of every run, while an item is neither done nor in process, a core has a step to take other than submitting or responding |
| `MessageProgress.Settles` | include/future/future_all12.cc:3318-3442 | from every such state finitely many steps of the cores alone bring every item submitted into process or to its end |
| `MessageProgress.QuietMeansDone` | include/future/future_all12.cc:3318-3442 | with both cores at rest, nothing on its way and nothing in process every item submitted is done |
| `MessageProgress.Drains` | include/future/future_all12.cc:3318-3442 | with the responses of the items in process added, finitely many steps complete every item submitted |
| `MessageProgress.EverythingDone` | include/future/future_all12.cc:3318-3442 | from every state of every run the cores' own steps get every item submitted processed, and with the responses completed |
| `RingProgress.PushRequest` | include/future/future_all12.cc:3318-3331 | a push that the queue may make is made by the loads and stores of the sender that are left to do, wherever it is |
| `RingProgress.PopResponse` | include/future/future_all12.cc:3394-3425 | a pop that the queue may make is made by the loads and stores of the sender that are left to do, wherever it is |
| `RingProgress.EndPush` | include/future/future_all12.cc:3318-3365 | the end of pushing, with everything pushed or the ring full, is reached by the loads that find it so |
| `RingProgress.NextStep` | include/future/future_all12.cc:3318-3442 | whatever step brings the queue on is taken by finitely many loads and stores |
| `RingProgress.Drains` | include/future/future_all12.cc:3318-3442 | from every coupled state finitely many loads, stores and responses complete every item submitted |
| `RingProgress.EverythingDone` | include/future/future_all12.cc:3318-3442 | so they do from every state of every run of loads and stores on both rings |
| `Wakeups.EveryState` | include/future/future_all12.cc:1980-1998 | in every interleaving a receiver on its way to sleep has its flag up or a signal sent or owed |
| `Wakeups.NoLostWakeup` | include/future/future_all12.cc:3377-3392 | no state has the receiver blocked, an inbound ring non-empty, no signal pending and every sender past its wakeup |
| `Wakeups.WakeupArrives` | include/future/future_all12.cc:3386-3391 | from such a state the senders' own next steps, at most three, get the signal out, with the receiver still blocked and its items untouched |
| `Wakeups.WakesUp` | include/future/future_all12.cc:5849-5852 | a blocked receiver that is woken comes to run, awake, by its own next steps, and the signal is used up |
| `Wakeups.ItemIsTaken` | include/future/future_all12.cc:3377-3392 | from every reachable state with the receiver blocked and an item in a ring, at most three steps of senders and then three of the receiver wake it and take the item |
| `Wakeups.GetsToSleep` | include/future/future_all12.cc:5838-5849 | with all rings empty and no push between, a running receiver gets to block, announced as sleeping |
| `Wakeups.FindsItem` | include/future/future_all12.cc:1987-1991 | a receiver on its way to sleep that finds an item takes it, looks on through the other rings, and runs again, awake |
| `Wakeups.ComesBack` | include/future/future_all12.cc:5838-5852 | from every reachable state the receiver's own steps lead back to running, awake, with rings and senders as they were |
| `Wakeups.PushCalls` | include/future/future_all12.cc:3377-3392 | a push into a ring with room, with the steps that follow it, adds one item and leaves the receiver's flag down, and a signal is sent if and only if the flag was up |
| `Wakeups.RingCounts` | include/future/future_all12.cc:3377-3442 | in every state of every run a ring has what was pushed less what was taken, and a look that took something counts as work found |
| `Wakeups.SignalsSent` | include/future/future_all12.cc:3386-3391 | in every run no more signals are delivered than were sent, none is sent before the receiver first announces its sleep, and until then it is awake |
| `AppendFiles.StepKeepsSafe` | include/future/future_all12.cc:6985-7066 | every event, with any outcome of the system calls, keeps the file safe and settled |
| `AppendFiles.EveryState` | include/future/future_all12.cc:6963-7066 | the file is safe and settled in every state of every run |
| `AppendFiles.InFlightSafety` | include/future/future_all12.cc:6963-6983 | at most one size-changing operation is in flight, beside no other; any other write in flight lies within the committed size; so does the logical size |
| `AppendFiles.StartedInOrder` | include/future/future_all12.cc:7037-7055 | operations start in the order of submission, and one waits only while another is in flight |
| `AppendFiles.WaitsFor` | include/future/future_all12.cc:6963-6983 | in every state of every run an operation waits only if it would change the size itself while others are in flight, or for one that does and is in flight alone, or has just returned |
| `AppendFiles.StepSizes` | include/future/future_all12.cc:7062-7066 | an event sets the logical size to that of a successful truncation, raises it to the end of a successful write, and otherwise leaves it |
| `AppendFiles.LogicalSize` | include/future/future_all12.cc:7062-7066 | in every state of every run the logical size is the one the last successful truncation set, or the file had at first, raised to the end of every write that has succeeded since, and no further |
| `AppendFiles.GrowthWhen` | include/future/future_all12.cc:6999-7035 | the file is to be grown if and only if, before the first operation that must run alone, more appending writes wait than may run one by one, or any does and the file is sloppy |
| `AppendFiles.GrowthSize` | include/future/future_all12.cc:7018-7022 | it is to be grown just enough for those writes, but a sloppy file to twice its size at least |
| `AppendFiles.GrowthReleasesBatch` | include/future/future_all12.cc:6996-7044 | after a successful growth everything before the first run-alone operation is in flight at once |
| `AppendFiles.CoveringFacts` | include/future/future_all12.cc:7005-7017 | the speculative size covers exactly the queued writes up to that operation and is no larger than needed |
| `AppendFiles.CoveringCounts` | include/future/future_all12.cc:7005-7017 | the count is that of the appending writes up to that operation |
| `AppendFiles.CompletedOnce` | include/future/future_all12.cc:7045-7060 | after a close `_completed` is set once, when first nothing is queued or in flight |
| `AppendFiles.StepsRunOut` | include/future/future_all12.cc:6990-6993 | every result and continuation brings the file closer to rest |
| `AppendFiles.NeverStuck` | include/future/future_all12.cc:7037-7049 | a file with work left has an event due |
| `AppendFiles.StepKeepsDisk` | include/future/future_all12.cc:6996-7066 | an event keeps the committed size on disk if and only if it is not the return of a write of nothing beyond the end, and keeps both equal if and only if it is not that of a failed write that got beyond the end either |
| `AppendFiles.CommittedOnDisk` | include/future/future_all12.cc:6963-7066 | as long as no write has returned with nothing beyond the end, the committed size is on disk in every state, and a write in flight beside others does not change the length of the file |
| `AppendFiles.CommittedIsDisk` | include/future/future_all12.cc:6996-7066 | if no write has failed beyond the end either, the committed size is the length on disk |
| `AppendFiles.HollowExample` | include/future/future_all12.cc:7062-7066 | after a write of no bytes beyond the end of a file at rest, two writes that make the file longer are in flight at once |
| `AppendFiles.AppendFile.constructor` | include/future/future_all12.cc:6943-6958 | the sizes are those of the file, grown to the hint for a sloppy one |
| `AppendFiles.AppendFile.MayDispatch` | include/future/future_all12.cc:6976-6983 | agrees with the count of flights of either kind |
| `AppendFiles.AppendFile.Dispatch` | include/future/future_all12.cc:6985-6994 | the operation is counted and in flight; a flush gives back what is beyond the logical size if the system call succeeds, and nothing else changes a size; one transition |
| `AppendFiles.AppendFile.OptimizeQueue` | include/future/future_all12.cc:6999-7035 | grows the file as the transition says, only with nothing in flight |
| `AppendFiles.AppendFile.CoverWrites` | include/future/future_all12.cc:7005-7017 | the loop computes the covering size and the count of appending writes |
| `AppendFiles.AppendFile.ProcessQueue` | include/future/future_all12.cc:7037-7049 | the loop drains the queue as the transition says and leaves the file safe and settled |
| `AppendFiles.AppendFile.Enqueue` | include/future/future_all12.cc:7051-7055 | one submission is one step of the run |
| `AppendFiles.AppendFile.ReadDma` | include/future/future_all12.cc:7068-7091 | a read past the logical size gets nothing; any other is queued, cut at the aligned size and nowhere else |
| `AppendFiles.AppendFile.WriteDma` | include/future/future_all12.cc:7130-7153 | the write is queued |
| `AppendFiles.AppendFile.TruncateTo` | include/future/future_all12.cc:7219-7238 | the truncation is queued |
| `AppendFiles.AppendFile.FlushFile` | include/future/future_all12.cc:7181-7208 | queued if and only if the file is sloppy and larger than its contents |
| `AppendFiles.AppendFile.OperationReturns` | include/future/future_all12.cc:7140-7149 | a successful write raises both sizes to where it ends, a successful truncation sets both, a failure and any other operation leave both; the file on disk covers the bytes written; one step of the run |
| `AppendFiles.AppendFile.CommitSize` | include/future/future_all12.cc:7062-7066 | both sizes cover the size written, neither falls, and neither grows further than that |
| `AppendFiles.AppendFile.OperationRetires` | include/future/future_all12.cc:6990-6993 | the operation is counted out and the queue processed, one step of the run |
| `AppendFiles.AppendFile.CloseFile` | include/future/future_all12.cc:7245-7250 | closing is one step of the run |
| `AppendFiles.AppendFile.FinishClose` | include/future/future_all12.cc:7250-7258 | with everything drained the sizes agree if and only if the system call succeeds or there is nothing to cut, and the file on disk is as long as its contents if and only if it was cut or was so before |
| `OutputStreams.StepKeeps` | include/future/stream.hh:1237-1391 | every call, completion or poll, successful or not, keeps the invariant |
| `OutputStreams.EveryState` | include/future/stream.hh:1237-1391 | the invariant holds in every state of every run |
| `OutputStreams.OneAtATime` | include/future/stream.hh:1343-1391 | at most one put or flush of the sink is outstanding |
| `OutputStreams.BytesConserved` | include/future/stream.hh:1260-1391 | in every state of every run the bytes handed to the sink, then those of the pending call, then the buffer are the bytes accepted, in order |
| `OutputStreams.StepAccepts` | include/future/stream.hh:1254-1495 | an event accepts what it writes, less what it drops: what was to follow a failed put, and packets of which 32 bits keep no length |
| `OutputStreams.LostAreLast` | include/future/stream.hh:1254-1495 | the bytes dropped are the last ones accepted |
| `OutputStreams.AllAccepted` | include/future/stream.hh:1254-1495 | everything written has been accepted if and only if no event has dropped anything, and what is missing are the bytes dropped |
| `OutputStreams.ShortPackets` | include/future/stream.hh:1473-1495 | as long as no write of a packet makes 2^32 bytes to hold, less than a chunk is held, and everything written is accepted if and only if no failed put had bytes left after it |
| `OutputStreams.PacketWrapExample` | include/future/stream.hh:1473-1485 | a packet of 2^32 bytes is skipped, and two of 2^31 bytes are held under the length zero until the next one replaces them |
| `OutputStreams.ChunksExact` | include/future/stream.hh:1237-1258 | for trimming streams every put other than a flush's is exactly `_size` long, and what stays is shorter, in 32 bits for packets, or one full buffer |
| `OutputStreams.PollFlushHandsAll` | include/future/stream.hh:1358-1391 | a put-off flush that goes ahead hands over everything accepted, in every run |
| `OutputStreams.SplitKeeps` | include/future/stream.hh:1237-1258 | the chunks followed by the remainder are the input |
| `OutputStreams.ZeroCopySplitKeeps` | include/future/stream.hh:1452-1471 | the chunks followed by the remainder are the packet, unless 32 bits keep nothing of the length of the remainder, which is then dropped |
| `OutputStreams.OutputStream.WriteBytes` | include/future/stream.hh:1260-1308 | one call is one step of the run |
| `OutputStreams.OutputStream.PutOrWait` | include/future/stream.hh:1343-1356 | calls off a scheduled flush, and waits for one in progress |
| `OutputStreams.OutputStream.SplitRound` | include/future/stream.hh:1243-1257 | one round of splitting puts a chunk or buffers the rest |
| `OutputStreams.OutputStream.WriteBulk` | include/future/stream.hh:1265-1290 | a bulk write fills and puts the buffer first, as the transition says |
| `OutputStreams.OutputStream.WriteBuffered` | include/future/stream.hh:1292-1307 | a smaller write fills the buffer, puts it when full and keeps the rest, as the transition says |
| `OutputStreams.OutputStream.ZeroCopyRound` | include/future/stream.hh:1456-1470 | one round of splitting a packet puts a chunk, or keeps the rest if it has a length in 32 bits |
| `OutputStreams.OutputStream.Gather` | include/future/stream.hh:1480-1484 | the packet goes behind those held, which it replaces if they have the length zero |
| `OutputStreams.OutputStream.KeepOrPut` | include/future/stream.hh:1486-1492 | what is gathered is kept until there is enough for a put, as the transition says |
| `OutputStreams.OutputStream.WritePacketBytes` | include/future/stream.hh:1473-1495 | one call is one step of the run, with the lengths of packets kept in 32 bits |
| `OutputStreams.OutputStream.PutReturns` | include/future/stream.hh:1254-1280 | what follows a put that is through is one step of the run; a failed put ends the call and drops the rest |
| `OutputStreams.OutputStream.CallFlushNow` | include/future/stream.hh:1311-1339 | one call is one step of the run |
| `OutputStreams.OutputStream.PollFlushNow` | include/future/stream.hh:1358-1378 | the put-off flush is called off, or puts what is held, as the transition says |
| `OutputStreams.OutputStream.PollBatch` | include/future/stream.hh:1358-1378 | the poller's turn is one step of the run |
| `OutputStreams.OutputStream.PollPutReturns` | include/future/stream.hh:1373-1389 | the end of its put is one step of the run: an error is kept, and the flush ends or starts over |
| `OutputStreams.OutputStream.PollContinues` | include/future/stream.hh:1380-1382 | going on to flush the sink is one step of the run |
| `OutputStreams.OutputStream.PollFlushReturns` | include/future/stream.hh:1380-1390 | the end of that flush is one step of the run, and flushes once more if `flush()` was called meanwhile |
| `OutputStreams.OutputStream.ResumePut` | include/future/stream.hh:1347-1352 | the put that waited for a flush goes to the sink, one step of the run |
| `OutputStreams.OutputStream.FlushNow` | include/future/stream.hh:1313-1324 | without batching what is held is handed to the sink, with its flush to follow, unless a flush in progress is to be waited for, as the transition says |
| `OutputStreams.OutputStream.FlushReturns` | include/future/stream.hh:1313-1324 | the end of the caller's flush is one step of the run |
| `OutputFlushes.FlushPuts` | include/future/stream.hh:1313-1324 | `flush()` without batching: with anything held the buffers are empty, everything accepted has been handed over, and the caller waits for that put with a flush of the sink to follow; with nothing held the caller is free |
| `OutputFlushes.OnlyTheSink` | include/future/stream.hh:1313-1324 | without batching nothing but the end of that put, and of that flush, happens to a caller who waits for it |
| `OutputFlushes.FlushRun` | include/future/stream.hh:1313-1324 | in every run: after such a call and a put that succeeds the sink is flushed, with everything accepted before it, and only the end of that flush lets the caller go; after a put that fails it is not flushed |
| `OutputFlushes.FlushAsked` | include/future/stream.hh:1325-1337 | `flush()` with batching: the caller is free; an error kept is reported and gone, and otherwise a flush is asked for and in the poller's queue |
| `OutputFlushes.AskedUntil` | include/future/stream.hh:1343-1391 | a flush asked for stays so until a put of the caller calls it off or the poller takes everything held |
| `OutputFlushes.HandsOver` | include/future/stream.hh:1358-1378 | the poller's turn with a flush asked for hands over everything held |
| `OutputFlushes.PollEnds` | include/future/stream.hh:1380-1390 | an error of the poller's put or flush is kept; with a flush asked for meanwhile it starts over, and otherwise the put-off flush is over |
| `OutputFlushes.ThenFlushes` | include/future/stream.hh:1380-1382 | from the moment the poller has taken everything its own next steps flush the sink |
| `OutputFlushes.CarriedOut` | include/future/stream.hh:1325-1391 | from every state of every run with a flush asked for, the poller's own steps flush the sink with everything accepted before it |
| `OutputFlushes.LetGo` | include/future/stream.hh:1237-1391 | as long as nothing fails, finitely many completions and turns of the poller let the caller go |
| `OutputFlushes.EveryCallEnds` | include/future/stream.hh:1237-1391 | so they do in every state of every run: no call waits for ever |
| `OutputFlushes.ErrorKept` | include/future/stream.hh:1325-1389 | in every state of every run an error is kept if and only if a put or flush of the poller has failed since the last call of `flush()`, and never without batching |
| `OutputFlushes.WriteWaits` | include/future/stream.hh:1260-1308 | a write makes the caller wait if and only if it does not fit in the buffer, or fills it from empty; otherwise its bytes are buffered and nothing else changes |
| `OutputFlushes.PacketWaits` | include/future/stream.hh:1473-1495 | a packet makes the caller wait if and only if what is held with it has the size of a chunk, in 32 bits; otherwise it is held and nothing else changes |
| `Packets.Packet.constructor` | include/future/packet.hh:165-168 | an empty packet with room for the fragments, as many as 16 bits can count |
| `Packets.Packet.FromData` | include/future/packet.hh:301-319 | the packet holds a copy of the data, and its length is right if and only if that is less than 2^32 bytes |
| `Packets.Packet.AllocateIfNeeded` | include/future/packet.hh:110-118 | there is room for the fragments and the contents stay, if and only if they fit or 16 bits can count those to be allocated, twice the present ones at least; a new array has just that many, and four at least |
| `Packets.Packet.TrimFront` | include/future/packet.hh:497-517 | drops exactly the first bytes, over any fragments, empty ones included, and the length goes down by them |
| `Packets.Packet.Share` | include/future/packet.hh:571-591 | the new packet is the slice, with its length; the old one keeps its contents |
| `Packets.Packet.Append` | include/future/packet.hh:457-471 | contents and 32-bit length become those of `Appended`, unless the fragments are more than 16 bits can count |
| `Packets.AppendExact` | include/future/packet.hh:457-464 | the contents are joined, with the right length, if and only if they are fewer than 2^32 bytes together; bytes are lost if and only if there were some under the length zero |
| `Packets.AppendAllExact` | include/future/packet.hh:457-464 | any number of packets appended one after the other is joined, with the right length, if and only if they are fewer than 2^32 bytes together |
| `Packets.AppendWrapExample` | include/future/packet.hh:457-464 | two packets of 2^31 bytes have the length zero together, and the next `append` throws both away |
| `Packets.HoldsWhen` | include/future/packet.hh:110-118 | fragments that do not fit as it is are held if and only if 16 bits can count all of them and twice those there were |
| `Packets.Impl.UnuseInternalData` | include/future/packet.hh:135-148 | no fragment is internal any more and the contents stay |
| `Packets.Impl.Copy` | include/future/packet.hh:93-104 | the copy has the same contents, with its internal fragment in its own area |
| `Packets.Impl.CopyInternalFragmentTo` | include/future/packet.hh:149-156 | the internal bytes are where the new headroom says |
| `Packets.Impl.WholeFragments` | include/future/packet.hh:501-504 | how many whole fragments the bytes take and how many bytes of the next |
| `Packets.Impl.ShareFragments` | include/future/packet.hh:580-586 | the fragments taken are the next bytes from the start, exactly as many as asked for |
| `PromiseFutures.World.GetFuture` | include/future/future_all12.hh:397-403 | promise and future point at each other |
| `PromiseFutures.World.NewReady` | include/future/future.hh:475-491 | a future with its result from the start, which is set on a channel of its own |
| `PromiseFutures.World.MovePromise` | include/future/future.hh:788-799 | future, state and continuation follow the promise, and the links stay two-way |
| `PromiseFutures.World.EndPromise` | include/future/future_all12.hh:420-431 | without a continuation the linked future takes over the state, and a result nobody is linked to is lost |
| `PromiseFutures.World.AssignPromise` | include/future/future.hh:805-811 | the target ends first: its linked future takes over its state, a waiting continuation and the promises carried go; then it takes the place of the other; assigning a promise to itself changes nothing |
| `PromiseFutures.World.MoveFuture` | include/future/future.hh:542-552 | the promise points at the new future; a result the future held moves along |
| `PromiseFutures.World.DestroyFuture` | include/future/future.hh:562-570 | an exception seen through the future is reported and, like a value, stays with a linked promise; what the future held itself is lost, and nothing else is |
| `PromiseFutures.World.Abandon` | include/future/future_all12.hh:420-431 | the promise ends with the continuation that waits with it, the promise this one carries, and so on; futures linked to any of them take over their states, and nothing else changes |
| `PromiseFutures.World.SetResult` | include/future/future.hh:824-864 | an attached continuation is scheduled with the result, as the value or exception it is; otherwise the promise keeps it so |
| `PromiseFutures.World.MakeReady` | include/future/future_all12.hh:405-417 | the continuation is scheduled once, with the result and its status |
| `PromiseFutures.World.GetAvailableState` | include/future/future.hh:510-518 | the caller gets the result that the future saw, as the value or exception it was set to, and it is delivered; the link is gone on both sides |
| `PromiseFutures.World.Schedule` | include/future/future.hh:497-508 | with a result there the continuation is scheduled with just that state, without one it waits with the promise; the future is detached |
| `PromiseFutures.World.ForwardTo` | include/future/future.hh:652-665 | an available result, with its status, is then in the target promise or its continuation, scheduled; otherwise the future's promise takes the target's place; forwarding to the own promise cuts the link |
| `PromiseFutures.World.ForwardPromise` | include/future/future.hh:658-664 | the consumer of the forwarded promise becomes that of the source, and results set there come to its channel |
| `PromiseFutures.World.RunTask` | include/future/future.hh:608-622 | a scheduled continuation consumes its result, once, as what it was set to |
| `PromiseFutures.World.Then` | include/future/future.hh:590-629 | the future returned belongs to the promise that the continuation carries; the continuation is scheduled with the state the source saw, or waits with the source's promise; the source is detached |
| `PromiseFutures.World.NewPair` | include/future/future.hh:604-606 | a promise and its future, linked both ways, after the promise moved to where it stays |
| `PromiseFutures.World.RunThen` | include/future/future.hh:611-622 | the continuation consumes its result once; a failure, or the result of the future the function returned, reaches the consumer of the carried promise with its status; a waiting future's promise gets that consumer; the carried promise ends |
| `PromiseFutures.World.HeldOnce` | include/future/future.hh:497-518 | a result is held in one place only, as the value or exception it was set to, and in none once delivered or lost |
| `PromiseFutures.World.DeliveredOnce` | include/future/future.hh:497-665 | a delivered result was delivered with its own status on the one channel that the forwards from its origin lead to; no other result came there and none can be set there |
| `PromiseFutures.OneEnd` | include/future/future.hh:652-665 | chains of forwards from one origin have one end |
| `PromiseFutures.World.LinksSymmetric` | include/future/future.hh:544-570 | `p._future == f` if and only if `f._promise == p` |
| `ChunkedFifos.ChunkedFifo.constructor` | include/future/chunked_fifo.hh:113-137 | the queue is empty, for the chunk sizes whose full chunks the counters tell |
| `ChunkedFifos.ChunkedFifo.Empty` | include/future/chunked_fifo.hh:205-209 | whether there is no item |
| `ChunkedFifos.ChunkedFifo.Size` | include/future/chunked_fifo.hh:211-224 | the number of items, if and only if not both end chunks are full chunks of 2^31 |
| `ChunkedFifos.ChunkedFifo.BackChunkNew` | include/future/chunked_fifo.hh:287-308 | an empty chunk comes last, from the saved ones if there are any |
| `ChunkedFifos.ChunkedFifo.EnsureRoomBack` | include/future/chunked_fifo.hh:311-319 | the back chunk has room; a saved chunk is used before one is allocated |
| `ChunkedFifos.ChunkedFifo.UndoRoomBack` | include/future/chunked_fifo.hh:321-347 | an empty back chunk is dropped, any other kept, contents unchanged |
| `ChunkedFifos.ChunkedFifo.FindBefore` | include/future/chunked_fifo.hh:338-342 | the walk finds the chunk before the last |
| `ChunkedFifos.ChunkedFifo.PushBack` | include/future/chunked_fifo.hh:364-390 | appends the item; when its constructor throws, contents, chunks and their number are as before |
| `ChunkedFifos.ChunkedFifo.Front` | include/future/chunked_fifo.hh:406-410 | the oldest item |
| `ChunkedFifos.ChunkedFifo.Back` | include/future/chunked_fifo.hh:392-404 | the newest item |
| `ChunkedFifos.ChunkedFifo.FrontChunkDelete` | include/future/chunked_fifo.hh:412-441 | the empty front chunk leaves, saved if none is |
| `ChunkedFifos.ChunkedFifo.PopFront` | include/future/chunked_fifo.hh:443-452 | drops the oldest item |
| `ChunkedFifos.FullIsSeen` | include/future/chunked_fifo.hh:311-316 | the 32-bit count tells a full chunk of a power of two of items if and only if that is at most 2^31; a larger chunk is never seen to be full |
| `ChunkedFifos.ChunkedFifo.Reserve` | include/future/chunked_fifo.hh:454-477 | contents stay; as many chunks are saved as the formula asks for, with which there is room for the pushes asked for if rounding up does not wrap |
| `ChunkedFifos.ChunkedFifo.ReserveAndPush` | include/future/chunked_fifo.hh:455-477 | after `reserve(n)` the next `n - size()` pushes allocate no chunk |
| `ChunkedFifos.SizeExact` | include/future/chunked_fifo.hh:211-224 | the formula is exact if and only if not both ends are full chunks of 2^31 items |
| `ChunkedFifos.SizeWrapExample` | include/future/chunked_fifo.hh:219-222 | two such chunks count as empty |
| `ChunkedFifos.NeededChunksEnough` | include/future/chunked_fifo.hh:458-464 | the wrapping subtraction asks for enough chunks if and only if rounding up does not wrap |
| `ChunkedFifos.NeededChunksLeast` | include/future/chunked_fifo.hh:458-464 | and for no chunk more than that: one fewer would not do, and nothing is asked for when the back chunk has the room |
| `ChunkedFifos.NeededChunksBelow` | include/future/chunked_fifo.hh:458-464 | for `n` below the size nothing is asked for if and only if the items and the room behind them exceed `n` by less than a chunk; otherwise almost 2^64 items' worth is |
| `ChunkedFifos.ReserveBelowExample` | include/future/chunked_fifo.hh:458-464 | with 256 items in two full chunks of 128, `reserve(0)` asks for 2^57 - 2 chunks |
| `ChunkedFifos.ReserveWrapExample` | include/future/chunked_fifo.hh:458-464 | a request for 2^64 - 1 items asks for none |
| `ChunkedFifos.WrapMask` | include/future/chunked_fifo.hh:199-203 | wrapping a counter to 32 bits does not disturb its slot |
| `ChunkedFifos.MaskApart` | include/future/chunked_fifo.hh:199-203 | counters less than a chunk apart have different slots |
| `ChunkedFifos.HoldsPush` | include/future/chunked_fifo.hh:368-375 | storing at the masked end appends, also when the counter wraps |
| `ChunkedFifos.HoldsPop` | include/future/chunked_fifo.hh:445-449 | counting the begin up drops the oldest, also when the counter wraps |

## Left out

- Growth and reclaim of memory (`do_resize`, reclaimers, `maybe_reclaim`, the reclaim hook), so a failed search is not retried after reclaiming.
- `SmallPools.SmallPool.constructor`: object sizes above four pages, for which there is no pool.
- The links of free objects, which live in the free memory itself: `_free` and the freelists are sequences.
- Freeing across CPUs (`free_cross_cpu`), `free(ptr, size)`, `realloc`-style calls, backtraces and allocation sites.
- The failure of an allocation is one outcome, whether the source returns null, throws or aborts.
- Searches for zero pages, and for more than 2^31 pages on a CPU with nothing managed yet or with more pages than that: counting the zeros of zero and shifting by the width of the word are undefined in the source.
- `PageAllocator.CpuPages.AllocateLargeAndTrim`: a part that reaches beyond the span found is reported as `Overrun`, and the writes past the page array that the source goes on to make are not modelled.
- `PageAllocator.CpuPages.Initialize`: mapping the memory always succeeds.
- Masking with `align - 1` and `items_per_chunk - 1` is division and remainder; both are powers of two where the source asks for it.
- Timer list iterators, `clear()`, cancelling on destruction, and the arming of the reactor's timer.
- `TimerSets.TimerSet.Remove`: `_next` stays a lower bound and is not made exact, as in the source.
- `TimerSets.TimerSet.Expire`: times before 1970, for which `_last` would be negative, and the abort when time goes back are excluded.
- Weak memory: the ring, the queue and the wakeup are modelled under sequential consistency, which `systemwide_memory_barrier` is there to provide.
- The fixed local array and the prefetch padding of `process_queue`: a batch is popped item by item.
- `MessageQueues.MessageQueue.MovePending`: the other core takes no step meanwhile; what happens when it does is in the runs of `MessageQueues` and `MessageRings`.
- `MessageQueues.MessageQueue.SubmitItem`: the same.
- `MessageQueues.MessageQueue.Respond`: the same.
- `MessageQueues.MessageQueue.FlushRequestBatch`: the same.
- `MessageQueues.MessageQueue.FlushResponseBatch`: the same.
- `MessageQueues.MessageQueue.ProcessCompletions`: the same; a ring refilled during the drain is in the runs only.
- `MessageQueues.MessageQueue.ProcessIncoming`: the same.
- `Wakeups.WakeupArrives`: shows the steps that get the signal out, not that the operating system schedules the sender.
- `Wakeups.ItemIsTaken`: the same for the receiver, and for the progress of queues, files and streams: the steps are there to be taken, and who takes them when is left open.
- `MessageProgress.Drains`: that the function an item carries comes to an end is taken for granted.
- `OutputFlushes.LetGo`: the same of the sink, whose puts and flushes succeed there; what happens when one fails is in the runs.
- Whether `try_enter_interrupt_mode` of pollers other than the queues' and the signals' succeeds is left open, as is what `epoll_pwait` returns for.
- File offsets stay below 2^63, and results of system calls are parameters; checks that the port turned into unconditional `throw(...)` are taken as the conditions they replaced.
- `AppendFiles.CommittedOnDisk`: the file on disk changes when the result of an operation comes in; that nobody looks at it before that is not modelled.
- Vectored reads and writes, `stat`, and closing the file descriptor.
- `AppendFiles.AppendFile.CloseFile`: `completions` counts how often `_completed` is set; what follows it is `FinishClose`, and a caller who goes on submitting after the close is not covered by that.
- `output_stream::close`, the contents of exceptions, and writes of strings, scattered messages and temporary buffers, which go through the two writes modelled.
- `_zc_bufs` is its bytes, with the length that 32 bits keep of them; that `share`, `trim_front` and `append` on fragments are slice, drop and concatenation is shown in `Packets`.
- `OutputStreams.OutputStream.WritePacketBytes`: the assertion on more than 2^16 - 1 fragments, which ends the process, is in `Packets` only.
- `Packets.Packet.Share`: parts of 2^32 bytes and more, for which the 32-bit length of the new packet never gets there and the loop leaves the fragments.
- `Packets.Packet.AllocateIfNeeded`: what follows a failed assertion is not modelled, the outcome is reported.
- `packet::trim_back`, headers, linearizing, deleter chains, and offload information.
- The value of a result and the text of an exception: a result is a number and a flag. Since `need_preempt()` always answers true in this port, `then` always schedules.
- `get`, `wait` and threads, `then_wrapped` and `finally` beyond what `then` shares with them, and what a continuation computes.
- `PromiseFutures.World.RunThen`: the function that the continuation calls is a parameter, the future that it returns.
- `PromiseFutures.World.AssignPromise`: assigning from a promise that ends with the target, which the source would read after its end.
- `PromiseFutures.World.Abandon`: that an exception nobody is linked to is reported.
- `ChunkedFifos.ChunkedFifo.constructor`: chunk sizes above 2^31; that their full chunks are never seen to be full is `FullIsSeen`.
- `shrink_to_fit`, moving a queue, and pops between `reserve` and the pushes.
- `basic_semaphore`, `expiring_fifo`, `fair_queue`, sockets, HTTP, JSON and logging.
