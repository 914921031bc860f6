# A verified model of the kernel's core algorithms

This project models the parts of the kernel in which a small mistake does lasting damage (page
allocator, heap, page tables, thread lifetimes, page cache, slab caches, calendar, ready queue and
mutex) and proves, for all inputs and all runs, what they are for. `dafny verify dfyconfig.toml` checks
it.

Code that works by changing state is a class whose methods make the same changes in the same order; each
method is proved against a step on a value (`Pool`, `Bins`, `Heap`, `Space`, `Db`, `Cache`, `Mtx`), and
the lemmas about those values are the results. What a step does is stated apart from it as well, field
by field: which queue is changed at which end, which word is written, what stays. Ghost fields hold what
the code knows but does not store, such as the head of the block that each page belongs to.

## What is modelled

**Buddy page allocator** (`Powers`, `BuddyPool`, `BuddyTheorems`, `PageBuddy`, `PageFrameDb`; from
`kern/page-pfdb.c`). Orders and states of frames inside a block go stale; the invariant says that the
blocks partition the region, that only heads carry state, that the queues hold exactly the free heads
and that no two free buddies of one order exist. The main result is the canonical form: the free blocks
are the maximal aligned runs of free pages, so allocation fails exactly when no run exists, and freeing
or unreserving restores queues and counters. The order of the queues is stated too: halves and joined
blocks come last, and requests are served from the front (`HalvesQueued`, `Rejoined`). Any number of
pages and orders. A region is searched by a comparison that asserts, at lines 44-45, that the region
goes on behind the page: the search stops the kernel exactly at the last page of a region
(`PageFrameDb.FrameDb.FindPage`).

**Heap** (`SizeBits`, `LargeBins`, `BinUnlink`, `BestFit`, `TreeBins`, `SmallBins`, `HeapTiling`,
`Malloc`; from `klib/early-malloc.c`). The tree bins are bitwise tries over 64-bit sizes with rings of
equal sizes; the search for the best fit is proved to find a minimum. On top of the bins, boundary tags
tile the segment; allocation fails exactly when nothing fits and otherwise uses the chunk that the order
of preference in the comment at `dlmalloc` selects, the tiling is a function of the chunks that callers
hold, and what is left of a split chunk, or joined by a release, goes where the code puts it
(`RestGoes`, `Merged`).

**Sv39 page tables** (`Sv39`, `AddressSpace`, `PageTable`, `PageRanges`; from `hal/riscv64/rv64-pgtbl.c`
and `include/hal-riscv64/rv64-pgtbl.h`; the format is that of the RISC-V Privileged Architecture manual,
version 1.10, sections 4.3.2 and 4.4). Lookup, mapping and unmapping refine lookup, insertion and
deletion on a finite map of pages of 4 KiB, 2 MiB and 1 GiB. The words in memory are given by their bits
and numbers (`Sv39.LeafBits`, `TableBits`, `PageWord`). Use counts, the page statistic and the shape of
the tree are kept, and pages are conserved: every call leaves the same pages, free ones and tables (lost
ones included) together. Removal does not always give back every table: `remove_table_reference` leaves
its loop before it releases the emptied lower table when the table above has other entries (lines
273-274). The exact condition is the predicate `PageTable.Loses`, and `PageRanges.LosesForExample`
builds an address space that loses a table. When there is no page for a table, the clean-up at lines
459-460 walks into an entry that is not valid and stops the kernel, so the caller never sees ENOMEM;
this outcome is the status `Stuck`. It comes about exactly when more tables are missing on the way than
pages are free (`Missing`, and `Need` for a range), and `PageRanges.StuckForExample` shows it. Two more
outcomes have a status: a larger page over the address is followed as if it were a table (lines
334-342), `Astray`, exactly when one covers the address; and an entry that grants no access is read as a
reference to a table, `Hollow`.

**Thread lifetimes** (`Threads`, `ThreadRuns`, `ThreadLife`; from `kern/thr-thread.c`). The references
of every thread are its own one, its place in a queue of children, the threads that name it as their
parent and have not told it of their death, and those held by running code. Hence a parent that is named
is never freed, what is freed is dead and unreferenced, and nothing is freed twice, in every run of any
number of threads. Dead children are not always collected: a thread that exits hands on its living
children only (lines 406-440), and those that wait with it already are in a queue that nobody reads any
more. A dead thread is `Stranded` when it waits with no thread that has not begun to exit; this happens
exactly if a thread begins to exit while dead children wait with it, or dies below a parent that has
begun to exit (`ThreadRuns.KeepsNoneStrandedIff`, `NoneStrandedIff`), it is for good
(`StrandedForever`), and `ThreadLife.ExitStrandsChild` builds a case. Creation under a reserved
identifier does not mark it as used, and a death clears the mark that it had; so an identifier in the
tree may be given out again, and the entry of the new thread stops the kernel (line 192). `Clashes` is
the exact condition, `ThreadLife.ReservedTaken` and `ReservedUnmarked` are two runs that meet it.

**Page cache** (`PageCache`, `PageCacheOps`; from `kern/dev-pcache.c` and `fs/dev-fsimg.c`). A state
machine over the sections that run under the locks; every interleaving of every number of threads is a
run. After any run a lookup of a free cached block ends with the block locked (`PageCache.LookupGets`).
The only device driver addresses one image by the offset of the block and does not look at the device
(lines 24-36 of `fs/dev-fsimg.c`). A reader sees what was written last, and what is not dirty is saved,
exactly for blocks of which no two lie at one offset of different devices
(`PageCache.ContentsRightIff`); `PageCache.TwoDevices` is a run in which they do. The test at lines
29-31 of that file asks for an address before the start of the image and behind its end at once, so that
it never holds: offsets behind the end are served too.

**Slab caches** (`SlabLayout`, `SlabCache`, `SlabOps`; from `kern/page-slab.c`). Layout arithmetic, the
three queues by fill level with the ends at which slabs enter, free lists in their order, and the way
from an object back to its control record.

**Calendar** (`Calendar`, `EpochTime`; from `klib/epoch_time.c`). Both conversions, against the
proleptic Gregorian calendar and the formula of section 4.16 of IEEE Std 1003.1-2017, Base Definitions,
which is shown to hold of every broken-down time once its months are carried (`Calendar.SecsFormula`,
`CarryLaws`). For the years 1902 to 1967 that are no multiple of four the code counts a day too many,
because line 414 divides a negative number towards zero; the round trip is proved to hold exactly
outside these years, and `EpochTime.MisroundedForExample` shows one of them.

**Ready queue and bit searches** (`Bitmaps`, `ReadyQueue`; from `klib/bitops.c`, `include/klib/bitops.h`
and `kern/sched-queue.c`), and **mutex** (`MutexProtocol`; from `kern/mutex.c` and `kern/wqueue.c`):
bits agree with queues, the next thread is the oldest of the best priority, and no wake-up is lost in
any run. After an unlock whoever tries next has the mutex, and a thread that waits can always get it
(`MutexProtocol.UnlockThenLock`, `WaiterCanHold`). `Queues` holds removal from a queue, which several of
them share.

## How state is represented

- Queues are sequences; red-black and splay trees are maps.
- State flags of page frames are booleans; the maps of marked bins, small bins and used identifiers
  are sets of bit numbers. The bit maps that are searched (`Bitmaps`) are sequences of words of 16, 32
  or 64 bits.
- Sections under one lock are one step; interrupts, locks and caches of the processor have no state.
- Sizes in the heap are 64-bit: differences and shifts wrap where the code relies on it. Calendar
  values and counters are mathematical integers.

## What callers must grant

- Reserving a page: the page is free and heads its block, which `BuddyTheorems.ReserveCountsIff` shows
  to be exactly what the code needs; for a range, this of the first page.
- Unmapping: the address is mapped.
- Registering a region: its page frames are in no other region.
- Threads: only threads that are alive create and exit.
- Releasing memory: the chunk was handed out and not released. Unlocking: by the holder.
- Giving a page back and writing it: by the thread that has it locked.

## Model

| member | source | states |
|---|---|---|
| Powers.HalfOfParent | kern/page-pfdb.c:382-419 | clearing the next address bit gives the block or its buddy, the two tile the parent block, and flipping the bit leads from one to the other |
| Powers.AlignedIs | kern/page-pfdb.c:382-419 | a page is aligned for an order exactly when its index is a multiple of the size of the block |
| BuddyPool.BuddyIsHead | kern/page-pfdb.c:381-410 | in a sound pool the buddy index that the release loop looks at, when inside the array, is always the first page of its block, so a stale order or state of a non-head frame is never read |
| BuddyPool.Unlink | kern/page-pfdb.c:409-410 | unlinking from a queue keeps it free of duplicates, drops that page only, and does nothing for a page that is not queued |
| BuddyPool.SplitKeeps | kern/page-pfdb.c:285-301 | one turn of the splitting loop keeps the whole pool invariant (partition, exact queues, no free buddies, uses, cluster marks) and frees exactly the upper half |
| BuddyPool.DetachKeeps | kern/page-pfdb.c:480-485 | taking a free block out of its queue keeps the invariant, and the block's pages are no longer free |
| BuddyPool.MergeKeeps | kern/page-pfdb.c:362-421 | one turn of the joining loop keeps the invariant; the buddy was in the queue of that order; the pages free or in transit are the same |
| BuddyPool.DepositKeeps | kern/page-pfdb.c:436-442 | queueing the block once it can be joined no further keeps the invariant, coalescing included, and frees exactly its pages |
| BuddyPool.HandOutKeeps | kern/page-pfdb.c:493-499 | marking the block used keeps the invariant, cluster marks of every page included |
| BuddyPool.ReserveKeeps | kern/page-pfdb.c:569-575 | marking a single page reserved keeps the invariant |
| BuddyPool.ReleaseKeeps | kern/page-pfdb.c:356-359 | clearing the state of a used block or reserved page leaves a sound pool with that block in transit |
| BuddyTheorems.RunInsideBlock | kern/page-pfdb.c:362-442 | in a pool at rest every naturally aligned run of free pages lies inside one free block |
| BuddyTheorems.FreeBlocksAreMaximalRuns | kern/page-pfdb.c:362-442 | a block is in the queue of its order exactly when it is a maximal aligned run of free pages |
| BuddyTheorems.SamePagesSameBlocks | kern/page-pfdb.c:285-301 | canonical form: two pools of one size with the same free pages have the same blocks in every queue, whatever their histories |
| BuddyTheorems.SearchIsComplete | kern/page-pfdb.c:476-507 | some queue from order k up is non-empty exactly when an aligned run of 2^k free pages exists |
| BuddyTheorems.AvailableIsFreePlusUsed | kern/page-pfdb.c:676-688 | the free pages counted by queue plus the pages of each usage equal the available pages |
| BuddyTheorems.SamePagesSameBooks | kern/page-pfdb.c:98-218 | pools with the same free pages and usage counters have the same queues as multisets and the same counters |
| BuddyTheorems.ReserveCountsIff | kern/page-pfdb.c:550-561 | marking a page of a free block reserved leaves queues and free counts in agreement if and only if the page heads its block |
| BuddyTheorems.ReserveInsideBlockMiscounts | kern/page-pfdb.c:550-561 | a sound pool in which marking an inner page of a free block makes a free count wrong |
| BuddyTheorems.HalvesKeepAgreement | kern/page-pfdb.c:285-301 | the splitting loop adds each half to its queue and its count together |
| PageBuddy.PagePool.AdjustPageOrder | kern/page-pfdb.c:263-313 | in place: the block in transit ends at the requested order and the rest of it is free, the upper half of each order last in its queue; no other queue and no other live frame changes |
| PageBuddy.PagePool.SetupClusteredPages | kern/page-pfdb.c:225-240 | every page of the block points at its head; a single page is unmarked; no other frame changes |
| PageBuddy.PagePool.ClearClusteredPages | kern/page-pfdb.c:247-256 | the marks are off on every page of the block and nowhere else changed |
| PageBuddy.PagePool.EnqueuePageToBuddyPool | kern/page-pfdb.c:321-445 | releasing a block: exactly its pages become free, its usage counter loses them, the pool is coalesced again, no other live frame changes; one block leaves each queue from its order up to that of the result, the others there keep their order, and the result is last in its queue |
| PageBuddy.PagePool.Coalesce | kern/page-pfdb.c:362-421 | the joining loop ends with a block that cannot be joined further and holds the one released; free pages and pages in transit are conserved, and one block has left each queue on the way |
| PageBuddy.PagePool.QueuePage | kern/page-pfdb.c:423-442 | the joined block is last in the queue of its order, the other queues stay, and its pages are free |
| PageBuddy.PagePool.DequeuePage | kern/page-pfdb.c:458-511 | allocation fails with ENOMEM exactly when no aligned run of 2^order free pages exists; otherwise exactly one such run leaves the free pages, from the front of the first queue that is not empty, and becomes a used block with its use, count and order; the upper halves cut off are last in their queues, and nothing else in the queues changes; an order out of range is EINVAL; on failure nothing changes |
| PageBuddy.PagePool.HandOutPage | kern/page-pfdb.c:487-502 | the block taken from its queue is cut down and handed out, the rest goes back |
| PageBuddy.PagePool.IncPageUseCount | kern/page-pfdb.c:1231-1236 | a page not in use cannot be referenced; otherwise its count grows by one and nothing else changes |
| PageBuddy.PagePool.DecPageUseCount | kern/page-pfdb.c:1245-1268 | the last reference, and only it, frees the block |
| PageBuddy.PagePool.MarkPageReserved | kern/page-pfdb.c:547-575 | in its region: a page that heads a free block is reserved on its own, the rest of its block is free and queued half by half, available pages drop by one |
| PageBuddy.PagePool.UnmarkPageReserved | kern/page-pfdb.c:619-645 | in its region: a reserved page becomes free and available; any other page is refused and nothing changes |
| PageBuddy.PagePool.MarkRangeReserved | kern/page-pfdb.c:950-970 | if the first page heads a free block and the range is free, the ascending loop meets a head at every step and reserves exactly the range |
| PageBuddy.PagePool.UnmarkRangeReserved | kern/page-pfdb.c:978-998 | a reserved range becomes free again, page by page |
| PageBuddy.PagePool.CheckRemovable | kern/page-pfdb.c:676-688 | the sum over the queues finds a region busy exactly when some block is in use |
| PageBuddy.PagePool.constructor | kern/page-pfdb.c:796-883 | a new region: the pages before the frame array are free and coalesced, the others reserved, counters right |
| PageBuddy.PagePool.ReleaseManaged | kern/page-pfdb.c:848-883 | the release loop frees exactly the managed pages |
| PageBuddy.DequeueThenFree | kern/page-pfdb.c:1245-1268 | allocating a block and dropping its only reference restores every queue as a multiset and every counter |
| PageBuddy.ReserveThenUnreserve | kern/page-pfdb.c:978-998 | reserving a free range and releasing it restores every queue as a multiset and every counter |
| PageFrameDb.FrameDb.AskRegion | kern/page-pfdb.c:458-511 | one region is asked and the others keep frames, queues and counters |
| PageFrameDb.FrameDb.BuddyDequeue | kern/page-pfdb.c:725-755 | a request fails with ENOMEM exactly when no region has a large enough run; otherwise the first such region in order serves it and no other region changes |
| PageFrameDb.FrameDb.constructor | kern/page-pfdb.c:20-25 | a database without regions is sound |
| PageFrameDb.FrameDb.PlaceFor | kern/page-pfdb.c:35-48 | the place of a new region keeps the order of the tree, from high page frame numbers to low ones |
| PageFrameDb.FrameDb.AddRegion | kern/page-pfdb.c:764-902 | a region apart from those registered enters at its place, with exactly its managed pages free, and the others stay |
| PageFrameDb.FrameDb.RemoveRegion | kern/page-pfdb.c:663-709 | a registered region leaves the database, unless some block of it is in use, and then nothing changes |
| PageFrameDb.FrameDb.FindPage | kern/page-pfdb.c:58-93 | whatever shape the tree has, the search for a page frame number fails exactly outside all regions, stops the kernel exactly at the last page of a region, and else yields its region and index |
| PageFrameDb.FrameDb.UnmarkPage | kern/page-pfdb.c:591-653 | with that search: a reserved page is freed, any other one of a region is refused, and no other region changes |
| SizeBits.IndexPrefix | klib/early-malloc.c:2878-2894 | a size lies in the bin whose bit prefix it has: the bin index, the prefix and the width of a bin agree |
| SizeBits.IndexMonotone | klib/early-malloc.c:2878-2894 | a larger size never has a lower bin index |
| SizeBits.TreeRange | klib/early-malloc.c:3300-3308 | the bin of a large size is the one whose least size it reaches without reaching that of the next bin, as the checks of a tree assert |
| SizeBits.TopBitOfShift | klib/early-malloc.c:2902-2904 | the top bit of a size shifted to the left is the bit that decides the next turn in the tree |
| LargeBins.HeadNonNull | klib/early-malloc.c:3298-3346 | a place of a tree is empty exactly when the link to it is null; else its chunk has the size, bin, parent and kids of that place |
| LargeBins.KidsInOrder | klib/early-malloc.c:3339-3341 | of two kids the left one is smaller, as the checks of a tree assert |
| LargeBins.AddRootKeeps | klib/early-malloc.c:3652-3657 | the first chunk of a bin: sizes stay on their bit paths, links mutual, map bits exact, sizes unique; one chunk more |
| LargeBins.AddLeafKeeps | klib/early-malloc.c:3662-3671 | a chunk hung below a tree node keeps the same invariant; one chunk more |
| LargeBins.AddToRingKeeps | klib/early-malloc.c:3678-3686 | a chunk of a size held already enters that ring; the invariant holds; one chunk more |
| LargeBins.DropLeafKeeps | klib/early-malloc.c:3729-3737 | taking a leaf out of its tree keeps the invariant |
| LargeBins.ReplaceKeeps | klib/early-malloc.c:3743-3780 | a ring with a size of the same path can take the place of another in the tree: parent, kids, root and map stay right |
| BinUnlink.CutKeeps | klib/early-malloc.c:3716-3722 | a chunk chained to others of its size is bridged over, the next one takes its tree links if it had any, and the invariant holds |
| BinUnlink.LeafInPlaceKeeps | klib/early-malloc.c:3727-3742 | a leaf from below may take the place of the only chunk of a size |
| BinUnlink.RelinkIsRenaming | klib/early-malloc.c:3743-3781 | moving parent and kid links over to the replacement is the same as renaming the chunk in every link to it |
| BestFit.WalkStep | klib/early-malloc.c:4441-4458 | one turn of the first walk: every chunk not covered yet that fits is still in the subtree walked or in the deepest untaken right subtree |
| BestFit.LeftStep | klib/early-malloc.c:4470-4477 | one turn of the leftmost walk: the smallest chunk is on the way |
| BestFit.NextBin | klib/early-malloc.c:4460-4468 | when the bin of the request has nothing, the least marked bin above it holds the smallest sizes that fit |
| TreeBins.TreeHeap.constructor | klib/early-malloc.c:3908-3915 | empty trees satisfy the invariant |
| TreeBins.TreeHeap.Insert | klib/early-malloc.c:3645-3694 | the chunks held are those before and the new one, which comes behind the first of its size; the trie invariant holds and no other ring changes |
| TreeBins.TreeHeap.Unlink | klib/early-malloc.c:3713-3782 | the chunks held are those before without the one removed; the others of its size stay in their ring order, the last one first where the first went; the trie invariant holds |
| TreeBins.TreeHeap.UnlinkChained | klib/early-malloc.c:3716-3726 | the same for a chunk that shares its size with others |
| TreeBins.TreeHeap.UnlinkLone | klib/early-malloc.c:3727-3742 | the same for the only chunk of its size, whose place the last leaf below takes, to the right wherever possible |
| TreeBins.TreeHeap.RelinkHead | klib/early-malloc.c:3743-3781 | exactly the links that named the chunk name its replacement; the map bit goes when the bin is empty |
| TreeBins.TreeHeap.WalkBin | klib/early-malloc.c:4436-4459 | the first walk ends with the best chunk on the path and the start of the second walk, which together cover every chunk that fits in that bin |
| TreeBins.TreeHeap.WalkLeft | klib/early-malloc.c:4470-4477 | the second walk ends with a best chunk of all |
| TreeBins.TreeHeap.FindLarge | klib/early-malloc.c:4431-4477 | the search yields null exactly when no tree chunk is large enough, and otherwise a chunk that no other fitting one is smaller than, the first of its size |
| TreeBins.TreeHeap.FindSmall | klib/early-malloc.c:4502-4517 | the search of a small request yields a smallest tree chunk, the first of its size |
| TreeBins.NoLeast | klib/early-malloc.c:2921-2933 | if no marked bin is the least one above an index, none above it is marked, so that isolating the lowest bit of the rest finds a bin whenever there is one |
| HeapTiling.Ordered | klib/early-malloc.c:3420-3448 | chunks of the segment do not overlap |
| HeapTiling.Tiled | klib/early-malloc.c:3420-3448 | each byte of the segment lies in exactly one chunk |
| HeapTiling.LiveApart | klib/early-malloc.c:3284-3295 | chunks handed out are disjoint and inside the segment |
| HeapTiling.SameLiveSameTiling | klib/early-malloc.c:3261-3281 | canonical form: two sound heaps on one segment with the same chunks handed out have the same tiling and the same top |
| HeapTiling.TakeWholeKeeps | klib/early-malloc.c:3079-3082 | handing out a whole free chunk keeps tags, foot fields, tiling and separation of free chunks |
| HeapTiling.TakePartKeeps | klib/early-malloc.c:4654-4662 | handing out the low end of a free chunk keeps the same invariant |
| HeapTiling.FuseKeeps | klib/early-malloc.c:4710-4757 | joining a run of chunks into one free chunk keeps the invariant, and only chunks in the run are gone |
| HeapTiling.FreeKeeps | klib/early-malloc.c:4679-4786 | the run that a release joins (free neighbours, dv and top included) leaves no two adjacent free chunks |
| HeapTiling.CallersMayWrite | klib/early-malloc.c:3216-3219 | no tag or foot field that the allocator relies on lies in the bytes a caller was given |
| HeapTiling.NewHeapInv | klib/early-malloc.c:3893-3905 | a segment that is all top satisfies the invariant |
| SmallBins.AddSmall | klib/early-malloc.c:3567-3583 | a chunk enters the bin of its size; bins and map hold exactly the small chunks |
| SmallBins.DropSmall | klib/early-malloc.c:3586-3627 | a chunk leaves its bin, and the map bit is cleared exactly when the bin is empty |
| Malloc.ChunkSizeFor | klib/early-malloc.c:2224-2233 | the padded size is the least multiple of 16 that holds the request and its overhead, and at least a minimum chunk; small exactly when the request is small; out of range it is larger than any chunk |
| Malloc.Arena.constructor | klib/early-malloc.c:3893-3915 | a fresh arena is all top, from the first aligned chunk address to the end of the segment, and nothing is handed out |
| Malloc.Arena.InsertChunk | klib/early-malloc.c:3786-3788 | a free chunk comes first in the small bin of its size, or behind the first of its size in the trees |
| Malloc.Arena.UnlinkChunk | klib/early-malloc.c:3790-3792 | a free chunk leaves the small bin or ring it is in, and the others keep their order |
| Malloc.Arena.UnlinkFirst | klib/early-malloc.c:3612-3627 | the first chunk of a marked bin has the size of the bin and leaves it; the other bins stay |
| Malloc.Arena.ReplaceDv | klib/early-malloc.c:3631-3640 | the old dv chunk goes to its small bin and the new one takes its place |
| Malloc.Arena.TmallocLarge | klib/early-malloc.c:4431-4499 | the chunk used is the smallest binned one that fits and fits better than dv; a rest that makes a chunk goes to the bins and dv stays; it gives up only if dv fits at least as well as every fitting chunk, or none fits |
| Malloc.Arena.TmallocSmall | klib/early-malloc.c:4502-4537 | a small request is served from a smallest tree chunk; a rest that makes a chunk becomes dv and the old dv goes to the bins, with no rest dv stays; it cannot fail when the trees are not empty |
| Malloc.Arena.FromSmallBins | klib/early-malloc.c:4576-4617 | served from the front of the bin of the size, of the next one, or of the least marked one above when dv is too small; a rest that makes a chunk becomes dv; otherwise no small bin could serve it |
| Malloc.Arena.FromDv | klib/early-malloc.c:4635-4653 | dv is split and starts behind what is handed out, or given out whole when the rest would be too small; bins and top stay |
| Malloc.Arena.FromTop | klib/early-malloc.c:4655-4665 | the low end of top is given out and top shrinks; bins and dv stay |
| Malloc.Arena.SmallRequest | klib/early-malloc.c:4576-4623 | a small request takes a chunk of just the size, or when dv is too small the smallest binned chunk that fits; otherwise nothing in the bins comes before dv |
| Malloc.Arena.LargeRequest | klib/early-malloc.c:4628-4632 | a large request takes the smallest binned chunk that fits when it is smaller than dv; otherwise nothing in the bins comes before dv |
| Malloc.Arena.FromDvOrTop | klib/early-malloc.c:4635-4667 | dv if it fits, else top if it is larger than the request, else failure, which means that nothing fits |
| Malloc.Arena.Malloc | klib/early-malloc.c:4541-4675 | an allocation fails exactly when no free chunk, dv or top can serve the padded request; else exactly one new chunk is handed out, of a size in [nb, nb + minimum), all others stay, the chunk was the one that the documented order of preference among bins, dv and top selects, and what is left of it goes where it should: to top from top, to dv from dv, and from the bins to dv for a small request and to the bins for a large one |
| Malloc.Arena.MergeForward | klib/early-malloc.c:4729-4773 | the forward half of a release ends in a sound heap in which just that chunk is no longer handed out, and the run joined is top, dv or in the bins |
| Malloc.Arena.Free | klib/early-malloc.c:4679-4786 | a release takes exactly that chunk from those handed out and leaves a sound, coalesced heap with matching bins; the run joined becomes top if it reaches top, else dv if it has swallowed dv, else it goes to the bins, and the bins lose just the neighbours; releasing null does nothing |
| Malloc.MallocThenFree | klib/early-malloc.c:4679-4786 | allocating and releasing restores the tiling and top, however the chunk was carved and merged |
| Malloc.RestToDvGoes | klib/early-malloc.c:4524-4530 | in the heap left by a split for a small request the rest is dv, and the old dv is binned |
| Malloc.RestToBinsGoes | klib/early-malloc.c:4486-4492 | in the heap left by a split for a large request the rest is binned, and dv stays |
| Malloc.RunIsPlaced | klib/early-malloc.c:4729-4773 | in the heap left by a release the run joined is top, dv or binned, with just its neighbours out of the bins |
| Sv39.LeafRoundTrip | hal/riscv64/rv64-pgtbl.c:73-138 | an entry encoded from protection, flags and address decodes to the same, reads as a page entry exactly when some access is allowed, and is the word of the format |
| Sv39.TableRoundTrip | hal/riscv64/rv64-pgtbl.c:375-379 | an entry for a lower table is valid, is no page entry, gives back the table address, and is the word of the format |
| Sv39.LeafBits | hal/riscv64/rv64-pgtbl.c:107-138 | bit by bit, the word for a page: V set, R, W and X as granted, U exactly for pages that are not the supervisor's, G clear, A and D as flagged, and the page number from bit 10 on |
| Sv39.TableBits | hal/riscv64/rv64-pgtbl.c:375-379 | bit by bit, the word for a table: V, A and D set, R, W, X, U and G clear, and the page number |
| Sv39.DecodeIs | hal/riscv64/rv64-pgtbl.c:73-105 | what any word reads as: validity, page or table, protection, flags and address from its bits |
| Sv39.IndexIs | include/hal-riscv64/rv64-pgtbl.h:60-81 | the three indexes of an address are its bits 30 to 38, 21 to 29 and 12 to 20 |
| AddressSpace.CoversBytes | hal/riscv64/rv64-pgtbl.c:155-209 | a page of a level covers the 4 KiB, 2 MiB or 1 GiB from its number times that size on |
| AddressSpace.WalkFinds | hal/riscv64/rv64-pgtbl.c:155-209 | where a walk stops, the page that covers the address is the one in the entry, if there is one |
| AddressSpace.LeadsToPage | hal/riscv64/rv64-pgtbl.c:217-294 | under a table with a valid entry some page is mapped, so tables that are kept are not empty |
| AddressSpace.AddLeafKeeps | hal/riscv64/rv64-pgtbl.c:347-362 | writing a page entry and counting it keeps the shape of the tables and adds exactly that page |
| AddressSpace.ClearLeafKeeps | hal/riscv64/rv64-pgtbl.c:262-272 | clearing a page entry keeps the shape, but for its table which may be empty now, and removes exactly that page |
| AddressSpace.AddTableKeeps | hal/riscv64/rv64-pgtbl.c:364-381 | hanging a new empty table keeps the shape but for that table, and no page changes |
| AddressSpace.CutTableKeeps | hal/riscv64/rv64-pgtbl.c:258-293 | clearing the entry for an empty table keeps the shape; no page changes and the table hangs on no other |
| AddressSpace.ReclaimKeeps | hal/riscv64/rv64-pgtbl.c:288-291 | the table given up goes back to the allocator and the statistic drops by one |
| AddressSpace.TableShape | hal/riscv64/rv64-pgtbl.c:217-381 | in every sound space each table has one use more than valid entries, each but the root is not empty and is referred to from the table above, entries refer to tables and not to pages given back, no two places share a table, and the page statistic is the number of tables reachable plus those lost |
| PageTable.AddressMap.constructor | kern/vm-pgtbl.c:64-102 | a new page table has one table and maps nothing |
| PageTable.AddressMap.Extract | hal/riscv64/rv64-pgtbl.c:514-554 | lookup finds the page that covers the address, with address, protection, flags and size, and ENOENT exactly when no page covers it |
| PageTable.AddressMap.GrowLeaf | hal/riscv64/rv64-pgtbl.c:326-362 | at the level of the page: EBUSY exactly when the entry is in use; else exactly that page is mapped and the entry is the word for it, no other word having changed, unless the entry grants no access: then nothing is mapped, and the entry refers to the frame as if a table stood there |
| PageTable.AddressMap.GrowTable | hal/riscv64/rv64-pgtbl.c:332-388 | above that level: the next table on the way, made exactly when it is missing and a page is free; it fails exactly when it is missing and no page is free; a page mapped there is taken for a table |
| PageTable.AddressMap.HangTable | hal/riscv64/rv64-pgtbl.c:366-381 | a new empty table is entered in the one above, by the word for a table and with no other word changed, and all pages stay mapped |
| PageTable.AddressMap.GrowWay | hal/riscv64/rv64-pgtbl.c:435-446 | the tables on the way: the walk goes astray exactly when a larger page covers the address, and nothing has changed then; it sticks only when more tables are missing than pages are free |
| PageTable.AddressMap.Map | hal/riscv64/rv64-pgtbl.c:411-466 | mapping one page, for every address, frame and protection: EINVAL exactly for misaligned addresses; astray exactly when a larger page covers the address; EBUSY exactly when a mapped page meets it otherwise; the kernel stops exactly when more tables are missing on the way than pages are free; with no access granted nothing is mapped and a reference to no table is left; else the finite map gains exactly that page, its entry in memory is the word for it, exactly the missing tables are made, and as many free pages go; pages free and in use are conserved |
| PageTable.NoneLeft | hal/riscv64/rv64-pgtbl.c:457-460 | where no page is left for the next table, more tables were missing than there were free pages, the page could have been mapped otherwise, and the clean-up walks into an invalid entry |
| PageTable.AddressMap.Descend | hal/riscv64/rv64-pgtbl.c:231-254 | the tables on the way to a mapped address |
| PageTable.AddressMap.DropUse | kern/page-pfdb.c:1245-1268 | the last use of a table page frees it |
| PageTable.AddressMap.GiveUpTables | hal/riscv64/rv64-pgtbl.c:256-293 | above an emptied table the loop leaves a sound space; one table is lost exactly under the condition of Loses |
| PageTable.AddressMap.Unmap | hal/riscv64/rv64-pgtbl.c:217-294 | removing a mapped page deletes exactly it; a table is lost if and only if the table of the page becomes empty and the address space does not; pages free and in use are conserved |
| PageTable.MeetsIff | hal/riscv64/rv64-pgtbl.c:334-341 | the entry found in use means exactly that a page at or below it is mapped |
| PageTable.OnePage | hal/riscv64/rv64-pgtbl.c:529-538 | one page at most covers an address |
| PageRanges.LevelFor | hal/riscv64/rv64-pgtbl.c:642-667 | the page size chosen is the largest to which both ends of both ranges are aligned, or the smallest there is |
| PageRanges.LevelForIs | hal/riscv64/rv64-pgtbl.c:642-667 | in bytes: 1 GiB exactly when all four ends are multiples of it, else 2 MiB exactly when all are multiples of that |
| PageRanges.MappedIs | hal/riscv64/rv64-pgtbl.c:671-678 | the pages of a range lead one after the other to consecutive memory with the same protection and flags, and the other pages are as they were |
| PageRanges.Enter | hal/riscv64/rv64-pgtbl.c:625-681 | a range is mapped page by page to consecutive memory, up to the first page that something stops; the outcome and the number of pages mapped are determined by the pages there, the tables missing and the number of free pages; it succeeds exactly when every page of the range is clear, no more tables are missing than pages are free, and access is granted, and then the statistic grows by the tables missing |
| PageRanges.OneEnd | hal/riscv64/rv64-pgtbl.c:671-678 | a range can end in one way only, after one number of pages |
| PageRanges.NeedNext | hal/riscv64/rv64-pgtbl.c:671-678 | each page of a range makes exactly the tables that it misses when its turn comes, so that the need of a range is the number of different tables missing |
| PageRanges.NeedBound | hal/riscv64/rv64-pgtbl.c:671-678 | a range never needs more tables than there are table numbers, level by level, between its first and last page |
| PageRanges.GigabyteNeeds | hal/riscv64/rv64-pgtbl.c:671-678 | an aligned range of 1 GiB in pages of 4 KiB needs at most 513 tables |
| PageRanges.Remove | hal/riscv64/rv64-pgtbl.c:568-609 | a range made up of mapped pages of any sizes is unmapped, and nothing else is; misaligned ranges change nothing |
| PageRanges.MapThenUnmap | hal/riscv64/rv64-pgtbl.c:568-609 | mapping a page and unmapping it restores the finite map; a table is lost exactly under the same condition; all other outcomes exactly as for mapping |
| PageRanges.LosesForExample | hal/riscv64/rv64-pgtbl.c:273-274 | a new address space in which a large page is mapped and then a small page elsewhere mapped and unmapped: a table is lost |
| PageRanges.StuckForExample | hal/riscv64/rv64-pgtbl.c:457-460 | in a new address space whose only page was that of its root, mapping a page stops the kernel |
| PageRanges.AstrayForExample | hal/riscv64/rv64-pgtbl.c:334-342 | with a large page mapped, mapping a small one inside it takes the frame of the large one for a table |
| Threads.ReferencedIsAlive | kern/thr-thread.c:636-681 | a thread that is held, queued as a child, not yet exited, or named as parent by one that is not dead, is in the tree with references and not dead |
| Threads.DeadIsUnreferenced | kern/thr-thread.c:318-325 | a dead thread has no references, is out of the tree, in no queue of children, held by nobody and named by none that is not dead |
| Threads.HoldKeeps | kern/thr-thread.c:636-642 | taking a reference keeps the counting invariant: references are the own one, the queue, the children that still name the thread and those held |
| Threads.DropKeeps | kern/thr-thread.c:651-681 | giving back a reference that is not the last keeps it |
| Threads.LinkKeeps | kern/thr-thread.c:221-268 | entering the queue of a parent keeps it, with one reference to the child and one to the parent |
| Threads.UnlinkKeeps | kern/thr-thread.c:281-312 | leaving the queue keeps it, while the child still counts for its parent |
| Threads.DetachKeeps | kern/thr-thread.c:427-432 | a child that names its parent no more keeps it |
| Threads.BeginExitKeeps | kern/thr-thread.c:541-545 | a thread without children and out of the queue may begin to exit |
| Threads.LastHolder | kern/thr-thread.c:659-675 | whoever gives back the last reference gives back that of an exited thread, in the tree, with a living parent to tell |
| Threads.LastKeeps | kern/thr-thread.c:351-371 | death and the notice to the parent keep the invariant, and the reference to the parent is still there to give back |
| Threads.FreeKeeps | kern/thr-thread.c:484-507 | collecting a dead thread keeps it: nothing refers to the memory given back |
| Threads.NewKeeps | kern/thr-thread.c:171-192 | a new thread under an unused identifier keeps it |
| ThreadLife.NamedBy | kern/thr-thread.c:351-371 | the parent of a thread that is not dead exists and has a reference more than those held |
| ThreadLife.ThreadDb.constructor | kern/thr-thread.c:802-840 | the database with the collecting thread as its own parent, and the reserved identifiers marked, is sound |
| ThreadLife.ThreadDb.RefInc | kern/thr-thread.c:636-642 | a reference is had exactly when the count is positive: the count grows by one, and nothing else changes |
| ThreadLife.ThreadDb.RefDec | kern/thr-thread.c:651-681 | the last reference, and only it, takes the thread out of the tree, frees its identifier and puts it last among the dead children of its parent, and so on upwards through exiting ancestors; exactly the identifiers of those that die are free afterwards |
| ThreadLife.ThreadDb.NotifyParent | kern/thr-thread.c:351-371 | the thread is dead and waits behind the other dead children of its parent |
| ThreadLife.ThreadDb.AddChild | kern/thr-thread.c:221-268 | the counts taken and given back on the way leave just the link: the child is last in the queue and names the parent, and both have a reference more |
| ThreadLife.ThreadDb.DelChild | kern/thr-thread.c:281-312 | the counts taken and given back on the way leave just the link undone: the other children keep their order, and the child has a reference less |
| ThreadLife.ThreadDb.AdoptChild | kern/thr-thread.c:413-440 | one turn of the orphan loop moves one child to the collecting thread and leaves all other links |
| ThreadLife.ThreadDb.HandleOrphans | kern/thr-thread.c:380-447 | all children move to the collecting thread in order; identifiers, tree and held references stay |
| ThreadLife.ThreadDb.AllocId | kern/thr-thread.c:53-69 | the least free identifier, or failure exactly when there is none |
| ThreadLife.ThreadDb.CreateCommon | kern/thr-thread.c:100-211 | for every identifier asked for: a thread with one reference and no parent under the reserved identifier, or the least free one, which is marked then; failure exactly when none is free changes nothing; the kernel stops exactly when the identifier stands in the tree already |
| ThreadLife.ThreadDb.Create | kern/thr-thread.c:576-612 | the new thread has two references and is the last child of its creator, which has one more; nothing else but tree and mark changes; failure and stop exactly as above |
| ThreadLife.ReservedTaken | kern/thr-thread.c:78-82 | a thread under a reserved identifier exits, an automatic choice takes the identifier, and creation under it stops the kernel |
| ThreadLife.ReservedUnmarked | kern/thr-thread.c:170-192 | the identifier is used again under its number, without a mark, and the next automatic choice stops the kernel |
| ThreadLife.ThreadDb.ExitThread | kern/thr-thread.c:527-559 | exiting gives all children to the collecting thread in order, leaves the parent's queue and gives up the own reference; all other links between threads stay, and the thread is dead at once exactly when nobody holds it and no child names it; it leaves no dead child behind, if there was none before, exactly when none waited with it |
| ThreadLife.ThreadDb.Retire | kern/thr-thread.c:537-547 | the locked part of exiting |
| ThreadLife.ThreadDb.Wait | kern/thr-thread.c:456-519 | sleeps exactly when no child is dead; else the first dead child, without references and out of the tree, is collected, and its identifier returned; nothing else changes but that it has left the queue; its own dead children are in no queue afterwards, and nobody else leaves a queue |
| ThreadLife.ThreadDb.FreeThread | kern/thr-thread.c:318-325 | the memory of the dead thread is given back and it exists no more |
| ThreadLife.ExitStrandsChild | kern/thr-thread.c:527-559 | a thread is created, creates a child, the child exits and then the thread: the child is never collected in any run that follows |
| ThreadRuns.ReleaseGivesBack | kern/thr-thread.c:651-681 | giving back a reference, upwards through all exiting ancestors, keeps to the contract: each thread that dies is last in its parent's queue, and exactly the identifiers of those that die leave the tree |
| ThreadRuns.ReleaseStops | kern/thr-thread.c:659-679 | a death below a thread that has not begun to exit goes no further up |
| ThreadRuns.ApplyKeeps | kern/thr-thread.c:100-681 | every enabled step of every thread keeps the counting invariant |
| ThreadRuns.RunsKeep | kern/thr-thread.c:100-681 | so does every run, in any order |
| ThreadRuns.RunsAreSafe | kern/thr-thread.c:636-681 | after any run from the start, what is held, queued, not exited or named as parent is in the tree with references, and what is dead is referred to by nothing |
| ThreadRuns.FreedOnce | kern/thr-thread.c:484-507 | in any run a thread is freed exactly as often as it was created, less once if it is still there |
| ThreadRuns.ExitStrands | kern/thr-thread.c:541-547 | beginning to exit strands exactly the dead children that wait with the thread |
| ThreadRuns.LastStrands | kern/thr-thread.c:351-371 | a death strands the thread exactly when its parent has begun to exit |
| ThreadRuns.FreeStrands | kern/thr-thread.c:484-507 | collecting a thread strands no other, but exactly its own dead children are in no queue any more |
| ThreadRuns.KeepsNoneStrandedIff | kern/thr-thread.c:406-440 | a step keeps every dead thread waiting with a parent that may still collect it if and only if no thread begins to exit with dead children and none dies below a parent that has begun to exit |
| ThreadRuns.NoneStrandedIff | kern/thr-thread.c:406-440 | after a run no dead thread is stranded if and only if each of its steps met that condition |
| ThreadRuns.StrandedForever | kern/thr-thread.c:456-519 | a stranded thread is collected in no run that follows |
| ThreadRuns.CarefulRuns | kern/thr-thread.c:406-440 | after any run from the start whose steps all met that condition, each dead thread waits with a parent that may still collect it, and no thread that has begun to exit has dead children |
| ThreadRuns.MarkedClashes | kern/thr-thread.c:174-192 | where all identifiers in the tree are marked as used, creation stops the kernel exactly for a reserved identifier that is in the tree |
| ThreadRuns.KeepsMarkedIff | kern/thr-thread.c:174-192 | a step keeps all identifiers in the tree marked if and only if it is no creation under a reserved identifier without a mark |
| ThreadRuns.MarkedRuns | kern/thr-thread.c:53-82 | in a run in which reserved identifiers are used only while marked, no automatic choice ever stops the kernel |
| PageCache.BlockKey | kern/dev-pcache.c:212-214 | the aligned block that holds the offset |
| PageCache.AcquireKeeps | kern/dev-pcache.c:231-250 | locking a free page keeps the invariant of tree, locks, references and LRU queue |
| PageCache.SleepKeeps | kern/dev-pcache.c:166-185 | sleeping on a busy page keeps it |
| PageCache.NewKeeps | kern/dev-pcache.c:268-296 | registering a new page keeps it |
| PageCache.LoadKeeps | kern/dev-pcache.c:128-146 | loading from the image keeps it |
| PageCache.WriteKeeps | kern/dev-pcache.c:514-533 | writing back keeps it, and image and page agree |
| PageCache.ReleaseKeeps | kern/dev-pcache.c:474-483 | giving back the lock keeps it, and no sleeper is left on a free page |
| PageCache.FoundTakes | kern/dev-pcache.c:222-251 | a page found free becomes busy with the thread as its user, leaves the LRU queue and keeps two references, its content to be loaded if invalid; one found busy has the thread last among its sleepers; nothing else changes |
| PageCache.LookupIs | kern/dev-pcache.c:202-254 | so it is for a block that is in the cache; for any other the thread goes on to allocate a page |
| PageCache.RegisterIs | kern/dev-pcache.c:268-296 | the new page is busy, invalid and in the tree, and the thread loads it; a page registered meanwhile is found instead |
| PageCache.GiveUpIs | kern/dev-pcache.c:166-187 | a thread that gives up sleeps on no page any more, and nothing else changes |
| PageCache.ReleaseIs | kern/dev-pcache.c:474-483 | a page given back is not busy, is last in the LRU queue and has no sleepers; its thread is done; nothing else changes |
| PageCache.ApplyKeeps | kern/dev-pcache.c:202-533 | every enabled step of every thread keeps the invariant |
| PageCache.RunsKeep | kern/dev-pcache.c:202-533 | so does every run, with any number of threads and any interleaving |
| PageCache.LookupGets | kern/dev-pcache.c:222-251 | after any run a thread that looks up a free cached block ends with that block locked; one that finds it busy sleeps on it |
| PageCache.PutThenRetry | kern/dev-pcache.c:474-483 | after any run, when a page is given back, each of its sleepers may try again, and the first that does has the page locked |
| PageCache.TruthIsLastWritten | kern/dev-pcache.c:494-507 | what is recorded for a block is what the run wrote to it last |
| PageCache.ApplyAgrees | fs/dev-fsimg.c:24-36 | while no two devices are used at one offset, every step keeps pages, image and last writes in agreement |
| PageCache.RunsAgree | fs/dev-fsimg.c:24-36 | so does every run |
| PageCache.ReaderSeesLastWrite | kern/dev-pcache.c:414-431 | after any run from an empty cache in which no two devices are used at one offset, a thread that has a block locked finds the value last written to it by any thread, or that of the image if none |
| PageCache.OneHolderOnePage | kern/dev-pcache.c:231-296 | after any run at most one thread has a page locked, a block has at most one page, and a page not locked is on the LRU queue with two references and no sleepers |
| PageCache.CleanIsOnDevice | kern/dev-pcache.c:514-533 | after any such run the image holds what was last written to every block that is not dirty in the cache |
| PageCache.ContentsRightIff | fs/dev-fsimg.c:24-36 | for any set of blocks: all runs over them give readers the last write, and save it, if and only if no two of the blocks are at one offset of different devices |
| PageCache.TwoDevices | fs/dev-fsimg.c:24-36 | a run over two devices at one offset in which the second reader finds what was written for the first device |
| PageCacheOps.CachePool.constructor | kern/dev-pcache.c:650-659 | an empty cache over any image satisfies the invariant |
| PageCacheOps.CachePool.Take | kern/dev-pcache.c:222-251 | in place: a page found busy is waited for at the end of its sleepers; else it is busy with the thread as its user, off the LRU queue, with as many references, and to be loaded if invalid; nothing else changes |
| PageCacheOps.CachePool.Find | kern/dev-pcache.c:202-254 | in place: the same for the block searched, and without a page for it the thread goes on to allocate one |
| PageCacheOps.CachePool.Insert | kern/dev-pcache.c:259-296 | in place: the new page is registered busy, invalid and with two references, or given back when another thread was faster, whose page is taken or waited for |
| PageCacheOps.CachePool.Awake | kern/dev-pcache.c:166-187 | in place: the sleeper takes the page or sleeps again |
| PageCacheOps.CachePool.Fill | kern/dev-pcache.c:128-146 | in place: the page is loaded and clean |
| PageCacheOps.CachePool.Strategy | fs/dev-fsimg.c:24-36 | a dirty page is copied to the image at the offset of its block, whatever its device, any other from there; the test for the ends of the image holds for no offset |
| PageCacheOps.CachePool.Change | kern/dev-pcache.c:494-507 | in place: the holder changes the content and marks the page dirty; nothing else changes |
| PageCacheOps.CachePool.Write | kern/dev-pcache.c:514-533 | in place: a dirty page goes to the image at its offset, any other is read from there, and the page is clean; nothing else changes |
| PageCacheOps.CachePool.PutRef | kern/dev-pcache.c:333-346 | the holder's reference is never the last one: there are two, so a put never frees a page |
| PageCacheOps.CachePool.PutPage | kern/dev-pcache.c:474-483 | in place: the page is not busy and last in the LRU queue, its reference is back, its sleepers may try again, and its thread is done |
| PageCacheOps.CachePool.WakeAll | kern/wqueue.c:198-229 | the queue of sleepers is drained |
| SlabLayout.OffSlabOrder | kern/page-slab.c:66-118 | an order is found exactly when some slab holds an object, and it wastes least, or is the first that wastes little enough |
| SlabLayout.CalcSlabSize | kern/page-slab.c:131-261 | the layout fits the slab and fills it (one object more would not fit), on-page exactly for small objects, and else of the best order; it fails exactly for objects too large for the largest slab |
| SlabLayout.ObjectsApart | kern/page-slab.c:297-356 | objects of a slab lie inside it, before the slab record, and apart with the words before them |
| SlabLayout.ObjectsFollow | kern/page-slab.c:500-549 | the objects of a slab follow each other at the distance of the object size, the first behind one word |
| SlabCache.CacheObjectsApart | kern/page-slab.c:449-573 | any two objects of a cache, in whatever slabs, do not overlap |
| SlabCache.PageOfObject | kern/page-slab.c:725-735 | the page of an object leads to the slab it belongs to |
| SlabCache.TakeKeeps | kern/page-slab.c:642-700 | handing out an object keeps queues by fill level, counts, free lists and control records in agreement |
| SlabCache.PutKeeps | kern/page-slab.c:737-796 | taking it back keeps them in agreement |
| SlabCache.TakeIs | kern/page-slab.c:642-700 | from the first free record of a slab: the object is held, the record leaves the list, the count grows; a free slab goes to the end of the partial ones and one without free objects to the end of the full ones; nothing else changes |
| SlabCache.PutIs | kern/page-slab.c:737-796 | the record comes back first in the list and the count drops; a slab with objects in use goes to the end of the partial ones, one without to the end of the free ones; nothing else changes |
| SlabCache.AddKeeps | kern/page-slab.c:449-573 | a new slab keeps them in agreement |
| SlabCache.DropKeeps | kern/page-slab.c:600-613 | giving up a free slab keeps them in agreement |
| SlabOps.KmemCache.constructor | kern/page-slab.c:817-857 | an empty cache over a sound layout is sound, without slabs |
| SlabOps.KmemCache.BuildObjects | kern/page-slab.c:485-549 | the loop over the objects of a new slab: each has its control record, and the list of free ones has the last object first; it fails exactly when control records run out |
| SlabOps.KmemCache.Grow | kern/page-slab.c:449-573 | a new slab with all objects free, the last one first in its list, is first in the free queue, and its pages lead to it; it fails exactly when the pages, the record of the slab or the control records cannot be had, and then nothing is changed |
| SlabOps.KmemCache.Alloc | kern/page-slab.c:633-710 | the first free object of the first slab in use is handed out, else of the first free one, else of a new one, which is then its last object; queues and lists change as for one object taken and in no other way; failure exactly when a new slab is needed and cannot be made |
| SlabOps.KmemCache.TakeObj | kern/page-slab.c:287-358 | the object handed out is that of the first free control record |
| SlabOps.KmemCache.Free | kern/page-slab.c:717-799 | exactly that object is no longer held, and the control record it came from is found again and comes first in the list of its slab, which goes to the end of the queue for its count |
| SlabOps.KmemCache.Reap | kern/page-slab.c:581-622 | only slabs without objects in use go, from the front of their queue, all of them when forced, else down to the number to keep |
| SlabOps.AllocThenFree | kern/page-slab.c:717-799 | allocating from a slab there was and freeing restores every slab |
| Calendar.OneTm | klib/epoch_time.c:226-368 | valid broken-down times with equal seconds are equal |
| Calendar.PosixFormula | klib/epoch_time.c:531-565 | for years from 1970 the seconds are those of the formula of POSIX section 4.16 |
| Calendar.SecsFormula | klib/epoch_time.c:531-565 | that formula, with the leap days counted back before 1970 too, holds of every broken-down time once its months are carried into the year, the day of the year taken from the months |
| Calendar.CarryLaws | klib/epoch_time.c:541-556 | for every broken-down time twelve months more are a year more, and each other field counts its own unit |
| Calendar.NextMonth | klib/epoch_time.c:531-565 | the month after a month starts after its days, 29 in February of leap years |
| Calendar.WeekDays | klib/epoch_time.c:257-259 | the day after has the next day of the week |
| Calendar.EpochIs | klib/epoch_time.c:226-368 | second 0 is Thursday, the first of January 1970 |
| EpochTime.CarryOver | klib/epoch_time.c:241-248 | truncating division with the negative remainder carried over is floor division |
| EpochTime.SplitDays | klib/epoch_time.c:265-304 | the days from 2000-03-01 are taken apart into cycles of 400, 100 and 4 years, years and days, with the caps at the end of cycles |
| EpochTime.CycleYears | klib/epoch_time.c:265-328 | the cycles count the days of whole years and tell the leap years |
| EpochTime.FindMonth | klib/epoch_time.c:330-343 | the month loop finds the month of the day, in years from March on |
| EpochTime.DateOfPieces | klib/epoch_time.c:309-359 | the pieces make a valid Gregorian date with its weekday and day of the year, on the right day |
| EpochTime.SecsToTm | klib/epoch_time.c:226-368 | the result is the valid broken-down time for t; EINVAL exactly out of the first range; ERANGE only if no valid time with a representable year stands for t |
| EpochTime.YearToSecs | klib/epoch_time.c:396-522 | the seconds to the start of the year, one day too many exactly for years 1902 to 1967 that are no multiple of four |
| EpochTime.WithinCycle | klib/epoch_time.c:454-514 | centuries and leap days within a cycle of 400 years |
| EpochTime.TmToSecs | klib/epoch_time.c:531-565 | the seconds of any broken-down time, by the formula of the standard with months out of range carried into the year, but for the day too many in the misrounded years |
| EpochTime.SecsRoundTrip | klib/epoch_time.c:531-565 | seconds to broken-down time and back give the same seconds if and only if the year is not misrounded, and else a day more |
| EpochTime.TmRoundTrip | klib/epoch_time.c:226-368 | a valid broken-down time outside the misrounded years survives the way to seconds and back |
| EpochTime.MisroundedForExample | klib/epoch_time.c:414-414 | the first second of 1967 comes back a day late |
| EpochTime.MkEpochTime | klib/epoch_time.c:574-595 | the seconds of a broken-down time and its normal form; ERANGE exactly when no valid time with a representable year stands for the seconds |
| Bitmaps.Halve | klib/bitops.c:138-163 | the low half is clear exactly when the lowest bit is above it, and then the search goes on there |
| Bitmaps.BitIs | klib/bitops.c:72-163 | bits and shifts to the right as numbers |
| Bitmaps.LeftIs | klib/bitops.c:171-262 | and shifts to the left |
| Bitmaps.FirstSet | klib/bitops.c:72-163 | the halving search yields the lowest bit set, the largest power of two that divides the word, for words of 16, 32 and 64 bits |
| Bitmaps.LastSet | klib/bitops.c:171-262 | and the highest bit set, the largest power of two that is not above the word |
| Bitmaps.FindFirst | klib/bitops.c:314-339 | over an array of any length of words of 16, 32 or 64 bits: the first bit of the map, 0 exactly when there is none |
| Bitmaps.FindLast | klib/bitops.c:350-377 | and the last bit |
| Bitmaps.FindFirstClear | klib/bitops.c:388-413 | the first bit that is clear, 0 exactly when all are set |
| Bitmaps.FindLastClear | klib/bitops.c:424-451 | and the last one |
| ReadyQueue.Scheduler.constructor | kern/sched-queue.c:244-256 | empty queues and an empty bit map |
| ReadyQueue.Scheduler.SetBitOf | include/klib/bitops.h:84-85 | exactly that bit is set in the map |
| ReadyQueue.Scheduler.ClearBitOf | include/klib/bitops.h:91-92 | exactly that bit is cleared in the map |
| ReadyQueue.Scheduler.Add | kern/sched-queue.c:64-109 | the thread is last in the queue of its priority, and a bit is set exactly for each queue that is not empty |
| ReadyQueue.Scheduler.Del | kern/sched-queue.c:117-134 | the thread leaves its queue and the bits stay exact |
| ReadyQueue.Scheduler.Next | kern/sched-queue.c:27-56 | of all ready threads one of the least priority number that waited longest is taken; none exactly when all queues are empty |
| MutexProtocol.ApplyKeeps | kern/mutex.c:23-188 | every step of every thread keeps: resources and holders are one, the queue holds exactly the threads that sleep or are about to, and is empty while the mutex is free |
| MutexProtocol.AttemptIs | kern/mutex.c:128-168 | locking or trying again takes the resource if there is one and holds the mutex, else the thread is last in the queue and about to sleep; no other thread changes |
| MutexProtocol.TryIs | kern/mutex.c:107-118 | without a resource nothing changes, else the thread holds the mutex |
| MutexProtocol.ParkIs | kern/mutex.c:141-142 | a thread about to sleep is asleep then and stays in the queue |
| MutexProtocol.EventIs | kern/mutex.c:153-157 | a thread that an event wakes leaves the queue, in which the others keep their order, and is done |
| MutexProtocol.UnlockIs | kern/mutex.c:175-188 | the resource is back, the queue empty, the thread done, every thread of the queue woken, and no other changed |
| MutexProtocol.RunsKeep | kern/mutex.c:23-188 | so does every run |
| MutexProtocol.NoLostWakeup | kern/mutex.c:128-188 | after any run at most one thread holds the mutex, and a thread that sleeps or is about to is in the queue of a mutex that another thread holds |
| MutexProtocol.UnlockThenLock | kern/mutex.c:128-188 | progress: after an unlock in any reachable state each thread that waited may try again, and whoever locks or tries next holds the mutex |
| MutexProtocol.WaiterCanHold | kern/mutex.c:128-188 | no deadlock: from every reachable state a thread that waits holds the mutex after at most two more steps of some run |
| MutexProtocol.Mutex.constructor | kern/mutex.c:54-60 | a new mutex is free |
| MutexProtocol.Mutex.LockCommon | kern/mutex.c:23-47 | the resource is taken exactly when there is one |
| MutexProtocol.Mutex.TryAcquire | kern/mutex.c:107-118 | in place: true exactly when there was a resource; then it is taken and the thread holds the mutex, else nothing changes |
| MutexProtocol.Mutex.Acquire | kern/mutex.c:128-168 | in place: true exactly when there was a resource; then it is taken and the thread holds the mutex, else the thread is last in the queue before the spin lock is given up; no other thread changes |
| MutexProtocol.Mutex.Release | kern/mutex.c:175-188 | in place: one resource, an empty queue, the thread done, every thread of the old queue woken, and no other changed |
| MutexProtocol.Mutex.Wakeup | kern/wqueue.c:198-229 | the queue is drained and every thread in it woken |

## Left out

- Address conversions, map counts and statistics of the page frame database: plain lookups and counters.
- PageBuddy.PagePool.MarkPageReserved: is for a page whose region has been found; the search is
  `PageFrameDb.FrameDb.FindPage`.
- `pfdb_add` is modelled for a region whose frame array is at its end, as it always is; the place of the
  array is a parameter. Regions that touch no others may be registered.
- PageFrameDb.FrameDb.RemoveRegion: is for a region that is registered. ENOENT is never reported, because
  `RB_REMOVE` returns its argument always (line 325 of `include/klib/rbtree.h`); what it does to the tree for
  a region that is not in it is not part of the model.
- Links between small chunks (fd, bk) are the order of a sequence; the links of tree chunks are
  modelled one by one. A tree record carries its own copy of the size in the head word.
- System calls of the heap: `sys_alloc` fails, and there is one segment. Trimming, mmapped chunks,
  footers, mspaces, memalign, realloc and error actions for corrupted heaps are not part of the model.
- `dispose_chunk` repeats `dlfree` for internal callers that are not modelled.
- The use counts of mapped frames in `hal_pgtbl_remove` and the flag for unmanaged mappings: they
  concern the page allocator, not the tables. TLB, satp, copying of kernel tables: hardware.
- PageRanges.Enter: with the status `Hollow` the model stops at the first page, where the code goes on to
  write such entries for the others; with `Astray` it stops where the walk leaves the tables. What happens
  then depends on the contents of the frames.
- Virtual addresses count by the 39 bits of their linear part; sign extension is not modelled.
- Scheduling states of threads before they exit are one state; stacks, contexts and priorities are not
  modelled, nor are EINVAL and ENOMEM of creation. An event that interrupts the wait is a return
  without effect.
- ThreadLife.ThreadDb.AllocId: the identifiers in use are a set, searched from 0 on. That the search in a
  bit map finds the least clear bit is `Bitmaps.FindFirstClear`.
- `pagecache_shrink_pages`, and with it the removal of pages from the cache: some of its paths leave a
  page locked or off the LRU queue. Events and allocation failures are the step `MGiveUp`.
- The contents of a page are one value.
- Slab caches with alignment or colouring; constructors and destructors of objects; interleaving inside
  one allocation or release. The size of the slab record is a parameter of at most half a page.
- SlabOps.KmemCache.Alloc: a new slab passes through the front of the free queue, where the code takes it
  directly.
- Machine overflow in the calendar.
- The dispatch flags and signals of the ready queue, idle threads and the switch between threads. A
  thread keeps its priority while it is queued.
- Destruction of a mutex, and recursion. The owner field is not part of the model. All waiters
  are woken, as the queue of a mutex is set up to do.
