# Kernel memory model

A model of the kernel's memory management and of two parts of its freestanding C and C++ libraries:

- **Reference counting** (`RefCount`, `RefCountSafety`, `RefCountCross`): `shared_ptr`, `weak_ptr` and their control block.
  Each atomic access is one step, and operations in flight interleave in any order.
- **Physical pages** (`BitMath`, `PackedBits`, `PhysicalSpec`, `MemMap`, `Physical`, `PhysicalRuns`,
  `PhysicalAliasing`, `PhysicalDoubleUse`): the next-fit allocator over its packed bitmap, from the boot memory map through any run of calls.
- **Page tables** (`PageEntry` to `PagemapRun`, `HugePages`, `Paging`, `PagingDestroy`, `PagingRanges`,
  `PagingRangeEffects`): four-level tables with a shared kernel half, against the hardware walk of section 4.5 of the
  Intel 64 and IA-32 Architectures Software Developer's Manual, Volume 3A.
- **Boot address space** (`Words`, `BootSpace`, `Boot`, `BootWindows`, `BootRun`): the loops of `paging::init`, and what
  stays of them in later runs.
- **Heap** (`ByteMemory`, `Slots`, `SlabSpec` to `SlabRuns`, `SlabAllocator`, `HeapPages`, `HeapBoot`, `HeapTables`): slabs with
  free lists threaded through the bytes of their pages, big blocks on top of the page allocator, and page tables as
  blocks of the heap.
- **printf** (`PrintfSpec`, `PrintfBuffer`, `PrintfProps`, `PrintfShape`, `PrintfFields`, `Printf`): the integer,
  character, string and pointer conversions into a bounded buffer, and `atoi` as their reader.

Code that changes state is a class or a method whose postcondition equates the new state with a specification
function of the old one; what the code is for is then proved of those functions, as invariants of all runs.

Page-table addresses and entries are 64-bit vectors. Elsewhere numbers are unbounded and the source's wrap-around is
written out (`Add64`, `Narrow`, the 32-bit output position, the widths of the bitmap's byte indices, which are
parameters). Panic does not return: a function yields `Panic`, a method `Halted`.

## Assumptions

- A pointer object that an operation reads from outlives that operation and is not changed meanwhile, so assignments
  such as `p = p->next`, whose source dies with the old target, are excluded. The counters do not reach 2^64.
- Page 0 is in use from the start, and the memory map's usable entries are page aligned and disjoint (Limine boot
  protocol, Memory Map feature). Some usable entry can hold the bitmap, or no entry is usable (`Bootable`); the bitmap is
  large enough for its limit. Page numbers are below 2^31, where the source's signed index is the page number. What is
  said of pages, beyond the bits that are read and written, needs both index widths of the bitmap to reach the limit
  (`Coherent`).
- No walk to an entry passes through a large leaf; frames fit bits 12 to 51 and suit the page size, as the
  processor demands. New tables are zeroed and their frames are not in use, which `HeapTables` proves of tables that are
  blocks of the heap, with physical addresses below 2^52.
- At boot, requests that meet agree on where they lead and on whether the page is large (`Consistent`); this is proved
  for aligned windows that do not overlap (`WindowsAreConsistent`).
- Pages handed to the heap are fresh (`FreshRun`), which `HeapPages` proves of any run on the page allocator. A moving
  `realloc` is not asked for a size whose page count wraps, which is exactly when it works (`ReallocMovesIff`). Callers
  free only live blocks and write only inside them.
- Every conversion of a format has its specifier, and arguments have the types their conversions ask for.

## Where the code and its promises differ

- `bitmap_t::get` narrows the byte index to 8 bits and `set` to 16: with more than 2048 pages they disagree
  (`CoherentExactly`), and page 2048 is never handed out (`Page2048IsNeverPicked`). With more than 2049 pages there are
  memory maps on which legal calls get a page twice, with more than 2050 if the map is sorted by address, as the boot
  loader promises (`SafeIff`, `HandsOutTwice`).
- The bitmap size floors before it rounds up (`BitmapCoversIff`, `BitmapTooSmall`).
- A free run across the next-fit hint is not found (`SplitRunIsMissed`).
- The weak assignment across types takes no weak count (`CrossAssignFreesUnderShared`).
- The software translation of a large page is off by 0x1000 when the cache bit 12 is set (`SoftwareOnMappedLarge`).
- `big_realloc` returns nullptr when it succeeds in place (`ReallocStays`), unlike section 7.22.3.5 of ISO/IEC 9899:2011.
- A `malloc` so large that its page count wraps yields a block that is too small (`MallocTooSmall`), and a `realloc`
  to such a size writes behind its block (`ReallocOverruns`).
- A text of 2^32 characters or more comes back to the beginning of the buffer (`StoredIff`, `WideIsLost`), and the
  returned int is the length only up to INT_MAX (`TotalIsLength`). `%b` prints the low 32 bits (`BinaryInFullIff`).

## Model

| member | source | states |
|---|---|---|
| RefCount.StepKeepsInv | kernel/include/libs/libc++/memory:100-133 | every atomic step of copies, moves, assignments, releases, weak copies and locks keeps the ledger: strong count = owners + copies and locks in progress, weak count = owners + weak pointers + releases in progress |
| RefCountSafety.ExecutionKeepsInv | kernel/include/libs/libc++/memory:100-426 | the ledger holds in every state of every interleaving, from no blocks at all |
| RefCountSafety.NoUseAfterFree | kernel/include/libs/libc++/memory:100-133 | no step of any interleaving reads or writes a freed control block |
| RefCountSafety.LifeMovesForward | kernel/include/libs/libc++/memory:111-133 | a step moves a block only forward: alive, being destroyed, destroyed, freed |
| RefCountSafety.RankIsMonotone | kernel/include/libs/libc++/memory:111-133 | over whole executions no block ever moves back a stage |
| RefCountSafety.DestroyedAndFreedOnce | kernel/include/libs/libc++/memory:111-133 | at most one step of an execution starts the deleter of a block, and at most one frees the block |
| RefCountSafety.FreedAfterDestroyed | kernel/include/libs/libc++/memory:111-133 | a block that is freed had its object destroyed to the end before |
| RefCountSafety.DestroyedWhenLastGoes | kernel/include/libs/libc++/memory:126-130 | the step that starts the deleter is the one that took the strong count from one to zero |
| RefCountSafety.DeadStaysDead | kernel/include/libs/libc++/memory:402-426 | a strong count that reached zero is zero in all later states: lock never revives an object |
| RefCountSafety.HolderKeepsObjectAlive | kernel/include/libs/libc++/memory:139-240 | while a shared_ptr holds a block its object is alive and its block is not freed |
| RefCountSafety.LockedKeepsObjectAlive | kernel/include/libs/libc++/memory:417-425 | between the two increments of lock the object is already alive and stays so |
| RefCountSafety.NothingLeaks | kernel/include/libs/libc++/memory:111-133 | when no pointer and no operation is left, every object was destroyed and every block freed |
| RefCountCross.CrossAssignBalancesIffEmpty | kernel/include/libs/libc++/memory:363-369 | the weak assignment across types, after it has released whatever its target held, keeps the ledger exactly when its source is empty |
| RefCountCross.CrossAssignFreesUnderTarget | kernel/include/libs/libc++/memory:363-369 | for every non-empty source and no other operation in flight: destroying the other pointers frees the block that the target still names |
| RefCountCross.CrossAssignFreesUnderShared | kernel/include/libs/libc++/memory:363-369 | and while any shared_ptr to the block lives, destroying others frees the block under that shared_ptr |
| RefCountCross.LeadsToCrossAssign | kernel/include/libs/libc++/memory:363-369 | an execution from no blocks at all that ends in such a state: a shared pointer, a weak pointer from it, and an empty weak pointer that has released its old value |
| RefCountCross.FreedUnderShared | kernel/include/libs/libc++/memory:363-369 | so one program, by its own steps, the assignment and destructors alone, has a shared_ptr to a freed block |
| BitMath.PageMask | kernel/include/utils/math.hpp:14-16 | masking with the page size is rounding down to a page |
| BitMath.DivRoundupCeiling | kernel/include/utils/math.hpp:22-24 | div_roundup is the exact ceiling while the sum does not wrap |
| BitMath.DivRoundupCovers | kernel/include/utils/math.hpp:22-24 | so many pages hold the size if and only if the 64-bit sum does not wrap |
| BitMath.HeaderSpanIsLowBit | kernel/include/utils/math.hpp:14-20 | align_up(8, size) is the lowest set bit of the size, for any multiple of 16, power of two or not |
| BitMath.LowBitDivides | kernel/memory/memory.cpp:17-22 | that bit is a power of two with an odd cofactor |
| BitMath.LowBitIsLargest | kernel/memory/memory.cpp:17-22 | no larger power of two divides the size |
| PackedBits.Bitmap.Get | kernel/utils/bitmap.cpp:6-11 | reads the bit that the index reaches when the byte index wraps at the width of its variable, 8 bits as written |
| PackedBits.Bitmap.Set | kernel/utils/bitmap.cpp:13-21 | changes exactly the bit that the index reaches when the byte index wraps at its own width, 16 bits as written |
| PackedBits.CoherentIff | kernel/utils/bitmap.cpp:6-21 | for any two widths, get and set both reach the bit of every index below the limit if and only if both widths reach the limit |
| PackedBits.CoherentExactly | kernel/utils/bitmap.cpp:6-21 | as written, get and set both reach the bit of every index below the limit if and only if the limit is at most 2048 |
| PackedBits.ReadsBackIff | kernel/utils/bitmap.cpp:6-21 | for any index, get looks where set wrote if and only if the narrowed byte index fits eight bits |
| PackedBits.ReadsAliasedPage | kernel/utils/bitmap.cpp:6-21 | at index 2048 get looks at index 0 and set does not |
| PhysicalSpec.FirstRunIsLowest | kernel/memory/physical.cpp:46-64 | the search finds the lowest free run of the segment, or there is none |
| PhysicalSpec.PickSucceedsIff | kernel/memory/physical.cpp:66-75 | alloc succeeds if and only if a free run lies wholly above or wholly below the hint |
| PhysicalSpec.OnePageWheneverFree | kernel/memory/physical.cpp:66-75 | a single page is found whenever any page is free |
| PhysicalSpec.SplitRunIsMissed | kernel/memory/physical.cpp:42-90 | a run of six calls on seven pages after which two neighbouring pages are free and alloc(2) finds nothing, because the hint lies between them |
| PhysicalSpec.NextKeepsInv | kernel/memory/physical.cpp:42-90 | each call keeps live runs disjoint, off the pages used at the start, and accounting for all other used pages |
| PhysicalSpec.RunKeepsInv | kernel/memory/physical.cpp:42-90 | so it is in every state of any run of allocations and matching frees |
| PhysicalSpec.RunConserves | kernel/memory/physical.cpp:38-90 | used pages plus clear bits never change over a run |
| PhysicalSpec.SingleRunIsFirstFit | kernel/memory/physical.cpp:46-64 | when all allocations are of one page, all pages below the hint are used and the next-fit pick is the lowest free page |
| Physical.ScanFinds | kernel/memory/physical.cpp:46-64 | counting free pages one by one finds the lowest run of the length asked for |
| Physical.ScanReturns | kernel/memory/physical.cpp:54-73 | with page 0 in use, a scan returns the null pointer exactly when there is no run, and a run inside its range otherwise |
| Physical.PhysicalMemory.FreeMemory | kernel/memory/physical.cpp:38-40 | free() is the page size times the number of clear bits |
| Physical.PhysicalMemory.SetRun | kernel/memory/physical.cpp:52-53 | the marking loop writes the bits that its pages reach, for any widths and any limit |
| Physical.PhysicalMemory.InnerAlloc | kernel/memory/physical.cpp:46-64 | for any widths and any limit, one scan takes the lowest run of its segment among the pages as read, writes its bits and moves the hint behind it, or changes nothing |
| Physical.PhysicalMemory.Search | kernel/memory/physical.cpp:66-75 | for any widths and any limit, both scans together take the run that the two-segment rule picks |
| Physical.PhysicalMemory.Alloc | kernel/memory/physical.cpp:42-77 | for any widths and any limit, alloc returns the picked run, panics when there is none, and ignores a count of zero; when both widths reach the limit it sets exactly the pages of the run and keeps the account |
| Physical.PhysicalMemory.Free | kernel/memory/physical.cpp:79-90 | for any widths and any limit, free writes the bits of the run and lowers the hint and the counter; when both widths reach the limit it clears exactly the run, and keeps the account if the run was in use |
| Physical.PhysicalMemory.Measure | kernel/memory/physical.cpp:98-112 | the first pass adds up usable memory and finds its end |
| Physical.PhysicalMemory.Place | kernel/memory/physical.cpp:117-134 | for any widths: the bitmap goes to the front of the first usable entry that is large enough, with every page used; when there is none, nothing is placed |
| Physical.PhysicalMemory.Release | kernel/memory/physical.cpp:136-142 | for any widths: every bit that a page of a usable entry reaches is cleared and no other |
| Physical.PhysicalMemory.Init | kernel/memory/physical.cpp:92-142 | for any widths: init leaves all bits set but those that the usable pages outside the bitmap reach; when both widths reach the limit exactly these pages are free, and free() equals their number times the page size |
| Physical.BootKeepsValid | kernel/memory/physical.cpp:92-142 | read through widths that reach the limit, the bits init leaves show exactly the usable pages outside the bitmap as free, and the counters account for them |
| Physical.ShrinkKeeps | kernel/memory/physical.cpp:128-131 | giving the front of an entry to the bitmap keeps the map aligned and disjoint |
| Physical.BitmapCoversIff | kernel/memory/physical.cpp:114-115 | the bitmap has a bit for every page if and only if the page count divides by 8 or its byte count is not page aligned: the size floors before it rounds up |
| Physical.BitmapTooSmall | kernel/memory/physical.cpp:114-115 | one usable entry that ends after 32769 pages, for which the bitmap has too few bits |
| PhysicalRuns.LiveRunsAreUsable | kernel/memory/physical.cpp:42-142 | in every state of any run from the bits init leaves, every page of a live run lies in usable memory outside the bitmap, and no page is in two runs |
| PhysicalRuns.FreeBytes | kernel/memory/physical.cpp:38-40 | in every such state free() is the page size times the number of clear bits |
| PhysicalRuns.LiveRunCanBeFreed | kernel/memory/physical.cpp:79-90 | in every such state a live run meets what free asks for: behind page 0, below the limit, in use, and no larger than the counter |
| PhysicalRuns.Start | kernel/memory/physical.cpp:92-142 | what init leaves is the first state of every run |
| PhysicalRuns.PerformAlloc | kernel/memory/physical.cpp:42-77 | from the end of any run, alloc takes the object to the end of the longer run and returns the run that is handed out |
| PhysicalRuns.PerformFree | kernel/memory/physical.cpp:79-90 | and so does free of a live run |
| PhysicalAliasing.HandedOutAgain | kernel/utils/bitmap.cpp:6-21 | as written, whatever run from page 2048 on was handed out, the same request with the same hint gets it once more |
| PhysicalAliasing.Page2048IsNeverPicked | kernel/memory/physical.cpp:42-90 | as written, while page 0 is in use no run that alloc picks contains page 2048 |
| PhysicalAliasing.SafeIfReserved | kernel/memory/physical.cpp:42-142 | as written and up to 4096 pages, if none of the pages whose bits are read in place of those from 2048 on is usable, no legal run from the bits init leaves hands out a page twice or a page that is not usable |
| PhysicalAliasing.SafeUpTo | kernel/memory/physical.cpp:42-142 | so it is for every memory map up to 2049 pages, and up to 2050 pages when the map is sorted by address |
| PhysicalDoubleUse.RunsTwice | kernel/memory/physical.cpp:42-142 | from bits that leave only page a and the pair behind it free below page 2048, five calls, the free among them of a live run, hand out page a + 2048 twice |
| PhysicalDoubleUse.SafeIff | kernel/memory/physical.cpp:42-142 | as written, all legal runs from init, over all memory maps of a limit that the bitmap covers, hand out disjoint usable runs if and only if the limit is at most 2049, or 2050 when the maps are sorted |
| PhysicalDoubleUse.TakeTwice | kernel/memory/physical.cpp:42-90 | the same calls on the object: alloc returns the same page twice |
| PhysicalDoubleUse.HandsOutTwice | kernel/memory/physical.cpp:42-142 | from the constructor and init on a sorted map of 2051 pages, calls that keep to the rules get page 2050 twice |
| PageEntry.LeafFlagsShape | kernel/arch/x86_64/memory/virtual.cpp:264-279 | the flags of a leaf are present, leave the address bits alone except the large-page cache bit, and mark large pages as asked |
| PageEntry.MappedBits | kernel/include/memory/virtual.hpp:72-79 | a mapped entry carries the new address whatever it held before |
| PageEntry.MappedFlags | kernel/arch/x86_64/memory/virtual.cpp:156-157 | map only adds flags to those already set |
| PageEntry.FlaggedEntry | kernel/arch/x86_64/memory/virtual.cpp:228-232 | set_flags keeps the address and replaces the flags |
| PageEntry.NewLeafRights | kernel/arch/x86_64/memory/virtual.cpp:264-279 | a new leaf is writable, reachable from user mode and executable exactly as asked |
| PageEntry.MappedRights | kernel/include/memory/virtual.hpp:54-79 | mapping over an entry takes no write or user right away and grants no execution that was denied |
| PageEntry.FlaggedRights | kernel/arch/x86_64/memory/virtual.cpp:226-232 | set_flags grants exactly the rights asked for |
| PageEntry.TableEntryRights | kernel/arch/x86_64/memory/virtual.cpp:48-50 | a table entry denies nothing, so that the leaf decides |
| PageEntry.CachingSelectsPat | kernel/arch/x86_64/memory/virtual.cpp:90-124 | each caching mode selects its own entry of the page attribute table, at both page sizes |
| PageEntry.NothingReserved | kernel/arch/x86_64/memory/virtual.cpp:264-279 | with an address that suits the page size, no entry sets an address bit that the processor reserves |
| PageEntry.PathNamesPage | kernel/arch/x86_64/memory/virtual.cpp:58-61 | the four indices of two canonical addresses agree if and only if they lie in the same 4 KiB page |
| PageTables.GrowInvisible | kernel/arch/x86_64/memory/virtual.cpp:45-51 | hanging a new table below an empty entry changes no hardware translation |
| PageTables.WalkGrows | kernel/arch/x86_64/memory/virtual.cpp:56-88 | an allocating walk panics or finds its slot at the place its indices name, keeps the tree and changes no translation |
| AddressSpaces.LeafSeen | kernel/arch/x86_64/memory/virtual.cpp:56-88 | writing one leaf changes the hardware walk of exactly the paths below it, in every address space that shares it |
| AddressSpaces.LeafKeepsInv | kernel/arch/x86_64/memory/virtual.cpp:245-257 | and keeps all upper halves identical |
| Pagemap.CleanIff | kernel/arch/x86_64/memory/virtual.cpp:42-44 | the kernel's walk meets no large leaf if and only if the page is not inside a large page |
| Pagemap.MapEffect | kernel/arch/x86_64/memory/virtual.cpp:138-176 | with a frame that suits the page size, map gives its page the leaf asked for, without a reserved bit, in every address space that shares it, and changes no other page |
| Pagemap.UnmapEffect | kernel/arch/x86_64/memory/virtual.cpp:178-210 | unmap of a 4 KiB page unmaps it wherever it is shared and nothing else; it reports failure only for an unmapped page |
| Pagemap.FlagEffect | kernel/arch/x86_64/memory/virtual.cpp:212-235 | set_flags replaces the flags of the addressed page and keeps its frame |
| Pagemap.SharedWalk | kernel/arch/x86_64/memory/virtual.cpp:245-257 | all address spaces translate the upper half alike |
| Pagemap.SoftwareAgrees | kernel/arch/x86_64/memory/virtual.cpp:126-136 | for 4 KiB pages virtual_to_physical is the hardware translation, and invalid_addr if and only if there is none |
| Pagemap.SoftwareOnLarge | kernel/arch/x86_64/memory/virtual.cpp:126-136 | on a 2 MiB leaf it agrees with the hardware if and only if the address bits below the frame are clear |
| Pagemap.SoftwareOffByOnePage | kernel/arch/x86_64/memory/virtual.cpp:23-33 | with the large-page cache bit set it is off by 0x1000 |
| Pagemap.SoftwareOnMappedLarge | kernel/arch/x86_64/memory/virtual.cpp:100-136 | on a 2 MiB leaf that map wrote it is right exactly for the two caching modes without that bit; the hardware is always right |
| PagemapLife.FirstPagemap | kernel/arch/x86_64/memory/virtual.cpp:245-252 | the first page map gets a table below every upper-half entry and maps nothing |
| PagemapLife.LaterPagemap | kernel/arch/x86_64/memory/virtual.cpp:253-257 | a later one has the kernel's upper half and an empty lower half, and changes no other address space |
| PagemapDestroy.DoomedIsReachable | kernel/arch/x86_64/memory/virtual.cpp:281-300 | destroy_pagemap deletes the top table and exactly the tables that entries 0 to 255 lead to |
| PagemapDestroy.DoomedIsOwn | kernel/arch/x86_64/memory/virtual.cpp:281-300 | none of them belongs to the shared kernel half or to another address space |
| PagemapDestroy.DestroyKeepsOthers | kernel/arch/x86_64/memory/virtual.cpp:298-300 | every other address space is whole afterwards and translates as before |
| PagemapRun.FirstRefines | kernel/arch/x86_64/memory/virtual.cpp:245-252 | the kernel page map starts as the simple map of no pages at all |
| PagemapRun.ReadingRefines | kernel/arch/x86_64/memory/virtual.cpp:126-300 | and any address space that stands alone and is in order, that of the boot for one, starts as the map that it translates |
| PagemapRun.StepRefines | kernel/arch/x86_64/memory/virtual.cpp:126-300 | each operation on 4 KiB pages, and each birth and death of an address space, refines one update of a simple map from page to leaf |
| PagemapRun.RunRefines | kernel/arch/x86_64/memory/virtual.cpp:126-300 | so does every legal run, whatever large mappings it starts from |
| PagemapRun.UpperHalfIsOne | kernel/arch/x86_64/memory/virtual.cpp:245-257 | in every state a run reaches, all upper-half top-level entries are present and identical, and translate alike |
| PagemapRun.MapMeans | kernel/arch/x86_64/memory/virtual.cpp:138-176 | the mapped page goes to its frame at every offset; every other address keeps its translation |
| PagemapRun.UnmapMeans | kernel/arch/x86_64/memory/virtual.cpp:178-210 | the unmapped page has no translation; every other address keeps its own |
| PagemapRun.FlagMeans | kernel/arch/x86_64/memory/virtual.cpp:212-235 | set_flags on a mapped page changes no translation |
| PagemapRun.RemapMeans | kernel/include/memory/virtual.hpp:160-168 | remap moves the frame to the new page and leaves the old page without |
| HugePages.ChunksMapped | kernel/arch/x86_64/memory/virtual.cpp:164-172 | the fallback maps all 512 chunks, each to its own 2 MiB frame, and nothing else |
| HugePages.HugeMapped | kernel/arch/x86_64/memory/virtual.cpp:138-176 | a 1 GiB request gives the same translation at every offset with and without 1 GiB pages, and changes no address outside the gigabyte |
| Paging.PageMemory.GetNextLevel | kernel/arch/x86_64/memory/virtual.cpp:35-54 | follows or allocates the next table as specified |
| Paging.PageMemory.VirtualToEntry | kernel/arch/x86_64/memory/virtual.cpp:56-88 | finds the entry of the page size asked for, as specified |
| Paging.PageMemory.Map | kernel/arch/x86_64/memory/virtual.cpp:138-176 | map with its fallback loop does what the specification says |
| Paging.PageMemory.Unmap | kernel/arch/x86_64/memory/virtual.cpp:178-210 | unmap with its fallback loop does what the specification says |
| Paging.PageMemory.SetPageFlags | kernel/arch/x86_64/memory/virtual.cpp:212-235 | set_flags does what the specification says |
| Paging.PageMemory.VirtualToPhysical | kernel/arch/x86_64/memory/virtual.cpp:126-136 | virtual_to_physical reads without changing anything |
| Paging.PageMemory.NewPagemap | kernel/arch/x86_64/memory/virtual.cpp:245-257 | the constructor's two loops build the upper half as specified |
| Paging.PageMemory.Remap | kernel/include/memory/virtual.hpp:160-168 | remap translates, unmaps and maps as specified |
| PagingDestroy.SiblingsApart | kernel/arch/x86_64/memory/virtual.cpp:286-293 | the tables below one entry are none of those below the entries before it |
| PagingDestroy.ReadyBelow | kernel/arch/x86_64/memory/virtual.cpp:286-293 | after the earlier deletions, the tables below the next entry are still allocated and unchanged |
| PagingDestroy.DestroyEntries | kernel/arch/x86_64/memory/virtual.cpp:286-293 | the loop deletes each table below its entries once: each delete needs the table to be allocated |
| PagingDestroy.DestroyLevel | kernel/arch/x86_64/memory/virtual.cpp:281-296 | the recursion ends on the level, treats no data page as a table, and touches nothing else |
| PagingDestroy.DestroyPagemap | kernel/arch/x86_64/memory/virtual.cpp:298-300 | destroy_pagemap leaves exactly the tables that are not its own |
| PagingRanges.UnmapRange | kernel/include/memory/virtual.hpp:179-185 | unmap_range is the run of the unmaps of its pages |
| PagingRanges.RemapRange | kernel/include/memory/virtual.hpp:187-194 | remap_range is the run of the remaps of its pages, or memory for tables runs out |
| PagingRangeEffects.OffsetsAre | kernel/include/memory/virtual.hpp:179-185 | the pages of a range are the multiples of the page size below its size |
| PagingRangeEffects.AmongIff | kernel/include/memory/virtual.hpp:179-185 | a canonical address lies in a page of the range if and only if its page begins less than the size behind the start |
| PagingRangeEffects.UnmapOpsEffect | kernel/include/memory/virtual.hpp:179-185 | with no large page in the range, unmapping it never fails, leaves a page unmapped exactly when it is in the range, and every other page of every address space as it was |
| PagingRangeEffects.UnmapRangeMeans | kernel/include/memory/virtual.hpp:179-185 | so the hardware translates no address of the range, and every other address as before |
| PagingRangeEffects.RemapOpsLegal | kernel/include/memory/virtual.hpp:187-194 | moving mapped pages to a range without a page in common is a legal run |
| PagingRangeEffects.RemapOpsEffect | kernel/include/memory/virtual.hpp:187-194 | unless memory runs out, each page's frame is at its new place, its old place is empty, and every other page is as it was |
| PagingRangeEffects.RangesApart | kernel/include/memory/virtual.hpp:187-194 | two canonical ranges without a page in common are what that asks for |
| Boot.HighRoundTrip | kernel/include/utils/math.hpp:54-67 | fromhh undoes tohh on a physical address if and only if the sum does not wrap |
| BootSpace.GigStep | kernel/memory/virtual.cpp:29-32 | mapping a planned gigabyte, once or again, keeps everything mapped as planned |
| BootSpace.PageStep | kernel/memory/virtual.cpp:50-65 | so does mapping a planned page |
| Boot.Ask | kernel/include/libs/libc/assert.h:10 | an assertion that maps twice leaves the page mapped as planned and the rest in place |
| Boot.MapLow | kernel/memory/virtual.cpp:27-32 | the first loop places every gigabyte below 4 GiB at both addresses |
| Boot.MapRegion | kernel/memory/virtual.cpp:34-57 | the second places every page of a region above 4 GiB at both addresses |
| Boot.MapImage | kernel/memory/virtual.cpp:59-66 | the third places every page of the kernel image |
| Boot.Init | kernel/memory/virtual.cpp:17-69 | when paging::init returns, every address translates exactly where the requests that cover it send it, no other address translates, and the heap is a first state of the runs |
| Boot.LowGigabytes | kernel/memory/virtual.cpp:27-32 | every address below 4 GiB is reached at its identity and its direct-map address |
| Boot.LowIdentity | kernel/memory/virtual.cpp:29-30 | every address below 4 GiB translates to itself |
| Boot.RegionPages | kernel/memory/virtual.cpp:50-56 | every memory-map page above 4 GiB is reached at its identity and its direct-map address |
| Boot.ImagePages | kernel/memory/virtual.cpp:59-66 | every page of the kernel image goes to its load address |
| BootWindows.WindowsAreConsistent | kernel/memory/virtual.cpp:27-66 | aligned windows that do not overlap, none of which wraps, make the requests agree wherever they meet |
| BootWindows.LowAddresses | kernel/memory/virtual.cpp:27-32 | with such windows every address n below 4 GiB is reached at n and at n plus the direct-map offset |
| BootWindows.RegionAddresses | kernel/memory/virtual.cpp:34-57 | and so is every address of a memory-map page above 4 GiB |
| BootWindows.ImageAddresses | kernel/memory/virtual.cpp:59-66 | and every address of the kernel image goes to its load address |
| BootRun.BootMappingStays | kernel/memory/virtual.cpp:17-69 | after the boot and any legal run of operations that do not name its page, an upper-half address goes where the boot sent it, in every address space there is by then |
| ByteMemory.ReadWordBack | kernel/memory/memory.cpp:28-30 | a 64-bit word is read back as it was written |
| Slots.ShapeFits | kernel/memory/memory.cpp:17-22 | every multiple of 16 up to 1024 gives a header span that is its lowest set bit |
| Slots.SlotInPage | kernel/memory/memory.cpp:17-30 | a slot lies in its page behind the header, on a 16-byte boundary and never on a page boundary |
| Slots.BlocksApart | kernel/memory/memory.cpp:17-30 | blocks at different slots, of whatever classes, do not overlap |
| SlabSpec.BlockWrite | kernel/memory/memory.cpp:33-53 | what is written inside one block changes no header, no data page and no free list without that block |
| SlabSteps.ThreadChain | kernel/memory/memory.cpp:24-30 | the linking loop leaves a free list through all slots of the page in order, and writes nowhere else |
| SlabSteps.InitKeepsInv | kernel/memory/memory.cpp:13-31 | init on a fresh page keeps the account |
| SlabSteps.TakeKeepsInv | kernel/memory/memory.cpp:33-43 | alloc takes the first slot of the list and keeps the account |
| SlabSteps.GiveKeepsInv | kernel/memory/memory.cpp:45-53 | free of a live slot puts it back once and keeps the account |
| SlabHeap.HeaderNamesSlab | kernel/memory/memory.cpp:183-186 | the masked pointer leads to the header that names the slab that issued the block |
| SlabHeap.DispatchIsRight | kernel/memory/memory.cpp:150-156 | a block is on a page boundary if and only if it is a big block |
| SlabHeap.BlocksDisjoint | kernel/memory/memory.cpp:33-53 | live blocks of both kinds never overlap |
| SlabHeap.HeadersSafe | kernel/memory/memory.cpp:13-53 | nor does a block overlap a page header or a big block's data page |
| SlabHeap.OwnerWrite | kernel/memory/memory.cpp:33-53 | an owner may write anything inside its block without harm to the account |
| SlabHeap.MallocGrows | kernel/memory/memory.cpp:130-135 | malloc makes one new block and touches no other; it is large enough if and only if a slab fits or the page count does not wrap |
| SlabHeap.MallocTooSmall | kernel/memory/memory.cpp:75-84 | for the largest size the page count wraps to none, and the block has no byte at all |
| SlabHeap.MallocZeroes | kernel/memory/memory.cpp:33-84 | what malloc returns is zeroed to its full extent |
| SlabRuns.BigFree | kernel/memory/memory.cpp:118-122 | big_free gives back exactly the run that big_malloc took |
| SlabRuns.FreeShrinks | kernel/memory/memory.cpp:177-187 | free removes exactly its block |
| SlabRuns.RunIsFreshAgain | kernel/memory/memory.cpp:118-122 | the run given back meets nothing that is still in use |
| SlabRuns.AllocSizeIsReported | kernel/memory/memory.cpp:189-199 | alloc_size is the class size or the size last asked for |
| SlabRuns.ReallocStays | kernel/memory/memory.cpp:94-98 | in place, big_realloc keeps the page count right, changes no byte of any block, and returns nullptr |
| SlabRuns.ReallocFrees | kernel/memory/memory.cpp:100-103 | realloc to size zero frees |
| SlabRuns.ReallocMoves | kernel/memory/memory.cpp:86-175 | any other realloc, to a size whose page count does not wrap, carries over the first min(old, new) bytes and frees only the old block |
| SlabRuns.ReallocMovesIff | kernel/memory/memory.cpp:86-175 | a moving realloc hands over the block if and only if the page count of the new size does not wrap |
| SlabRuns.ReallocOverruns | kernel/memory/memory.cpp:86-175 | for every size whose page count wraps, the new block of a moving realloc is empty, and all bytes of the old block are written behind its data page: while the pages there are free, the bytes stay there, outside every block of the account |
| SlabRuns.StepIsOk | kernel/memory/memory.cpp:130-199 | each call keeps the account and leaves every block it does not act on as it was, bytes included |
| SlabRuns.RunKeepsInv | kernel/memory/memory.cpp:13-199 | over any run without double free, the account of the calls made holds: lists are acyclic and in bounds, every slot is listed once or live, and every big block that was not freed has its data page and the pages its size needs |
| SlabRuns.RunKeepsApart | kernel/memory/memory.cpp:13-199 | after any such run, the live blocks of that account are disjoint and miss every header and data page |
| SlabRuns.RunKeepsBlock | kernel/memory/memory.cpp:13-199 | a block that no call of the run acts on is still there, with its bytes |
| SlabAllocator.SizesFit | kernel/memory/memory.cpp:55-66 | all ten sizes have a good layout |
| SlabAllocator.Allocator.constructor | kernel/memory/memory.cpp:55-66 | ten slabs on ten pages start with the account in order, each page owned, each list open and no block live |
| SlabAllocator.Allocator.Init | kernel/memory/memory.cpp:13-31 | init does what the specification says |
| SlabAllocator.Allocator.Alloc | kernel/memory/memory.cpp:33-43 | alloc does what the specification says |
| SlabAllocator.Allocator.FindSlab | kernel/memory/memory.cpp:68-73 | get_slab finds the first slab that is large enough |
| SlabAllocator.Allocator.Malloc | kernel/memory/memory.cpp:130-135 | malloc does what the specification says and keeps the account |
| SlabAllocator.Allocator.Free | kernel/memory/memory.cpp:177-187 | free does what the specification says and keeps the account |
| SlabAllocator.Allocator.AllocSize | kernel/memory/memory.cpp:189-199 | alloc_size reads the header or the data page |
| SlabAllocator.Allocator.Realloc | kernel/memory/memory.cpp:86-175 | realloc on all its paths does what the specification says and keeps the account |
| HeapPages.PickedIsFresh | kernel/memory/memory.cpp:77 | whatever run the page allocator picks is fresh for the heap |
| HeapPages.SupplyHolds | kernel/memory/memory.cpp:75-84 | so what malloc needs of the page allocator follows from the invariants of both |
| HeapPages.BackIsLive | kernel/memory/memory.cpp:118-122 | every run that the heap gives back is a live run of the page allocator, of just that many pages |
| HeapPages.GivesBackIs | kernel/memory/memory.cpp:86-187 | and it is the run that free and realloc pass on |
| HeapPages.CallKeepsLink | kernel/memory/memory.cpp:13-199 | each call keeps every slab page and every big block linked to its own live run |
| HeapPages.OtherKeepsLink | kernel/memory/physical.cpp:42-90 | other users of the page allocator do not disturb the heap |
| HeapPages.SysRunKeepsInv | kernel/memory/memory.cpp:13-199 | over any run of the heap and of other users on one page allocator, the accounts of both hold and stay linked |
| HeapBoot.GivesIff | kernel/memory/physical.cpp:42-77 | single pages can be had one after the other exactly as long as pages are free |
| HeapBoot.TenPagesOut | kernel/memory/memory.cpp:55-66 | with ten free pages, whatever the page allocator did before, the ten pages of the slabs are page addresses of the direct map, apart from each other |
| HeapBoot.StartHeap | kernel/memory/memory.cpp:55-66 | the heap that the constructor builds on them is a first state of the combined runs |
| HeapTables.NewTableIsFresh | kernel/arch/x86_64/memory/virtual.cpp:46 | new page_table_t returns a frame that suits a table entry and is no table so far |
| HeapTables.JoinsPool | kernel/arch/x86_64/memory/virtual.cpp:46 | such a frame may be the next that the page maps take |
| HeapTables.FirstWorld | kernel/arch/x86_64/memory/virtual.cpp:35-300 | a heap in order in which there is no page table yet is where the runs below start |
| HeapTables.NewKeepsOk | kernel/arch/x86_64/memory/virtual.cpp:46 | and its 4096 bytes, which malloc zeroed, are a table without entries |
| HeapTables.EntryKeepsOk | kernel/arch/x86_64/memory/virtual.cpp:48-50 | writing an entry changes that entry of that table in memory, no other entry of any table, and keeps the heap in order |
| HeapTables.DeleteIsAllowed | kernel/arch/x86_64/memory/virtual.cpp:295 | delete of any table that there is gives the heap a live block |
| HeapTables.RunKeepsTables | kernel/arch/x86_64/memory/virtual.cpp:35-300 | over any run of new tables, entry writes, deletes and calls of anyone else to the heap and the page allocator, each table keeps its own block, and the bytes of the block are the entries the page maps wrote |
| HeapTables.DestroyIsAllowed | kernel/arch/x86_64/memory/virtual.cpp:281-300 | all the tables that destroy_pagemap deletes can be given back to the heap, each once, and what is left are the other tables, bytes included |
| Printf.Gadget.Put | kernel/libs/libc/stdio.cpp:102-111 | one more character is out, the 32-bit position wraps, and the buffer is written only below its limit |
| Printf.Gadget.Terminate | kernel/libs/libc/stdio.cpp:113-122 | the buffer ends up exactly as a 32-bit position and the NUL leave it, for a text of any length |
| Printf.Gadget.OutRev | kernel/libs/libc/stdio.cpp:190-206 | out_rev sends the reversed buffer with blanks on the side asked for, although it counts by a wrapping position |
| Printf.Gadget.PrintIntegerFinalization | kernel/libs/libc/stdio.cpp:208-268 | padding, prefix and sign stay inside the 32-byte buffer and come out as specified |
| Printf.Gadget.PrintInteger | kernel/libs/libc/stdio.cpp:270-297 | the digit loop stays inside the buffer and yields the digits |
| Printf.Gadget.PrintString | kernel/libs/libc/stdio.cpp:946-973 | %s sends the string cut to its precision and padded |
| Printf.Gadget.PrintConversion | kernel/libs/libc/stdio.cpp:750-1014 | one conversion sends its text and leaves the format pointer behind it, or the format ends |
| Printf.Gadget.FormatStringLoop | kernel/libs/libc/stdio.cpp:738-1015 | the loop sends exactly the text of the format, whatever the size of the buffer |
| Printf.ReadFlags | kernel/libs/libc/stdio.cpp:708-736 | parse_flags ends at the first character that is no flag, and sets each flag if and only if its character comes before |
| Printf.ReadNumber | kernel/libs/libc/stdio.cpp:183-188 | atou ends at the first character that is no digit, with the decimal value of the digits modulo 2^32 |
| Printf.Vsnprintf | kernel/libs/libc/stdio.cpp:1017-1033 | vsnprintf leaves the buffer exactly as a 32-bit position leaves it for a text of any length, which for a text below 2^32 is its first min(total, n - 1) characters and a NUL, touches nothing behind n, and returns a total that does not depend on n |
| PrintfBuffer.FilledAt | kernel/libs/libc/stdio.cpp:102-111 | a position holds the last character that was sent while the counter stood there |
| PrintfBuffer.FilledNot | kernel/libs/libc/stdio.cpp:102-111 | a position the counter never came to, or behind the limit, is as it was |
| PrintfBuffer.ShortIsStored | kernel/libs/libc/stdio.cpp:102-122 | a text shorter than 2^32 is stored as promised |
| PrintfBuffer.FirstIsLost | kernel/libs/libc/stdio.cpp:113-122 | a text of 2^32 characters loses its first one to the NUL |
| PrintfBuffer.LongIsLost | kernel/libs/libc/stdio.cpp:102-122 | for every length from 2^32 on there is a text that is not stored as promised |
| PrintfBuffer.StoredIff | kernel/libs/libc/stdio.cpp:102-122 | all texts of a length are stored as promised if and only if the length is below 2^32 or the buffer has room for the NUL alone |
| PrintfFields.AtouMeans | kernel/libs/libc/stdio.cpp:183-188 | the value of the digits up to the first character that is no digit, modulo 2^32 |
| PrintfFields.ParseFlagsMeans | kernel/libs/libc/stdio.cpp:708-736 | the flags whose characters come before the first that is none |
| PrintfFields.WideIsLost | kernel/libs/libc/stdio.cpp:1017-1033 | a format of two conversions and two characters that yields 2^32 characters and loses the first |
| PrintfProps.DigitsDenote | kernel/libs/libc/stdio.cpp:283-293 | the digits denote the value modulo base^32 |
| PrintfProps.DigitsExact | kernel/libs/libc/stdio.cpp:283-293 | every 64-bit value is printed in full in bases 8, 10 and 16, as its numeral |
| PrintfShape.IntegerShape | kernel/libs/libc/stdio.cpp:190-268 | without '#', an integer is sign, zeros and digits with blanks on the side asked for |
| PrintfShape.IntegerLength | kernel/libs/libc/stdio.cpp:190-268 | and is exactly max(width, sign + max(digits, precision)) characters long |
| PrintfShape.ConversionShape | kernel/libs/libc/stdio.cpp:838-908 | so it is for every integer conversion of every 64-bit argument in all four bases, and the digits denote the narrowed argument as far as 32 digits go |
| PrintfShape.BinaryInFullIff | kernel/libs/libc/stdio.cpp:283-293 | %b prints a value in full if and only if it fits 32 bits |
| PrintfShape.NarrowIs | kernel/libs/libc/stdio.cpp:872-880 | narrowing an argument keeps it modulo the width, in the signed range |
| PrintfShape.SignedPrints | kernel/libs/libc/stdio.cpp:862-880 | %d and %i print the magnitude of the narrowed argument, with a minus sign exactly when it is negative |
| PrintfShape.UnsignedPrints | kernel/libs/libc/stdio.cpp:881-908 | the unsigned conversions print the narrowed argument and never a sign |
| PrintfShape.StringTextLength | kernel/libs/libc/stdio.cpp:946-973 | %s is as long as its width or the part of the string that the precision allows |
| PrintfShape.CharTextLength | kernel/libs/libc/stdio.cpp:930-945 | %c is as long as its width, and at least one character |
| PrintfShape.PointerShape | kernel/libs/libc/stdio.cpp:974-987 | %p of a pointer other than null is 0x and sixteen hexadecimal digits that denote it |
| PrintfShape.AbsIsMagnitude | kernel/libs/libc/stdio.cpp:90-91 | the macro yields the magnitude, of the most negative number too |
| PrintfShape.LongText | kernel/libs/libc/stdio.cpp:738-1015 | %ld prints any 64-bit number as its decimal numeral |
| PrintfShape.Atoi | kernel/libs/libc/stdlib.cpp:23-33 | atoi returns the decimal value of the digits up to the first character that is none |
| PrintfShape.AtoiReadsLong | kernel/libs/libc/stdlib.cpp:23-33 | atoi gives back every non-negative long that %ld printed |
| PrintfShape.TotalIsLength | kernel/libs/libc/stdio.cpp:1022 | the returned int is the length of the text if and only if that is at most INT_MAX |

## Left out

- StepKeepsInv: the reference-counting code is a state machine on values rather than a class, because its operations interleave; memory order weaker than sequential consistency is not captured.
- RefCountSafety: deleters that throw, and the object's own contents.
- Init: of the boot sequence, the effect of loading CR3 and the feature probe; 1 GiB support is an arbitrary constant.
- UnmapEffect: large-page unmap, which always walks to a 4 KiB entry.
- SoftwareAgrees: software translation with large-page flags beyond the 2 MiB lemmas.
- UnmapRange: sizes within a page of 2^64, where the loop counter wraps and the loop does not end; large-page ranges.
- DestroyPagemap: address spaces with large pages in their lower half.
- Get: page numbers from 2^31 on, which the signed index of the source makes negative; the same holds of `Set`.
- RunKeepsTables: the page maps' writes are whole words at given entries; that they go through the direct map is not modelled.
- Malloc: `calloc`, a `malloc` followed by a `memset`.
- Realloc: a move to a size whose page count wraps while the pages behind are in use; what such a copy overwrites may be the header that `free` reads next.
- CrossAssignFreesUnderTarget: states in which other operations are still in flight; some of those can never end, two moves from one source for example.
- RemapRange: destinations that share a page with the source.
- OwnerWrite: blocks are written byte by byte; writes from several processors at once are not modelled, the allocator takes no lock.
- Vsnprintf: floating-point conversions, `%n`, and the sink that calls a function for each character.
- FormatStringLoop: a `*` width of INT_MIN counts as 2^31, where the source negates it in a signed int.
- Atoi: numbers that do not fit a long, where signed overflow is undefined.
- The `map_range` overload that only unmaps, `memmap.cpp`, `fork` and the destructor of page maps.
- `strtol`, `strtoll` and the string functions beyond `memset` and `memcpy`.
- Terminal, logger, panic output, descriptor tables, interrupt controllers and other hardware effects.
- The rest of libc++: vector, tuple, optional, mutex, iterators.
