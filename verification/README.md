# A verified model of the locos kernel's allocators, scheduler and device queues

This project models the parts of the locos kernel whose correctness rests on arithmetic and on
long-lived invariants, and proves what they keep over every run.

**Buddy allocators.** `Buddy.dfy` and `BuddyRuns.dfy` hold the theory that the three allocators
share: a geometry, blocks, a state of free and live blocks, and allocation and freeing as steps
between states. It makes no assumption on alignment. Over every run, free and live blocks are an
exact partition of the span and no two buddies are both free. On an aligned span the free set is a
function of the live set, so freeing everything in any order restores the single top block. Both
the agreement of merging with splitting and the allocate-and-free round trip hold at every level if
and only if the span is aligned. The classes are then proved to take exactly these steps:

- `HeapAlloc.dfy` is the kernel heap, whose lists are threaded through the free blocks in flat
  memory (`FreeLists.dfy`). No operation changes a word of a live block.
- `PageAlloc.dfy` is the virtual page allocator over queues.
- `FrameAlloc.dfy` is one physical frame allocator over a table of tagged, doubly linked nodes
  (`NodeLists.dfy`, `NodeTags.dfy`). A tag names exactly the list that holds the node. `Merging.dfy`
  states one merging step and a whole merge over snapshots of the allocator.
- `Carving.dfy`, `NodeTables.dfy` and `Forest.dfy` cut a memory map into frame allocators, initialise
  their node tables, and route requests to them.
- `ForeignTags.dfy` is about two neighbouring allocators of one region: exactly when the first takes
  the whole of the second for a buddy, and a memory map on which it does. `DoubleService.dfy`
  runs the forest into the consequence, and `TableEnd.dfy` is a memory map on which merging looks past the
  node table.

**Scheduler.** `Scheduler.dfy` is the round-robin scheduler as a state machine over its queue and
the slab of kernel stacks (`StackSlab.dfy`), with whole-run safety and an exact dispatch bound.

**Devices.** `PcieVmm.dfy` is the bitmap allocator for PCIe device memory, `NvmeQueue.dfy` the
phase-bit protocol of an NVMe completion ring (section 4.6 of NVM Express 1.3), and
`MsixPending.dfy` the MSI-X pending bit array (section 6.8.2 of PCI Local Bus Specification 3.0).

`Bits.dfy` defines exclusive or, and, or, shifts, population count and power-of-two rounding on
natural numbers, with the laws the rest relies on.

Each class keeps a ghost `live` component. It includes blocks that are in transit inside an
operation, so that `Valid()` holds between any two internal calls, also in the middle of the mutual
recursion of splitting.

## Where the code and its descriptions differ

- The comment on `allocate_contiguous_frames` says that it rounds up
  (kernel/src/memory/paging.rs:201). The level search does not: it accepts exactly the block sizes
  and, at the last level, anything smaller. The model follows the code.
- `merge_buddies` of a frame allocator undoes `split_level` only if the first node index is a
  multiple of the frame count (`XorUndoesSplitIffAligned`, `AlignedIffIndexMultiple`). The first
  allocator that `init` makes in any region never satisfies this (`FirstChunkIsMisaligned`). Its
  blocks still partition its frames exactly, but freeing everything need not restore the top block
  (`RoundTripIffAligned`).
- Allocators of one region share a node table, so a tag met while merging may have been written by
  another allocator. If merging is `Sheltered` from such tags, deallocation is the merging step of the
  theory. Otherwise `remove` unlinks a node from a list of another allocator while it shortens its own.
  It panics exactly if it meets such a node while the own list of that level is empty (`Underflows`).
  If it does not panic, the header of that list counts one node too few. It names the next foreign node
  if the buddy was first on its list, and the old head otherwise (`Strays`, `StrayedHeader`). The nodes of
  both lists stay linked, the other allocator's header is not told, and no choice of free blocks makes the
  allocator valid again (`DeallocateContiguousFrames`).
- For two neighbours of which the first is twice as large, freeing its upper half is unsafe exactly if
  its first node index modulo its frame count is at least the frame count of the second
  (`ShelteredIffRemainder`). The last two allocators of an eight-mebibyte region are such a pair. After
  such a free both allocators hand out the same frames (`ServeTwice`), and a run of the forest gets there
  (`HandOutTwice`).
- Merging may read one node past the entries of the table that `fill_page_list` writes
  (`ReadsPastEntries`). As long as it stays inside the span it never reads outside the reserved pages
  (`BuddyInTable`). Once it has left the span it can: it may take the first bytes of a managed frame for a
  tag (`LeavesTable`).
- An NVMe submission queue never frees a slot, because its head never moves. `SubmitCommand` states
  the resulting limit.
- `schedule_inner` dispatches the front task even if it is waiting, so waiting tasks are not parked.
  The dispatch bound holds for them too.
- `exit_task` does not check that the caller is not the boot task. The scheduler's invariant
  survives an exit if and only if it is not (`StepInv`, `ExitTask`).

## Model

| member | source | states |
|---|---|---|
| `Buddy.BuddyIsXor` | kernel/src/memory/alloc.rs:243-245 | the buddy used throughout, the neighbour on the other side of an even boundary, is the exclusive or of the offset with the block size |
| `Buddy.BuddyIsAdjacent` | kernel/src/memory/paging.rs:181-185 | at any alignment the buddy is an adjacent block of equal size on the same unit grid, and the buddy of the buddy is the block |
| `Buddy.BuddyOnGrid` | kernel/src/memory/alloc.rs:455-459 | on the grid a block is a left half exactly when its offset is a multiple of the parent's size, and parent and buddy are on the grid |
| `Buddy.HalveInv` | kernel/src/memory/paging.rs:164-169 | replacing a block by its two halves keeps the exact partition and the grid |
| `Buddy.FuseInv` | kernel/src/memory/paging.rs:188-194 | replacing two buddies by the block at the lower address keeps the exact partition and the grid, at any alignment |
| `BuddyRuns.MergeInv` | kernel/src/memory/alloc.rs:238-259 | merging a returned block as far up as possible keeps the exact partition and leaves no two buddies free |
| `BuddyRuns.CarveInv` | kernel/src/memory/alloc.rs:209-232 | splitting down from the nearest non-empty level keeps the exact partition and leaves no two buddies free |
| `BuddyRuns.StepInv` | kernel/src/memory/alloc.rs:209-259 | every allocation, failed allocation and free keeps the invariant |
| `BuddyRuns.RunInv` | kernel/src/memory/alloc.rs:209-259 | in every state of every run free and live blocks partition the span exactly and no two buddies are both free |
| `BuddyRuns.FreeDeterminedByLive` | kernel/src/memory/alloc.rs:238-259 | on an aligned span two states with the same live blocks have the same free blocks |
| `BuddyRuns.RunsAgree` | kernel/src/memory/alloc.rs:413-470 | two runs that end with the same live blocks end in the same state, whatever their order of requests |
| `BuddyRuns.AllFreedRestoresTop` | kernel/src/memory/alloc.rs:413-470 | on an aligned span every run that frees everything ends with the single top block free |
| `BuddyRuns.XorUndoesSplitIffAligned` | kernel/src/memory/paging.rs:160-199 | merge's exclusive or names the half that split added, for every block and level, if and only if the span is aligned |
| `BuddyRuns.RoundTripIffAligned` | kernel/src/memory/paging.rs:160-199 | taking one block from the fresh span and giving it back restores it, for every level, if and only if the span is aligned |
| `BuddyRuns.MergeStaysInsideIff` | kernel/src/memory/paging.rs:181-194 | with arbitrary foreign tags around, the block that following the tags leads to is inside the span if and only if every tagged buddy met on the way is |
| `BuddyRuns.ForeignUnderflows` | kernel/src/memory/paging.rs:187-194 | sheltered merging never shortens an empty list, and unsheltered merging does at the latest if the own list is empty at the first foreign buddy |
| `BuddyRuns.AlignedIsSheltered` | kernel/src/memory/paging.rs:176-199 | on an aligned span foreign tags never matter |
| `BuddyRuns.GridIsAligned` | kernel/src/memory/alloc.rs:270-285 | a block on the grid is aligned to every power of two up to its size |
| `BuddyRuns.ExactLevelUnique` | kernel/src/memory/alloc.rs:397-405 | the page level search accepts a size at one level only |
| `BuddyRuns.PowerHasLevel` | kernel/src/memory/alloc.rs:397-405 | every power of two up to the region size is found: at the level of that size, or at the last level if it is smaller than every block |
| `BuddyRuns.ExactLevelIsSnug` | kernel/src/memory/alloc.rs:478-484 | the level found for a rounded size has the smallest blocks that hold the request |
| `BuddyRuns.SnugIsExactLevel` | kernel/src/memory/alloc.rs:524-534 | and that level is the only one the search finds for it |
| `BuddyRuns.NothingFits` | kernel/src/memory/alloc.rs:209-232 | when the search for a block fails, every free block is smaller than the request |
| `FreeLists.FreeList.Push` | kernel/src/memory/freelist.rs:24-31 | the list denotes the new node followed by the old nodes, its length is exact, and only the new node's word is written |
| `FreeLists.FreeList.Pop` | kernel/src/memory/freelist.rs:34-42 | returns the first node and keeps the rest linked, or nothing on the empty list |
| `FreeLists.FreeList.Exists` | kernel/src/memory/freelist.rs:45-55 | the walk ends and answers membership exactly |
| `FreeLists.FreeList.Remove` | kernel/src/memory/freelist.rs:60-80 | unlinks exactly the given node, keeps the order of the others, leaves all words outside the list alone, and does nothing if the node is not there |
| `HeapAlloc.HeapGeometry` | kernel/src/memory/alloc.rs:60-67 | the kernel's heap starts at a multiple of its size, and 21 levels of 16-byte units make 16 MiB |
| `HeapAlloc.BlockSizeIsSize` | kernel/src/memory/alloc.rs:151-158 | shifting the largest size right gives the block size of each level |
| `HeapAlloc.RequestIsLeast` | kernel/src/memory/alloc.rs:272 | the size requested for a layout is the least power of two below neither its size nor its alignment |
| `HeapAlloc.RequestFits` | kernel/src/memory/alloc.rs:272 | a block has the requested size exactly if it has both the size and the alignment |
| `HeapAlloc.KeptWord` | kernel/src/memory/alloc.rs:262-296 | what the operations keep is every word of every live block and every word outside the heap |
| `HeapAlloc.LevelForUnique` | kernel/src/memory/alloc.rs:192-203 | there is one best level per size, so freeing finds the level that allocating used |
| `HeapAlloc.HeapAlloc.constructor` | kernel/src/memory/alloc.rs:173-187 | the heap starts as one free block, with valid lists |
| `HeapAlloc.HeapAlloc.GetLevelFromSize` | kernel/src/memory/alloc.rs:192-203 | the deepest level whose blocks hold the size, and none exactly when the size exceeds the heap |
| `HeapAlloc.HeapAlloc.GetFreeBlock` | kernel/src/memory/alloc.rs:209-214 | succeeds exactly if a list at this level or above is non-empty, takes the front block of the nearest one, leaves one half on each level passed and every other list as it was, changes nothing on failure, and changes no word of a live block |
| `HeapAlloc.HeapAlloc.SplitLevel` | kernel/src/memory/alloc.rs:220-232 | the same, starting from an empty level |
| `HeapAlloc.HeapAlloc.MergeBuddies` | kernel/src/memory/alloc.rs:238-259 | is the merging step of the theory, puts the merged block in front of its list, takes one entry off every list it passed without changing any order, and changes no word of a live block |
| `HeapAlloc.HeapAlloc.Alloc` | kernel/src/memory/alloc.rs:270-285 | succeeds exactly if some free block has the size and the alignment; takes the smallest kind of block that has both, at a multiple of the alignment; null changes nothing |
| `HeapAlloc.HeapAlloc.Dealloc` | kernel/src/memory/alloc.rs:287-296 | given the smallest kind of block that has the size and the alignment, recovers its level and performs the merging step, changing no word of a live block; a layout larger than the heap changes nothing |
| `HeapAlloc.HeapAlloc.ClientWrite` | kernel/src/memory/alloc.rs:262-269 | an owner may overwrite its own block without disturbing the lists inside free blocks |
| `PageAlloc.PageAllocator.constructor` | kernel/src/memory/alloc.rs:346-376 | the region starts as one free block |
| `PageAlloc.PageAllocator.GetLevelFromSize` | kernel/src/memory/alloc.rs:397-405 | returns a level exactly if the size is its block size or, at the last level, smaller |
| `PageAlloc.PageAllocator.GetFreeBlock` | kernel/src/memory/alloc.rs:413-419 | succeeds exactly if a queue at this level or above is non-empty, takes the front block of the nearest one, leaves one half on each level passed and every other queue as it was, and changes nothing on failure |
| `PageAlloc.PageAllocator.SplitLevel` | kernel/src/memory/alloc.rs:427-440 | the same, starting from an empty level |
| `PageAlloc.PageAllocator.MergeBuddies` | kernel/src/memory/alloc.rs:447-470 | is the merging step of the theory, puts the merged block at the back of its queue, and takes one entry off every queue it passed without changing any order |
| `PageAlloc.PageAllocator.AllocatePages` | kernel/src/memory/alloc.rs:478-490 | reserves the smallest kind of block that holds the pages; panics exactly if no free block holds them |
| `PageAlloc.PageAllocator.DeallocatePages` | kernel/src/memory/alloc.rs:524-552 | given the smallest kind of block that holds the pages, finds its level and performs the merging step, queueing the merged block at the back |
| `PageAlloc.RegionSize` | kernel/src/memory/alloc.rs:37-41 | the region is the least power of two that is at least one page and at least the installed memory |
| `PageAlloc.InitPageAllocator` | kernel/src/memory/alloc.rs:32-50 | the computed number of levels is the one the constructor insists on, for every amount of memory |
| `NodeLists.DoubleFreeList.Push` | kernel/src/memory/freelist.rs:126-137 | the list denotes the new node followed by the old ones, next and prev stay mutually inverse, and only the new node changes its tag |
| `NodeLists.DoubleFreeList.Pop` | kernel/src/memory/freelist.rs:140-158 | hands out what the head names; on a well-formed list that is its first node, untagged and unlinked, and the rest stays linked both ways |
| `NodeLists.DoubleFreeList.Remove` | kernel/src/memory/freelist.rs:178-196 | unlinks a node from whichever list really holds it, while the head and length that change are those of the list it is called on; panics exactly if that length is zero |
| `NodeLists.UnlinkedIsLinked` | kernel/src/memory/freelist.rs:178-196 | if that is the same list, the rest stays linked both ways, in order, with the exact length |
| `NodeTags.Strays` | kernel/src/memory/freelist.rs:178-196 | unlinking the k-th node of a foreign list leaves the own list linked under a header that is one short, with the next foreign node as head if k is zero and the old head otherwise, and the rest of the foreign list linked |
| `NodeTags.StrayedHeader` | kernel/src/memory/freelist.rs:181-195 | that header names a foreign node or nothing if k is zero; otherwise it names the old head and no list at all has its length |
| `NodeTags.ShortIsNeverTidy` | kernel/src/memory/freelist.rs:195-207 | a header that counts fewer nodes than still carry the tag of its level fits no choice of free and live blocks |
| `FrameAlloc.TagIffListed` | kernel/src/memory/freelist.rs:198-207 | in every valid state a node of the span has the tag of a size exactly if it is in the list of that size |
| `FrameAlloc.AlignedIffIndexMultiple` | kernel/src/memory/paging.rs:114-116 | the span is aligned if and only if its first node index is a multiple of its frame count |
| `FrameAlloc.LevelOfBytesUnique` | kernel/src/memory/paging.rs:140-148 | the frame level search accepts a size at one level only |
| `FrameAlloc.FrameAllocator.constructor` | kernel/src/memory/paging.rs:97-131 | the allocator starts with one free block on its own nodes, and touches no other node |
| `FrameAlloc.FrameAllocator.GetLevelFromSize` | kernel/src/memory/paging.rs:140-148 | returns a level exactly if the size is its block size in bytes or, at the last level, smaller |
| `FrameAlloc.FrameAllocator.GetFreeBlock` | kernel/src/memory/paging.rs:151-157 | succeeds exactly if a list at this level or above is non-empty, takes the front block of the nearest one, leaves one half on each level passed and every other list as it was, changes nothing on failure, and touches only its own nodes |
| `FrameAlloc.FrameAllocator.SplitLevel` | kernel/src/memory/paging.rs:160-173 | the same, starting from an empty level |
| `FrameAlloc.FrameAllocator.MergeBuddies` | kernel/src/memory/paging.rs:176-199 | if sheltered from foreign tags it is the merging step of the theory at any alignment, keeping tags exact and touching only its own nodes; in every case it panics exactly if it meets a foreign buddy while the own list of that level is empty, and otherwise files the merged block at the front of its level, shortens by one the list of every level it passed and leaves the rest alone |
| `FrameAlloc.FrameAllocator.AllocateContiguousFrames` | kernel/src/memory/paging.rs:202-212 | succeeds exactly if the count is zero or a power of two and some free block has the frames; hands out the smallest kind of block that does, page aligned and wholly between `virt_start` and `virt_end`; failing changes nothing |
| `FrameAlloc.FrameAllocator.Locate` | kernel/src/memory/paging.rs:219-228 | recovers the node and level that allocating used |
| `FrameAlloc.FrameAllocator.DeallocateContiguousFrames` | kernel/src/memory/paging.rs:218-230 | performs the merging step if sheltered; otherwise panics exactly as merging does, and without a panic leaves the header of the first foreign level as `Strays` says and lists that no choice of free and live blocks could make valid |
| `FrameAlloc.FrameAllocator.ServeWhole` | kernel/src/memory/paging.rs:151-157 | in any state of the lists a request for the whole span gets the frames that the head of level 0 names, since that level cannot be split |
| `Carving.TableFits` | kernel/src/memory/paging.rs:265-271 | the reserved pages are the fewest that hold the node table and never exceed the region, so the subtraction does not underflow |
| `Carving.ChunksAreLaid` | kernel/src/memory/paging.rs:273-301 | the chunks are disjoint, in order, inside the run, of strictly decreasing power-of-two sizes, and exactly `remaining mod min` frames go unmanaged |
| `Carving.ChunksAreHighBits` | kernel/src/memory/paging.rs:273-301 | there is a chunk of `2^k` frames exactly if that is at least the minimum and bit `k` of the frame count is set |
| `Carving.ChunksAdjoin` | kernel/src/memory/paging.rs:297-300 | each chunk starts where the one before it ends |
| `Carving.ChunksDivide` | kernel/src/memory/paging.rs:273-301 | a chunk with which carving uses up the region divides the number of its frames |
| `Carving.RegionIsLaid` | kernel/src/memory/paging.rs:257-302 | all of this inside one region, past its node table |
| `Carving.FirstChunkIsMisaligned` | kernel/src/memory/paging.rs:267-301 | in every region large enough to carve, the first allocator's node index is strictly between zero and its frame count, so its span is not aligned |
| `Carving.LargestPowerOfTwo` | kernel/src/memory/paging.rs:280-283 | the doubling loop finds the largest power of two not above the count |
| `Carving.EveryRegionCarved` | kernel/src/memory/paging.rs:257-302 | every chunk of every region is among the chunks of the map |
| `Carving.OnlyRegionsCarved` | kernel/src/memory/paging.rs:257-302 | and each of those comes from some region |
| `Carving.AllChunksSum` | kernel/src/memory/paging.rs:257-302 | the chunks of a map add up to what each usable region has left after its table, less the remainder modulo the minimum: no other frame goes unmanaged |
| `Carving.CarveRegions` | kernel/src/memory/paging.rs:257-302 | the nested loops end with exactly the chunks of all usable regions, adding up to all manageable frames, or panic exactly if there are more than the capacity |
| `Carving.SortByFrames` | kernel/src/memory/paging.rs:304-305 | the result is a permutation in descending order of size |
| `Carving.AllChunksWellCarved` | kernel/src/memory/paging.rs:257-302 | for every memory map of disjoint page-aligned regions, all chunks are disjoint and each lies in its region past the node table |
| `NodeTables.BuddyInTable` | kernel/src/memory/paging.rs:181-187 | for a block inside the span, the node computed as its buddy's lies in the reserved pages of the region, and past the entries of the table exactly if its block is an even one of its size that ends with the last whole frame |
| `NodeTables.ReadyFromTable` | kernel/src/memory/paging.rs:267-271 | mapped, untagged reserved pages are all that an allocator needs, for every region and chunk |
| `NodeTables.FillPageList` | kernel/src/memory/paging.rs:32-74 | the loops write a blank node for every frame of every usable region that starts above zero and is longer than four pages, and change nothing else |
| `NodeTables.SkippedIsCarvedOnlyAtZero` | kernel/src/memory/paging.rs:49-52 | with at least four frames per allocator, a skipped region that is carved all the same starts at address zero |
| `Forest.NodesOutsideFrames` | kernel/src/memory/paging.rs:267-271 | no node of any allocator lies in a frame of any allocator |
| `Forest.CarvedApart` | kernel/src/memory/paging.rs:285-300 | different chunks have disjoint frames and disjoint nodes, also when they share a table |
| `Forest.FrameForest.OthersStayValid` | kernel/src/memory/paging.rs:344-348 | an operation of one allocator on its own nodes keeps every other allocator valid |
| `Forest.FrameForest.TagsAreHeld` | kernel/src/memory/paging.rs:187-188 | every tag outside an allocator's span was written by another, on whose list the node is |
| `Forest.FrameForest.AllocateContiguousPages` | kernel/src/memory/paging.rs:339-351 | the first allocator with a free block of that many frames serves, with the smallest kind of block that has them, page aligned and inside its own range, and no other is affected; it fails, changing no list and no node, exactly if none has one |
| `Forest.FrameForest.DeallocateContiguousPages` | kernel/src/memory/paging.rs:357-371 | reaches the one allocator that issued the address; there it is the merging step if sheltered, and otherwise panics or leaves that allocator astray exactly as its own deallocation does; the headers of the others never change |
| `Forest.FrameForest.LiveFramesDisjoint` | kernel/src/memory/paging.rs:339-371 | in every valid state frames that are live at the same time are disjoint, within and across allocators |
| `Forest.BuildForest` | kernel/src/memory/paging.rs:307-326 | every chunk gets its own fresh allocator, or it panics exactly if some chunk needs too many levels |
| `Forest.ForestCovers` | kernel/src/memory/paging.rs:307-326 | whatever the order of the allocators, each chunk of each region has its own, and together they manage every manageable frame |
| `Forest.InitForest` | kernel/src/memory/paging.rs:244-333 | for every memory map the forest holds one fresh allocator per chunk of every region, largest first and all apart, together managing every manageable frame, or it panics exactly if capacity or levels run out |
| `Forest.InitFrameAllocator` | kernel/src/memory/paging.rs:427-436 | filling the tables and then carving with the kernel's constants builds such a forest, whatever the entries held before |
| `ForeignTags.ConsecutiveChunks` | kernel/src/memory/paging.rs:273-301 | consecutive chunks of any region whose sizes are two to one are such a pair of spans |
| `ForeignTags.UpperBuddy` | kernel/src/memory/paging.rs:181-185 | the upper half's buddy is the whole sibling exactly if the first node index modulo the frame count is at least the sibling's frame count, and the lower half otherwise |
| `ForeignTags.ShelteredIffRemainder` | kernel/src/memory/paging.rs:187-194 | with the sibling untouched, freeing the upper half is safe exactly if that remainder is smaller |
| `ForeignTags.HalvesComeAndGo` | kernel/src/memory/paging.rs:202-230 | the first allocator can hand out both halves and take the lower one back |
| `ForeignTags.SiblingIsSwallowed` | kernel/src/memory/paging.rs:176-199 | in the unsafe case the sibling is the first foreign buddy, merging panics exactly if nothing is listed at that level, and otherwise makes a block that leaves the span and contains the sibling |
| `ForeignTags.FreeingUpperHalf` | kernel/src/memory/freelist.rs:178-196 | of two valid allocators of this kind, with the second untouched: freeing the upper half panics while the lower one is handed out, and does not once it is free |
| `ForeignTags.ServeTwice` | kernel/src/memory/paging.rs:202-230 | after that free the first allocator serves twice its half from the upper half on, and the second serves the second part of the same frames |
| `DoubleService.HandOutTwice` | kernel/src/memory/paging.rs:339-371 | in any valid forest with a fresh pair of the unsafe kind, handing out both halves, taking the lower one back and freeing the upper one ends with both allocators serving the same frames |
| `ForeignTags.PanicsLater` | kernel/src/memory/freelist.rs:178-196 | merging may get past one foreign buddy and panic at the next |
| `ForeignTags.RegionEndsWithPair` | kernel/src/memory/paging.rs:257-302 | carving any region whose table leaves `2^(k+1) - 2^j + 2^i` frames ends with an allocator of `2^j` frames followed by one of `2^i` |
| `ForeignTags.EightMebibytes` | kernel/src/memory/paging.rs:267-271 | an eight-mebibyte region is such a region, and its pair is of the unsafe kind |
| `ForeignTags.ReadsPastEntries` | kernel/src/memory/paging.rs:181-187 | in a region of one more frame a block of the last allocator has its buddy's node past the entries of the table |
| `TableEnd.LooksAtEnd` | kernel/src/memory/paging.rs:181-194 | merging a block that ends at a node goes left through tagged blocks up to the size that divides the node's index an odd number of times, without a panic, and then looks at that node itself |
| `TableEnd.RegionEnds` | kernel/src/memory/paging.rs:267-301 | a region of 260096 frames fills its table pages exactly, and ends with allocators of 4096 and 16 frames |
| `TableEnd.StateInv` | kernel/src/memory/paging.rs:202-230 | the state of the larger allocator in the next row is a coalesced exact partition |
| `TableEnd.LeavesTable` | kernel/src/memory/paging.rs:181-194 | there, with the smaller allocator untouched, freeing the last 16 frames does not panic and looks at the node past the reserved pages, where the first managed frame begins |
| `StackSlab.TopAddress` | kernel/src/tasks/kernelslab.rs:74-106 | the masked address handed out for a block is its highest 16-byte aligned address |
| `StackSlab.BlockOfStackTop` | kernel/src/tasks/kernelslab.rs:116-120 | the block index recovered from an address is the one encoded in it |
| `StackSlab.IndexOfAddress` | kernel/src/tasks/kernelslab.rs:119-120 | masking and dividing recovers the block that an address lies in |
| `StackSlab.StacksDisjoint` | kernel/src/tasks/kernelslab.rs:74-86 | stacks of different blocks are disjoint, with a guard page between them |
| `StackSlab.KernelSlab.GetStack` | kernel/src/tasks/kernelslab.rs:65-110 | takes the lowest free block; fails exactly if all 128 are taken or mapping fails, and then nothing changes |
| `StackSlab.KernelSlab.ReturnStack` | kernel/src/tasks/kernelslab.rs:116-125 | clears the bit of the address's block and no other |
| `Scheduler.BootEstablishes` | kernel/src/tasks/scheduler.rs:28-65 | adding the boot task in front establishes the invariant, whatever tasks were created before |
| `Scheduler.TickInv` | kernel/src/tasks/scheduler.rs:593-652 | each tick leaves exactly one running task, at the front, and keeps the invariant |
| `Scheduler.TickMoves` | kernel/src/tasks/scheduler.rs:593-652 | a tick leaves the interrupted task, unless it finished, at the back with its identity, stacks and address space, the registers it was interrupted with, and waiting exactly if it was waiting; the next task runs at the front, and the others move up unchanged |
| `Scheduler.BehindFront` | kernel/src/tasks/scheduler.rs:408-450 | no step touches a task behind the front except that a wake-up for its interrupt readies it |
| `Scheduler.WakeAllIsPointwise` | kernel/src/tasks/scheduler.rs:425-432 | waking changes exactly the tasks that wait for the interrupt, in place |
| `Scheduler.StepInv` | kernel/src/tasks/scheduler.rs:408-450 | every step keeps the invariant, except exactly the exit of the boot task |
| `Scheduler.RunInv` | kernel/src/tasks/scheduler.rs:593-670 | over all runs the boot task stays queued, only the front is running or terminated, a stack bit is set exactly if one queued task owns that block, and the loaded registers are the front task's |
| `Scheduler.StaysWaiting` | kernel/src/tasks/scheduler.rs:408-432 | over all runs a waiting task goes on waiting until a wake-up for its interrupt or until it comes to the front |
| `Scheduler.DispatchedAfter` | kernel/src/tasks/scheduler.rs:593-652 | whatever happens in between, a task at place k is at place k - n after n ticks, and after k ticks runs with its saved registers in its own address space |
| `Scheduler.NotDispatchedBefore` | kernel/src/tasks/scheduler.rs:593-652 | and it is not at the front any earlier |
| `Scheduler.ResumesWhereSuspended` | kernel/src/tasks/scheduler.rs:624-670 | a suspended task resumes with exactly the registers and address space it was interrupted with, one tick per other queued task later |
| `Scheduler.CreateBeforeBoot` | kernel/src/tasks/scheduler.rs:71-109 | tasks created before the boot task keep what its creation relies on |
| `Scheduler.TaskScheduler.KInitMultitasking` | kernel/src/tasks/scheduler.rs:28-65 | the queue gains the boot task, running, at the front, with the others in order behind it, and the invariant holds |
| `Scheduler.TaskScheduler.KCreateTask` | kernel/src/tasks/scheduler.rs:71-109 | queues at the back a ready task on the lowest free stack that starts at the entry point with cleared registers, the given segments and interrupts on; panics, changing nothing, exactly without a stack |
| `Scheduler.TaskScheduler.UCreateTask` | kernel/src/tasks/scheduler.rs:189-301 | the same for a user task on its own stack, whose entry point must be in user space |
| `Scheduler.TaskScheduler.KYieldTask` | kernel/src/tasks/scheduler.rs:408-420 | marks the front task as waiting and changes nothing else |
| `Scheduler.TaskScheduler.ExitTask` | kernel/src/tasks/scheduler.rs:438-450 | marks the front task as terminated; the invariant survives exactly if it is not the boot task |
| `Scheduler.TaskScheduler.WakeTasks` | kernel/src/tasks/scheduler.rs:425-432 | the loop readies exactly the tasks waiting for the interrupt |
| `Scheduler.TaskScheduler.ScheduleInner` | kernel/src/tasks/scheduler.rs:593-670 | is the tick step: saves or drops the interrupted task, returns the stack of a finished one, loads the next task's registers and address space, and leaves every task as `TickMoves` says |
| `PcieVmm.Vmm.constructor` | kernel/src/pci/vmm.rs:61-67 | starts with no bit set and no mapping |
| `PcieVmm.Vmm.IsPageAllocated` | kernel/src/pci/vmm.rs:214-225 | true exactly for set bits and pages beyond the region |
| `PcieVmm.Vmm.IsRangeFree` | kernel/src/pci/vmm.rs:178-185 | true exactly for the empty range and for runs of clear bits inside the region |
| `PcieVmm.Vmm.FindFreePages` | kernel/src/pci/vmm.rs:158-175 | finds the first free run from the hint on, wrapping around, and none exactly if no free run of that length exists |
| `PcieVmm.Vmm.SetPageAllocated` | kernel/src/pci/vmm.rs:188-198 | sets exactly the bit of the page |
| `PcieVmm.Vmm.SetPageFree` | kernel/src/pci/vmm.rs:201-211 | clears exactly the bit of the page |
| `PcieVmm.Vmm.MapMemoryBar` | kernel/src/pci/vmm.rs:70-125 | says which outcome occurs when; on success exactly the bits of one free run, the fewest pages that hold the size, become set and live, and otherwise nothing changes; without room every run that could hold the size meets a live mapping |
| `PcieVmm.PagesForCovers` | kernel/src/pci/vmm.rs:80-81 | a mapping takes the fewest pages that hold its bytes |
| `PcieVmm.FreeRunIffClear` | kernel/src/pci/vmm.rs:178-185 | a run of pages is free exactly if no live mapping reaches into it |
| `PcieVmm.Vmm.LiveBarsDisjoint` | kernel/src/pci/vmm.rs:70-155 | the bytes of two BARs mapped at the same time are disjoint and inside the region |
| `PcieVmm.Vmm.UnmapBar` | kernel/src/pci/vmm.rs:128-155 | recovers the run from address and size and clears exactly its bits; a live run is dropped, and any other leaves bits and mappings in agreement exactly if none of its pages was allocated |
| `PcieVmm.UnmapUndoesMap` | kernel/src/pci/vmm.rs:70-155 | mapping and unmapping restores the bitmap word for word |
| `PcieVmm.MapExact` | kernel/src/pci/vmm.rs:98-101 | marking a free run keeps live ranges disjoint, equal to the set bits, and summing to their count |
| `PcieVmm.UnmapExact` | kernel/src/pci/vmm.rs:136-141 | clearing a live run does too |
| `PcieVmm.Vmm.CountAllocatedPages` | kernel/src/pci/vmm.rs:228-251 | the masked population counts add up to the pages of all live mappings |
| `NvmeQueue.Queue.constructor` | kernel/src/pci/nvme/controller.rs:122-154 | a zeroed queue of any positive size expects phase one and has delivered nothing |
| `NvmeQueue.Queue.SubmitCommand` | kernel/src/pci/nvme/controller.rs:157-177 | stores the command under its slot number, and refuses exactly when `size - 1` commands have been accepted |
| `NvmeQueue.PhaseBitIsParity` | kernel/src/pci/nvme/commands.rs:156-159 | the phase tag is the lowest bit of the status |
| `NvmeQueue.SlotOfPass` | kernel/src/pci/nvme/controller.rs:180-200 | in the ring order of the protocol the entry at place i of pass p goes to slot i, and the expected phase is one on even passes |
| `NvmeQueue.PhaseTells` | kernel/src/pci/nvme/commands.rs:157-169 | the phase tag of the next slot matches exactly if the next completion has been posted, in any pass |
| `NvmeQueue.Queue.CheckCompletion` | kernel/src/pci/nvme/controller.rs:180-200 | delivers every posted completion once and in order, and none exactly if all have been delivered |
| `MsixPending.LittleEndianBit` | kernel/src/pci/msi.rs:440-441 | bit j of a word read from the array is bit j mod 8 of byte j div 8 |
| `MsixPending.PendingBelowExact` | kernel/src/pci/msi.rs:431-455 | the list of pending vectors is strictly ascending and holds exactly the vectors whose bit is set |
| `MsixPending.MsixInfo.IsVectorPending` | kernel/src/pci/msi.rs:458-471 | answers bit i mod 8 of byte i div 8, or which error |
| `MsixPending.MsixInfo.ReadPendingVectors` | kernel/src/pci/msi.rs:431-455 | returns that list for every table size and content |
| `MsixPending.MsixInfo.GetPendingCount` | kernel/src/pci/msi.rs:474-497 | the masked population counts add up to the length of that list |
| `MsixPending.MsixInfo.HasPendingInterrupts` | kernel/src/pci/msi.rs:500-502 | true exactly if some vector's bit is set |
| `MsixPending.MsixInfo.ZeroPba` | kernel/src/pci/msi.rs:236-245 | zeroes exactly the bytes that hold a vector, after which none is pending, though the array is read in words |

## Left out

- Page tables, TLB flushes, CR3 writes, MSRs, port input and output, naked assembly, and the IDT, GDT and APIC: hardware. `mapped`, `mapOk` and `unmapOk` stand for the outcome of mapping.
- PageAlloc.PageAllocator.AllocatePages: does not model the loop that maps frames, nor a mapping error midway, which loses the block; `None` stands for the two panics.
- PageAlloc.PageAllocator.DeallocatePages: does not model the loop that unmaps frames.
- StackSlab.KernelSlab.GetStack: does not model which pages were mapped before a failure, nor that a returned stack stays mapped so that mapping it again would fail.
- PcieVmm.Vmm.MapMemoryBar: does not model which pages were mapped before a failure.
- Scheduler.TaskScheduler.UCreateTask: does not model loading code or building the user address space; their outcome is part of `mapped`.
- Scheduler.TaskScheduler.ScheduleInner: does not model freeing a user task's page tables, nor loading its kernel stack for interrupts and system calls.
- HeapAlloc.HeapAlloc.constructor: takes the heap to start at a multiple of its size, as the kernel's own does (`HeapGeometry`), and its first word to read as `None`, since the source installs that node as list head without writing it.
- NodeLists.DoubleFreeList.Remove: stops at the panic on a zero length, as a build with overflow checks does; what a build that wraps around would do next is not modelled.
- NodeLists.DoubleFreeList.Pop: takes the nodes it follows to be readable and the length not to be zero while there is a head, which holds of every well-formed list.
- FrameAlloc.FrameAllocator.constructor: takes its own nodes to be untagged and every computed buddy's node to be readable; `ReadyFromTable` derives both for every chunk.
- FrameAlloc.FrameAllocator.DeallocateContiguousFrames: takes the nodes that unsheltered merging looks at to be readable (`Reaches`), since the source reads them unchecked; for sheltered merging this is derived, and `LeavesTable` is an unsheltered merge that needs more than the table. What client data read as a tag would lead to is not modelled.
- Forest.FrameForest.DeallocateContiguousPages: takes the same of unsheltered merging, and a managed address where the source panics otherwise.
- Forest.InitFrameAllocator: takes what `fill_page_list` does not write, the padding of the last table page and the tables of skipped regions, to read as untagged.
- NvmeQueue.Queue.constructor: promises nothing of a queue of size zero, which divides by zero at the first submission, and takes the queue's memory to be owned by the queue; the lifetime of the DMA buffer is not modelled.
- Integer widths: addresses and sizes are natural numbers, so their additions and products never overflow. The subtraction of a list length in `remove`, which can underflow, is modelled as a panic. Bitmaps are modelled with their 64- and 128-bit widths.
- Locks and interrupts inside one call: every operation is atomic, as the source's mutexes make it.
- List headers are values that the operations take and return, as the source copies them; the nodes they point to are mutable state.
- A task's `id` exists only in the model, to name tasks across a run; no operation reads it except to tell the boot task apart in contracts.
- The physical-address wrappers of the forest and the single-frame interface: they only subtract or add the direct-map offset.
- User stack growth, page-table teardown and capability parsing: hardware state, or loops without a bound of their own.
- Keyboard tables, xHCI, BAR probing, ECAM addressing, system calls, console, logging and VMM statistics: they would add only easy members.
