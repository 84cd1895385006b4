# A verified model of PentinumOS's kernel core

A Dafny 4.11 model of the parts of PentinumOS that keep memory and threads in order, with proofs of
what they guarantee over whole runs. `dafny verify dfyconfig.toml` checks everything. The kernel's
code changes state in place, and so does the model: each operation is a method on the source's own
structures, proved to do what a function on values says, and the theorems are about those functions
and about runs of them.

**Physical pages** (`PageTree`, `Marking`, `Buddy`, `PageMgr`, `PageRuns`, `Teardown`). The buddy allocator is a
heap tree of nodes with parent pointers and cached flags, split lazily and merged when blocks are
freed. Its value is a tree of leaves; the explicit-stack search, the split, the climb that recomputes
summaries and the merge are proved against recursive functions on that tree. The central invariant of
a run is `Undo`: freeing everything that is live would give back the tree the run began with. From it
follow that a free undoes its allocation exactly and that live blocks are disjoint USED leaves.
`Marking` describes the calls of `ba_mark_pages` round by round, and `Teardown` says exactly when
destroying a context is right.

**Address spaces** (`Paging`, `AddressSpace`, `Contexts`, `Template`). Page tables lie in a memory of
frames; their value is a map from virtual pages to frames. `pmgr_alloc_pages` joins them to the
allocator. `Contexts` runs several contexts over one tree and proves that none gets at the frames,
page tables or blocks of another. The template page table is proved to mirror the buddy tree page by
page.

**Threads** (`SleepHeap`, `Timer`, `Queue`, `Threads`, `ThreadInv`, `ThreadSteps`, `ThreadRuns`, `ThreadProps`,
`ThreadLaws`, `ThreadEffects`, `ThreadWitness`, `Kernel`). Every call runs with preemption off on one CPU, so it is one step; a call
that blocks ends in the scheduler and is finished by `Resume` when its thread runs again. The
invariant says for every thread, by counting, that it is once in the place its status names and in no
other. `Allowed` lists what clients owe; under it no panic is reachable in any run, mutexes and remote
calls are first come, first served, and answers reach their callers. `ThreadEffects` says what each call
does to every thread, queue and answer without the functions of the calls. `ThreadWitness` is a run that ends
where the calls listed below fail. `Kernel` is the code, with the ready queues as linked lists.

**Kernel heap** (`HeapBin`, `Heap`). Two bins of doubly linked nodes and a bump region stay an exact
tiling of the pool. What malloc and free do is stated on the heap as a value, and every byte is accounted for.

**FAT32 reader** (`FAT32`) and **bitmap** (`Bitmap`). Reading and seeking refine the concatenated
cluster chain; filling a range by whole bytes equals setting each bit.

## Where the code and its intent differ

The model follows the code, except that the runs of threads take `kmt_unlock_mutex` with the loop its
comment describes, and the timer tick without ageing. Each point below is a theorem.

- The 20-slot stack of `ba_search` is written at index 20 whenever the search walks the extreme spine
  to a single page; the model gives the stack 21 slots and reports the overrun
  (`Buddy.BuddyAllocator.Search`, `PageTree.SpillsExact`). Page 0 is never RAM, so the kernel runs into
  this once page 1 is a free page of its own: then every `allocate_pages` does it
  (`PageTree.PageOneSpills`).
- `free_pages` leaves the record of a block in its context, so `destroy_page_mgr_ctx` frees a block
  that was freed before once more. It panics, or frees the pages of whoever has them now
  (`Teardown.AllocateFreeDestroy`, `Teardown.FreedUnderAnother`); it is right exactly if no block of the
  context was freed earlier (`Contexts.DestroyRightExactly`).
- `ba_mark_pages` goes on using a node that marking as FREE may just have merged away
  (`Marking.CallExact` says exactly when a call does). Entering usable memory at boot runs into it
  whenever a range of two or more pages starts at an even page (`Marking.BootCallGoesAstray`).
- The first comparison of `pnode_validate_flags_update` includes the side bit, so right children that
  are blocked are treated differently from left ones (`PageTree.SideBitMatters`).
- `x86_get_phys_addr` and `x86_get_map` never test the present bit (`Paging.GetPhysAddr`).
- `kmt_unlock_mutex` skips waiters while they are *not* terminated, so with any waiter it runs off the
  list. The loop as written is `Kernel.Kmt.UnlockMutexAsWritten`, with its exact failure in
  `ThreadLaws.UnlockAsWrittenExact`.
- An external `kmt_wakeup_thread` of a blocked thread leaves it in two places
  (`ThreadLaws.WakeupExact`). A call to a thread that has ended panics, as does returning a call nobody
  made (`ThreadLaws.CallPanicExact`, `ThreadLaws.ReturnPanicExact`). `ThreadWitness.CallsGoWrong` is one
  reachable state in which all four happen.
- `kmt_sleep_for` does not sleep when the wake-up time passes 32 bits of milliseconds
  (`Timer.NeverEarlyExact`).
- `malloc` computes wrapped sizes above 0xFFFFFFD0 bytes: it then hands out regions of no bytes, or
  writes headers that no tiling can have (`Heap.KernelHeap.Malloc`); `Heap.KernelHeap.ServedExact` says
  when it is right all the same.
- `FAT32_getc` keeps cluster numbers in 16 bits and `FAT_SEEK_BEGINNING` adds to the position
  (`FAT32.File.Getc`, `FAT32.File.Seek`); `FAT32.LargeClusterLost` is a disk where the first one shows.
- `find_false_bits` misses runs, and its "not found" is also a position (`Bitmap.MissesARun`,
  `Bitmap.Bitmap.FindFalseBits`).

## Model

| member | source | states |
|---|---|---|
| `Bits.AndPredIsPowerTest` | src/c-kernel/syscore/mem/pagemgr.c:9-10 | `n & (n - 1) == 0` holds exactly for powers of two |
| `Bits.ReqOrderIsTight` | src/c-kernel/syscore/mem/pagemgr.c:8-19 | the order asked for is the least power of two that holds the pages: n <= 2^k < 2n |
| `PageTree.SideBitMatters` | src/c-kernel/syscore/mem/buddy.c:17-39 | the side bit in the first comparison changes the verdict exactly for a blocked right child that has the new flags already, without bypass |
| `PageTree.PermitsExact` | src/c-kernel/syscore/mem/buddy.c:17-39 | the verdict for each kind of page: a USED page may not change its mapping unless it is freed with bypass; a BLOCKED page must change its mapping, or stay as it is on the left side, unless there is bypass; any other page may get any flags |
| `PageTree.FindSound` | src/c-kernel/syscore/mem/buddy.c:218-278 | a found block has the requested order, lies in a leaf whose flags match, and at the searched-from end of that leaf |
| `PageTree.FindFirst` | src/c-kernel/syscore/mem/buddy.c:218-278 | no candidate leaf comes before the one that is used, in address order (reverse: after it) |
| `PageTree.FindComplete` | src/c-kernel/syscore/mem/buddy.c:218-278 | a block is found if and only if some matching leaf is large enough: pruning on the OR of the flags loses nothing |
| `PageTree.MarkIsPutThenRepair` | src/c-kernel/syscore/mem/buddy.c:40-86 | setting flags and then merging up from the node equals the recursive description used in the theorems |
| `PageTree.MarkPagesOfBlock` | src/c-kernel/syscore/mem/buddy.c:60-86 | writing a block changes the flags of exactly its pages |
| `PageTree.MarkNormal` | src/c-kernel/syscore/mem/buddy.c:40-59 | after every completed write no two sibling leaves are both FREE with equal flags |
| `PageTree.MarkUndone` | src/c-kernel/syscore/mem/buddy.c:40-86 | writing a FREE block and writing its old flags back gives the identical tree, shape and flags |
| `PageTree.MarkedNodeStays` | src/c-kernel/syscore/mem/buddy.c:114-130 | one write: the node just written is merged away if and only if the new flags are FREE and its buddy is a leaf with the same flags |
| `Marking.CallExact` | src/c-kernel/syscore/mem/buddy.c:310-334 | a call of ba_mark_pages uses a node that was merged away if and only if its count is not 1 and some round writes FREE flags to a block whose buddy is by then a leaf with those flags; it panics if and only if it is not to fail silently and some round meets flags that may not be changed |
| `Marking.BothHalvesMerge` | src/c-kernel/syscore/mem/buddy.c:310-334 | whatever the tree: after both halves of a block have been marked with the same FREE flags, the node of the second half is gone |
| `Marking.EvenStartGoesAstray` | src/c-kernel/syscore/mem/buddy.c:310-334 | the input: marking two or more pages FREE from an even page on, where the two pages permit it, always uses a merged node |
| `Marking.BootCallGoesAstray` | src/c-kernel/syscore/mem/buddy.c:336-378 | with bypass, as the memory map is entered at boot, every call for two or more FREE pages from an even page on does |
| `Marking.RoundPermits` | src/c-kernel/syscore/mem/buddy.c:310-334 | a round that writes its block met no page whose flags may not be changed, unless the side bit decides |
| `Marking.CallMarks` | src/c-kernel/syscore/mem/buddy.c:310-334 | a call that returns has given the flags to exactly the permitted pages of [address, address + n); ENOPAGE exactly when the range passes the end of memory; a panic only for a refused page of the range; a call that returns and was not to fail silently has met no refused page, unless the side bit decides (BLOCKED flags without bypass) |
| `Marking.MarkOnePage` | src/c-kernel/syscore/mem/buddy.c:310-334 | a call for one page, for every kind of page: it succeeds and the page has the flags, or it panics and the page keeps its own, by status, mapping, bypass and the parity of the page; no other page changes |
| `Marking.CallShape` | src/c-kernel/syscore/mem/buddy.c:310-334 | which nodes a call for flags other than FREE makes: the first page is split off, leaves within the range are written whole and stay one leaf, and of the leaf that sticks out at the end the first page is split off |
| `PageTree.BlocksDisjoint` | src/c-kernel/syscore/mem/buddy.c:148-169 | blocks with unrelated paths share no page |
| `PageTree.PathOfAddr` | src/c-kernel/syscore/mem/buddy.c:283-307 | the address bits `ba_find_node` follows lead back to the block the address was computed from |
| `PageTree.ExtremePageSpills` | src/c-kernel/syscore/mem/buddy.c:218-265 | handing out the first page of memory (reverse: the last) alone always writes past the 20-slot search stack |
| `PageTree.SpillsExact` | src/c-kernel/syscore/mem/buddy.c:218-265 | a search writes past the stack if and only if the first two pages of memory (reverse: the last two) are split apart and their flags together match, or they are not split apart, a single page is asked for and the flags of the extreme page match |
| `PageTree.PageOneSpills` | src/c-kernel/syscore/mem/buddy.c:218-265 | the input the kernel meets: once page 1 is a FREE page of RAM of its own, every allocate_pages, of any size, writes past the stack |
| `PageTree.UndoGrant` | src/c-kernel/syscore/mem/pagemgr.c:8-41 | granting a block changes nothing about what freeing everything live gives back |
| `PageTree.UndoFree` | src/c-kernel/syscore/mem/pagemgr.c:78-109 | nor does freeing a live block, in any order |
| `PageTree.UndoPages` | src/c-kernel/syscore/mem/pagemgr.c:8-109 | page by page: a page in a live block was FREE before, every other page is as it was |
| `Buddy.BuddyAllocator.NodeSummary` | src/c-kernel/syscore/mem/buddy.c:60-86 | in a valid tree each interior node caches the OR of the flags below it |
| `Buddy.BuddyAllocator.NodeAt` | src/c-kernel/syscore/mem/buddy.c:148-169 | a heap node is the subtree of the value at its path, with address and order fixed by it |
| `Buddy.BuddyAllocator.SplitNode` | src/c-kernel/syscore/mem/buddy.c:148-169 | splitting a leaf gives two children with its flags and the right addresses; the value gains a branch there and nothing else changes |
| `Buddy.BuddyAllocator.Overwrite` | src/c-kernel/syscore/mem/buddy.c:60-86 | flags are written and every summary up to the root is recomputed |
| `Buddy.BuddyAllocator.RepairTree` | src/c-kernel/syscore/mem/buddy.c:40-59 | FREE siblings with equal flags are merged upwards exactly as far as they can be |
| `Buddy.BuddyAllocator.SetStatus` | src/c-kernel/syscore/mem/buddy.c:60-86 | the status of a leaf is set, refused, or panics as validated; the tree becomes the marked tree |
| `Buddy.BuddyAllocator.SetFlags` | src/c-kernel/syscore/mem/buddy.c:114-130 | the same for all flags |
| `Buddy.BuddyAllocator.Search` | src/c-kernel/syscore/mem/buddy.c:218-278 | the explicit-stack walk that splits the tree while it runs returns the block the recursive search names, carved out; it terminates; slot 20 of the stack is written exactly when the extreme spine is walked to order 0 |
| `Buddy.BuddyAllocator.FindNode` | src/c-kernel/syscore/mem/buddy.c:283-307 | carves and returns the block of the requested order at an address, splitting nothing if it is a node already; without an order the leaf that holds the address, null for a leaf of order 0 |
| `Buddy.BuddyAllocator.MinLeaf` | src/c-kernel/syscore/mem/buddy.c:172-179 | the first leaf of a subtree starts where the subtree starts |
| `Buddy.BuddyAllocator.NextLeaf` | src/c-kernel/syscore/mem/buddy.c:180-191 | the next leaf starts where this one ends; there is none exactly at the end of memory |
| `Buddy.BuddyAllocator.LeafPage` | src/c-kernel/syscore/mem/buddy.c:172-191 | every page of a leaf node has the flags of that leaf |
| `Buddy.BuddyAllocator.MarkPages` | src/c-kernel/syscore/mem/buddy.c:310-334 | for all flags: the loop on the heap tree ends with the code and the tree of `Marking.MarkCall`, marks the pages as `Marking.CallMarks` says, and stops (KFREED) where it would use a node merged away; a count of 0 means 2^32; with flags that are not FREE that never happens |
| `PageMgr.HandleNamesBlock` | src/c-kernel/syscore/mem/pagemgr.c:8-41 | a handle made by an allocation passes the checks of `free_pages` and names the block it was made for |
| `PageMgr.AllocatePages` | src/c-kernel/syscore/mem/pagemgr.c:8-41 | grants the block of the specification, records it, or fails with ENOPAGE and changes nothing |
| `PageMgr.AllocateMappedPages` | src/c-kernel/syscore/mem/pagemgr.c:46-75 | the same for unmapped memory, from the top; EINVAL for no pages or no mapping |
| `PageMgr.FreePages` | src/c-kernel/syscore/mem/pagemgr.c:78-109 | a malformed handle is EINVAL; a block whose flags are not USED panics; a leaf or a block inside one is freed; an interior node is written over, which is reported; no node is split if the handle names one |
| `PageMgr.FoundInLeaf` | src/c-kernel/syscore/mem/pagemgr.c:78-109 | the flags free_pages looks at are those of the leaf around the block |
| `PageMgr.WellFormedExact` | src/c-kernel/syscore/mem/pagemgr.c:78-85 | a handle is accepted if and only if its count is a power of two that divides the byte address |
| `PageMgr.BlockOfExact` | src/c-kernel/syscore/mem/pagemgr.c:85-88 | the block it names has that many pages and holds the page of the address, modulo the size of memory |
| `PageMgr.RamGranted` | src/c-kernel/syscore/mem/pagemgr.c:8-24 | the pages of a block granted from RAM were free RAM and become USED with their mapping; no other page changes |
| `PageMgr.MappedGranted` | src/c-kernel/syscore/mem/pagemgr.c:46-64 | the pages of a block granted from unmapped memory were free and unmapped and become USED with the mapping asked for; no other page changes |
| `PageMgr.BlockFreed` | src/c-kernel/syscore/mem/pagemgr.c:85-109 | freeing a leaf, or a block in one, succeeds exactly if it is USED, else panics; its pages become free RAM if they were RAM and free unmapped memory otherwise; no other page changes |
| `PageRuns.GrantKeeps` | src/c-kernel/syscore/mem/pagemgr.c:8-75 | a grant hands out a fresh block: aligned to its size 2^k with n <= 2^k < 2n, of pages that were FREE with the wanted mapping and in no live block |
| `PageRuns.ReleaseKeeps` | src/c-kernel/syscore/mem/pagemgr.c:78-109 | a live handle names a USED leaf that is a node already, so free_pages succeeds and splits nothing, and the invariant is kept |
| `PageRuns.RunKeeps` | src/c-kernel/syscore/mem/pagemgr.c:8-109 | the invariant holds in every state of every run of allocations and frees |
| `PageRuns.LiveBlocksAreTheRunsUsedPages` | src/c-kernel/syscore/mem/pagemgr.c:8-109 | over every run live blocks are USED leaves, pairwise disjoint; their pages started FREE; every other page has the flags it started with |
| `PageRuns.AllFreedRestoresTree` | src/c-kernel/syscore/mem/pagemgr.c:8-109 | once everything is freed, in whatever order, the tree is the one the run began with |
| `PageRuns.GrantThenFree` | src/c-kernel/syscore/mem/pagemgr.c:8-109 | in every reachable state an allocation followed by its free gives back the identical tree, uses the lowest candidate, and fails only if there is no candidate |
| `PageRuns.MappedCarries` | src/c-kernel/syscore/mem/pagemgr.c:46-75 | over every run: a request that names no mapped kind changes nothing; any other fails exactly if no free unmapped leaf is large enough, and else adds a block whose pages carry exactly the kinds asked for |
| `PageRuns.GrantMappedThenFree` | src/c-kernel/syscore/mem/pagemgr.c:46-109 | the same for allocate_mapped_pages: no candidate ends above the block granted, and freeing it gives back the identical tree |
| `Teardown.DestroyPageMgrCtx` | src/c-kernel/syscore/mem/pagemgr.c:182-190 | frees the records in order up to the first round that panics or corrupts the tree |
| `Teardown.FreedTwice` | src/c-kernel/syscore/mem/pagemgr.c:78-109 | an allocation and its free give back the tree, and freeing the same block again panics |
| `Teardown.AllocateFreeDestroy` | src/c-kernel/syscore/mem/pagemgr.c:182-190 | allocating any number of pages, freeing them and destroying the context panics, in every reachable state |
| `Teardown.FreedUnderAnother` | src/c-kernel/syscore/mem/pagemgr.c:182-190 | if another context has been granted the freed block in the meantime, destroying the first one frees it under the other |
| `Teardown.StaleRound` | src/c-kernel/syscore/mem/pagemgr.c:182-190 | a round that meets a page the context does not hold panics, unless somebody else holds that page |
| `Teardown.DestroyExact` | src/c-kernel/syscore/mem/pagemgr.c:182-190 | destroying neither panics nor frees a page the context does not hold if and only if its records are exactly the blocks it holds, each once |
| `Teardown.LiveRecordsFreed` | src/c-kernel/syscore/mem/pagemgr.c:182-190 | and then all its blocks are freed and the invariant of the run is kept |
| `Paging.MapRangePages` | src/c-kernel/arch/paging/paging.c:69-108 | mapping a range maps page i to frame p + i and leaves every other translation alone |
| `Paging.UsedIsExact` | src/c-kernel/arch/paging/paging.c:41-66 | the counted number of tables is the number of directory entries that get one |
| `Paging.MapRangeTables` | src/c-kernel/arch/paging/paging.c:69-108 | existing tables stay, new ones are distinct spare frames |
| `Paging.ConstructPagetable` | src/c-kernel/arch/paging/paging.c:16-27 | the empty map, whatever was in the frame before |
| `Paging.MapMeans` | src/c-kernel/arch/paging/paging.c:71-102 | a page is mapped exactly if its directory entry and its table entry are present in memory, to the frame and with the flags of the latter |
| `Paging.GetPageCount` | src/c-kernel/arch/paging/paging.c:41-66 | the loop counts exactly the missing tables of the range |
| `Paging.MapPages` | src/c-kernel/arch/paging/paging.c:69-108 | ENOMEM exactly when fewer tables are given than counted, and then nothing is written; otherwise memory holds the mapped range and only the directory and its tables were written |
| `Paging.GetPhysAddr` | src/c-kernel/arch/paging/paging.c:137-155 | translation of mapped pages; because of operator precedence the present bit is never tested, and an unmapped address is reported exactly when its table is missing (or the offset happens to equal the code) |
| `AddressSpace.StepMaps` | src/c-kernel/syscore/mem/pagemgr.c:126-156 | a successful call maps its own pages to consecutive frames, every other page keeps its translation, a failed call changes no translation |
| `AddressSpace.CallMaps` | src/c-kernel/syscore/mem/pagemgr.c:126-156 | a successful call maps page i of the range at the virtual address asked for (byte address 0: at the address of its own frame) to frame i of its block, with the flags given; every other page stays as it was, and with an error all pages do |
| `AddressSpace.CallTakes` | src/c-kernel/syscore/mem/pagemgr.c:126-156 | it succeeds exactly if there is a block for the pages and, if directory entries of the range have no table, one for these; both are the least powers of two that do |
| `AddressSpace.TwoGrants` | src/c-kernel/syscore/mem/pagemgr.c:126-156 | the data block and the table block of a call do not overlap |
| `AddressSpace.StepKeeps` | src/c-kernel/syscore/mem/pagemgr.c:126-156 | one call keeps data frames distinct, in blocks of the context, and apart from the tables |
| `AddressSpace.NewFramesFresh` | src/c-kernel/syscore/mem/pagemgr.c:126-156 | a page newly mapped never shares its frame with a page mapped before whose frame is in use |
| `AddressSpace.RunKeepsFramesApart` | src/c-kernel/syscore/mem/pagemgr.c:126-156 | over every run on distinct virtual ranges distinct pages have distinct frames, all in blocks granted to the context, and no table frame is mapped as data |
| `AddressSpace.PmgrAllocPages` | src/c-kernel/syscore/mem/pagemgr.c:126-156 | tree, page tables in memory, page records and result are those of one step of a run, which `AddressSpace.StepMaps` and `StepKeeps` are about; the data block leaks when the tables cannot be had |
| `Paging.OtherMapStays` | src/c-kernel/arch/paging/paging.c:69-108 | writing one map in memory leaves every map alone that has no frame in common with it |
| `Contexts.StepKeeps` | src/c-kernel/syscore/mem/pagemgr.c:8-190 | allocating, mapping, freeing and destroying, on any of several contexts over one tree, keep the invariant of all |
| `Contexts.RunKeeps` | src/c-kernel/syscore/mem/pagemgr.c:8-190 | the invariant holds in every state of every such run |
| `Contexts.Isolation` | src/c-kernel/syscore/mem/pagemgr.c:126-156 | over every run a mapped page lies in a recorded block of its context, and no other context maps its frame, has a page table or its directory in it, or holds its block |
| `Contexts.TablesApart` | src/c-kernel/syscore/mem/pagemgr.c:126-156 | over every run the directories and page tables of different contexts are different frames |
| `Contexts.FreedExact` | src/c-kernel/syscore/mem/pagemgr.c:78-109 | the mark the model keeps says exactly whether the run has freed a block of the context |
| `Contexts.DestroyRightExactly` | src/c-kernel/syscore/mem/pagemgr.c:182-190 | in every reachable state destroying a context neither panics nor frees a page it does not hold if and only if the run has freed none of its blocks |
| `Contexts.AllDestroyedRestoresTree` | src/c-kernel/syscore/mem/pagemgr.c:182-190 | when all contexts have been destroyed the tree is the one the run began with |
| `Contexts.AllocateIn` | src/c-kernel/syscore/mem/pagemgr.c:8-41 | allocate_pages takes tree and records from one state of a run to the next |
| `Contexts.AllocateMappedIn` | src/c-kernel/syscore/mem/pagemgr.c:46-75 | so does allocate_mapped_pages |
| `Contexts.FreeIn` | src/c-kernel/syscore/mem/pagemgr.c:78-109 | so does free_pages of a block its client holds; it succeeds and splits nothing |
| `Contexts.DestroyIn` | src/c-kernel/syscore/mem/pagemgr.c:182-190 | so does destroying a context none of whose blocks was freed |
| `Contexts.AllocAndMapIn` | src/c-kernel/syscore/mem/pagemgr.c:126-156 | so does pmgr_alloc_pages, in memory too, where the maps of all other contexts stay as they were |
| `Template.DirsExact` | src/c-kernel/syscore/mem/buddy.c:507-541 | a directory entry is needed exactly if some used RAM page falls under it |
| `Template.MakeTemplatePageTable` | src/c-kernel/syscore/mem/buddy.c:507-541 | a page is present exactly if its leaf is ON_RAM and USED, and translates to itself; it panics exactly if the template has fewer pages than directory plus needed tables |
| `SleepHeap.PushKeeps` | src/c-kernel/syscore/mt/kernel.c:469-485 | pushing keeps heap order and adds exactly the request |
| `SleepHeap.PopKeeps` | src/c-kernel/syscore/mt/kernel.c:193-227 | popping keeps heap order and removes exactly the root |
| `SleepHeap.RootIsEarliest` | src/c-kernel/syscore/mt/kernel.c:193-239 | the root is the earliest request |
| `SleepHeap.SmallestExact` | src/c-kernel/syscore/mt/kernel.c:205-218 | a request sinks to the left child exactly if that is earlier than it and not later than the right one, and to the right one exactly if that is earlier than both |
| `SleepHeap.PushExact` | src/c-kernel/syscore/mt/kernel.c:476-486 | a request not earlier than the one above its first place stays last, else it takes that one's place or a higher one |
| `SleepHeap.DueExact` | src/c-kernel/syscore/mt/kernel.c:231-239 | a tick takes out exactly the requests with time <= now, earliest first |
| `SleepHeap.PushRequest` | src/c-kernel/syscore/mt/kernel.c:469-485 | the sift-up loop on the array leaves the heap of the specification |
| `SleepHeap.PopRequest` | src/c-kernel/syscore/mt/kernel.c:193-227 | so does the sift-down loop |
| `Timer.TimeIsFloor` | src/c-kernel/resources/timer.c:49-56 | the split computation equals floor(ticks * 10^9 / f) |
| `Timer.TimeMonotone` | src/c-kernel/resources/timer.c:49-56 | the clock never runs backwards |
| `Timer.WakeTimeExact` | src/c-kernel/syscore/mt/kernel.c:491-494 | the wake-up time is the first whole millisecond at or after the end of the sleep, or 2^32 less if that does not fit |
| `Timer.NowExact` | src/c-kernel/syscore/mt/kernel.c:228-233 | the handler reads the time in whole milliseconds, rounded down, modulo 2^32 |
| `Timer.NeverEarlyExact` | src/c-kernel/syscore/mt/kernel.c:459-494 | kmt_sleep_for never ends early if and only if ceil(now in ms) + duration fits the 32 bits of time_ms_t; otherwise it does not sleep at all |
| `ThreadInv.WakeKeeps` | src/c-kernel/syscore/mt/kernel.c:432-454 | waking an idle thread keeps the invariant |
| `ThreadInv.DispatchKeeps` | src/c-kernel/syscore/mt/kernel.c:155-172 | with a ready thread the dispatch succeeds and keeps the invariant |
| `ThreadInv.Highest` | src/c-kernel/syscore/mt/kernel.c:155-160 | 31 - clz of the bitmap names the highest queue that is not empty, and its head is ready |
| `ThreadSteps.WakeSleepersKeeps` | src/c-kernel/syscore/mt/kernel.c:231-239 | the wake-up loop of the tick keeps the invariant |
| `ThreadSteps.ReleaseKeeps` | src/c-kernel/syscore/mt/kernel.c:552-579 | the first waiter is waiting for this very mutex, and handing over keeps the invariant |
| `ThreadSteps.RespondKeeps` | src/c-kernel/syscore/mt/kernel.c:686-708 | a caller in service is blocked in this call, and answering it keeps the invariant |
| `ThreadRuns.SleepersFit` | src/c-kernel/syscore/mt/kernel.c:459-467 | there are fewer sleepers than threads, so the heap-full panic cannot be reached |
| `ThreadRuns.SleepUntilSafe` | src/c-kernel/syscore/mt/kernel.c:459-490 | returns at once exactly if the time has passed, else switches; keeps the invariant |
| `ThreadRuns.TickSafe` | src/c-kernel/syscore/mt/kernel.c:228-273 | a tick (without ageing) switches and keeps the invariant |
| `ThreadRuns.SpawnIdleSafe` | src/c-kernel/syscore/mt/kernel.c:406-430 | spawning the idle thread and ending the boot thread keeps the invariant |
| `ThreadRuns.LockSafe` | src/c-kernel/syscore/mt/kernel.c:525-551 | blocks exactly if another thread owns the mutex; keeps the invariant |
| `ThreadRuns.CallSafe` | src/c-kernel/syscore/mt/kernel.c:616-664 | a call keeps the invariant and does not panic unless it goes to a dead callee |
| `ThreadRuns.ListenSafe` | src/c-kernel/syscore/mt/kernel.c:665-685 | listening keeps the invariant |
| `ThreadRuns.ReturnSafe` | src/c-kernel/syscore/mt/kernel.c:686-708 | returning a received call keeps the invariant and does not panic |
| `ThreadRuns.ResumeSafe` | src/c-kernel/syscore/mt/kernel.c:546-550 | a resumed call always finishes at once: the loops take one round and the empty-queue panic cannot be reached |
| `ThreadRuns.StepSafe` | src/c-kernel/syscore/mt/kernel.c:132-708 | every allowed call keeps the invariant and reaches no panic |
| `ThreadRuns.InitInv` | src/c-kernel/syscore/mt/kernel.c:278-330 | the invariant holds after initialisation |
| `ThreadRuns.RunSafe` | src/c-kernel/syscore/mt/kernel.c:132-708 | over every run the whole invariant holds at every moment |
| `ThreadRuns.RunNeverPanics` | src/c-kernel/syscore/mt/kernel.c:132-708 | over every run no call reaches one of its panics |
| `ThreadProps.OnePlace` | src/c-kernel/syscore/mt/kernel.c:132-499 | each thread is once in the place its status names and in no other: current, one ready queue, one wait list, the sleep heap |
| `ThreadProps.DispatchExact` | src/c-kernel/syscore/mt/kernel.c:155-172 | kmt_schedule panics exactly if no thread is ready; otherwise it runs the oldest thread of the highest queue that is not empty |
| `ThreadProps.LockMeansOwner` | src/c-kernel/syscore/mt/kernel.c:525-551 | kmt_lock_mutex reports success only to the owner, at once or on resumption |
| `ThreadProps.StepMutexes` | src/c-kernel/syscore/mt/kernel.c:501-600 | what each call does to every mutex; only the mutex calls touch them |
| `ThreadProps.MutexStep` | src/c-kernel/syscore/mt/kernel.c:525-600 | an owner stays until it unlocks, then the first waiter is next |
| `ThreadProps.ToldStep` | src/c-kernel/syscore/mt/kernel.c:616-708 | what each call does to the queue, answer and wait of every thread |
| `ThreadEffects.StepFields` | src/c-kernel/syscore/mt/kernel.c:132-745 | what each call does to the priorities, status, wait and ready queue of every thread: nobody gets another base priority; the current one changes only for the thread it is set for, and for the one a tick takes the CPU from, which gets its base priority back; the status is RUNNING for the next thread, the one of the call for the thread that gave up the CPU, READY for exactly the threads the call wakes, and unchanged otherwise |
| `ThreadEffects.StepQueues` | src/c-kernel/syscore/mt/kernel.c:132-745 | what each call does to every ready queue: the threads it makes ready join the queue of their priority at the end, due sleepers earliest first and the preempted thread last; if it switches, the first thread of the highest queue leaves it and runs |
| `ThreadEffects.StepReplies` | src/c-kernel/syscore/mt/kernel.c:132-745 | the answer of each call for each reason, in the order of the checks; with an error nothing has changed |
| `ThreadEffects.NewThread` | src/c-kernel/syscore/mt/kernel.c:334-430 | at most one thread is added, IDLE or, for the idle thread, ready, both its priorities being the one asked for (1 for the idle thread), which only kmt_spawn_idle_thread names idle |
| `ThreadEffects.CreateMutexExact` | src/c-kernel/syscore/mt/kernel.c:501-524 | the number answered names a slot that was unused and is now a free mutex without waiters, every other slot being as it was; it refuses exactly if all slots are used |
| `ThreadEffects.CreateThenLock` | src/c-kernel/syscore/mt/kernel.c:501-551 | a mutex that was just made can be locked at once and is owned then |
| `ThreadEffects.BasePriorityForever` | src/c-kernel/syscore/mt/kernel.c:334-404 | over every run a thread keeps the base priority it was created with |
| `ThreadEffects.PriorityKept` | src/c-kernel/syscore/mt/kernel.c:132-745 | over every run its current priority changes only by an override, or by a tick while it is running |
| `ThreadEffects.PreemptedGoesBack` | src/c-kernel/syscore/mt/kernel.c:139-151 | over every run, after a tick the thread that was running has its base priority again and runs on or is last in the ready queue of that priority |
| `ThreadEffects.ResumeExact` | src/c-kernel/syscore/mt/kernel.c:546-685 | in any state, allowed or not: a thread in the middle of a lock goes on only as the owner, a caller only with an answer, and a callee without a call panics |
| `ThreadEffects.FullHeapPanics` | src/c-kernel/syscore/mt/kernel.c:459-467 | a full sleep heap panics, even if the time has passed |
| `ThreadEffects.SpawnPanicExact` | src/c-kernel/syscore/mt/kernel.c:406-430 | spawning the idle thread panics exactly if there is none yet and none can be made |
| `ThreadEffects.InitExact` | src/c-kernel/syscore/mt/kernel.c:278-330 | at first the boot thread runs with both priorities 0, nothing is queued or asleep, no mutex is used, and the first one made is number 0 |
| `ThreadLaws.MutexFifo` | src/c-kernel/syscore/mt/kernel.c:525-579 | over every run the threads that had to wait are those served, in that order, followed by those still waiting |
| `ThreadLaws.MutualExclusion` | src/c-kernel/syscore/mt/kernel.c:525-600 | until its owner unlocks it, nobody else ever owns a mutex |
| `ThreadLaws.CallsFifo` | src/c-kernel/syscore/mt/kernel.c:616-685 | over every run the calls made to a thread are those it took, in that order, followed by those still queued |
| `ThreadLaws.ReturnCodeReaches` | src/c-kernel/syscore/mt/kernel.c:645-708 | a return code reaches the caller that made the call: when it next runs, its call ends with that code |
| `ThreadLaws.SwitchRunsHighest` | src/c-kernel/syscore/mt/kernel.c:132-179 | over every run, when a call switches, ready threads keep their order, no queue above that of the next thread has a thread, and the next thread was the oldest of its queue, or not ready before and the queue empty |
| `ThreadLaws.TickWakes` | src/c-kernel/syscore/mt/kernel.c:231-239 | a tick makes ready exactly the threads that sleep until now or earlier |
| `ThreadLaws.TickQueues` | src/c-kernel/syscore/mt/kernel.c:231-239 | they join their ready queues earliest first, and no queue changes otherwise |
| `ThreadLaws.SleepsUntil` | src/c-kernel/syscore/mt/kernel.c:228-490 | over every run a sleeper sleeps on until a tick reaches its time |
| `ThreadLaws.SleepForLasts` | src/c-kernel/syscore/mt/kernel.c:459-494 | over every run with a clock, kmt_sleep_for(d) does not let its thread run before d ms are over, if the wake-up time fits 32 bits |
| `ThreadLaws.WakeupExact` | src/c-kernel/syscore/mt/kernel.c:432-454 | an external wake-up keeps the invariant if and only if it does not hit a blocked thread |
| `ThreadLaws.UnlockAsWrittenExact` | src/c-kernel/syscore/mt/kernel.c:552-579 | the unlock loop as written follows a null pointer exactly if the mutex has waiters; otherwise it agrees with the comment |
| `ThreadLaws.CallPanicExact` | src/c-kernel/syscore/mt/kernel.c:640-655 | the panic of kmt_rpc_call is reached exactly if the callee is terminated and has no call queued |
| `ThreadWitness.IsRun` | src/c-kernel/syscore/mt/kernel.c:132-708 | a run of ten allowed calls from the initial state: an idle thread, two threads and a mutex, with a preemption while the mutex is held |
| `ThreadWitness.CallsGoWrong` | src/c-kernel/syscore/mt/kernel.c:432-708 | in the state that run ends in, one thread owns a mutex and another waits for it; there the unlock as written follows the null pointer, an external wake-up of the waiter breaks the invariant, a call to the ended boot thread panics, and so does returning a call nobody made |
| `ThreadLaws.ReturnPanicExact` | src/c-kernel/syscore/mt/kernel.c:697-704 | the panic of kmt_rpc_return is reached exactly if the named caller waits for no answer |
| `Kernel.Kmt.constructor` | src/c-kernel/syscore/mt/kernel.c:278-330 | a new kernel is in the initial state |
| `Kernel.Kmt.WakeupThread` | src/c-kernel/syscore/mt/kernel.c:432-454 | the thread becomes READY at the end of the queue of its current priority and that queue is marked in the bitmap; an unknown thread is refused and nothing changes |
| `Kernel.Kmt.Schedule` | src/c-kernel/syscore/mt/kernel.c:132-179 | the current thread gives up the CPU, as READY at the end of its queue with its base priority or with the given status, and the thread `ThreadProps.DispatchExact` names runs; without one, a panic |
| `Kernel.Kmt.Sleep` | src/c-kernel/syscore/mt/kernel.c:455-458 | the current thread is IDLE and in no queue, and the scheduler has run |
| `Kernel.Kmt.SleepUntil` | src/c-kernel/syscore/mt/kernel.c:459-490 | a passed time returns at once, a full heap panics, otherwise the request is in the heap array and the scheduler has run |
| `Kernel.Kmt.SleepFor` | src/c-kernel/syscore/mt/kernel.c:491-494 | sleeps until the 32-bit wake-up time |
| `Kernel.Kmt.KillCurrent` | src/c-kernel/syscore/mt/kernel.c:495-499 | the current thread is TERMINATED and nowhere queued, and the scheduler has run |
| `Kernel.Kmt.TimerTick` | src/c-kernel/syscore/mt/kernel.c:228-273 | exactly the sleepers `SleepHeap.Due` names are made ready, earliest first, before the scheduler runs; the ageing loop is left out |
| `Kernel.Kmt.CreateThread` | src/c-kernel/syscore/mt/kernel.c:334-404 | the new thread is IDLE and queued nowhere, and the pool grows by one; the errors come in the order of the code and leave threads, queues and mutexes as they were |
| `Kernel.Kmt.SpawnIdleThread` | src/c-kernel/syscore/mt/kernel.c:406-430 | once only: the idle thread of priority 1 is created and made ready, and the thread that called ends |
| `Kernel.Kmt.CreateMutex` | src/c-kernel/syscore/mt/kernel.c:501-524 | slots are handed out in order, then the first freed one, unowned and with no waiters, until the pool is full |
| `Kernel.Kmt.LockMutex` | src/c-kernel/syscore/mt/kernel.c:525-551 | a free mutex gets the caller as owner; a held one queues the caller last and switches |
| `Kernel.Kmt.UnlockMutex` | src/c-kernel/syscore/mt/kernel.c:552-579 | with the loop its comment describes: the first waiter that is not terminated becomes owner and READY, without waiters the mutex is free; only the owner can unlock |
| `Kernel.Kmt.UnlockMutexAsWritten` | src/c-kernel/syscore/mt/kernel.c:552-579 | with the loop as it is written: the first terminated waiter would become owner, and past the last waiter the null pointer is followed |
| `Kernel.Kmt.IsMutexOwned` | src/c-kernel/syscore/mt/kernel.c:581-587 | true exactly if the mutex exists and the current thread owns it |
| `Kernel.Kmt.FreeMutex` | src/c-kernel/syscore/mt/kernel.c:589-600 | a used mutex without an owner becomes unused; an owned one is refused |
| `Kernel.Kmt.RpcCall` | src/c-kernel/syscore/mt/kernel.c:616-664 | the call is last in the queue of the callee, a listening callee is woken, the caller is blocked, or the panic for a dead callee is reported |
| `Kernel.Kmt.RpcListen` | src/c-kernel/syscore/mt/kernel.c:665-685 | the oldest call of the queue is taken, or the thread waits for one |
| `Kernel.Kmt.RpcReturn` | src/c-kernel/syscore/mt/kernel.c:686-708 | the caller gets the code and is woken, or the panic for a caller that waits for nothing is reported |
| `Kernel.Kmt.ResumeCall` | src/c-kernel/syscore/mt/kernel.c:546-550 | what the code after the switch does: the answer, the received call or the mutex, or the panic for an empty queue |
| `Kernel.Kmt.OverridePriority` | src/c-kernel/syscore/mt/kernel.c:741-745 | only the current priority of the thread changes, with no check of its value |
| `Queue.KmtQueue.Push` | src/c-kernel/syscore/mt/kernel.c:101-111 | head, tail and links after a push hold the longer list, in a node of its own |
| `Queue.KmtQueue.Pop` | src/c-kernel/syscore/mt/kernel.c:113-125 | the first item leaves and the rest stays in order; an empty queue gives none |
| `Queue.QueueArray.Push` | src/c-kernel/syscore/mt/kernel.c:101-111 | pushing on one of the ready queues, whose nodes are all their own, makes its list longer and leaves every other list alone |
| `Queue.QueueArray.Pop` | src/c-kernel/syscore/mt/kernel.c:113-125 | so does popping: the first of the list leaves, nothing if it is empty, and the other lists stay |
| `Kernel.Kmt.PushReady` | src/c-kernel/syscore/mt/kernel.c:447-448 | on the linked queues: the thread is last in its queue, the bit of the queue is set, and the other queues stay |
| `Kernel.Kmt.PopReady` | src/c-kernel/syscore/mt/kernel.c:153-157 | the oldest thread leaves its queue, whose bit is cleared exactly when it was the last |
| `HeapBin.HeapBin.Push` | src/c-kernel/utils/impl/heap_bin.c:50-72 | the node is appended, links and ends are those of the longer list, nothing else changes |
| `HeapBin.HeapBin.Remove` | src/c-kernel/utils/impl/heap_bin.c:73-112 | the node is unlinked wherever it is, links and ends are those of the list without it |
| `HeapBin.HeapBin.Find` | src/c-kernel/utils/impl/heap_bin.c:143-154 | the first node of the list that is large enough |
| `Heap.SizesExact` | src/c-kernel/utils/heap.c:95-110 | the sizes malloc computes are right and do not wrap exactly up to 0xFFFFFFD0 bytes |
| `Heap.TilesApart` | src/c-kernel/utils/heap.c:54-167 | nodes do not overlap |
| `Heap.TilesCover` | src/c-kernel/utils/heap.c:54-167 | nodes leave no gap below the bump region |
| `Heap.MallocTold` | src/c-kernel/utils/heap.c:95-167 | malloc answers with a node exactly if the bump region or a free node has room for the computed size; the node is no allocated one, has at least that size and less than 32 bytes more; it is the start of the bump region if that has room, else a free node, of which exactly that size is taken and the rest becomes a free node if another node can be left over |
| `Heap.NothingLost` | src/c-kernel/utils/heap.c:95-167 | free memory shrinks by exactly the node handed out and its header |
| `Heap.MallocThenFree` | src/c-kernel/utils/heap.c:95-123 | freeing a node just taken from the bump region gives back the very same heap |
| `Heap.FreeTold` | src/c-kernel/utils/heap.c:284-322 | freeing a node gives back it and its header: to the bump region exactly if it is the topmost one, else as the last free node |
| `Heap.AlignedTold` | src/c-kernel/utils/heap.c:54-94 | with padding, malloc_aligned refuses at once exactly if the bump region is smaller than padding and data; else the padding has become a free node, and it refuses exactly if what is left has no room; nothing is lost |
| `Heap.CeilExact` | src/c-kernel/utils/heap.c:54-66 | the alignment used is the least power of two not below the one asked for, or 0 if that does not fit 32 bits |
| `Heap.KernelHeap.BlocksApart` | src/c-kernel/utils/heap.c:95-167 | allocated regions lie below the bump region and do not overlap |
| `Heap.KernelHeap.Malloc` | src/c-kernel/utils/heap.c:95-167 | for every 32-bit request: result, bump region, allocated nodes and free nodes in their order are those of `Heap.MallocOf`, and what `Heap.Granted` says of them holds: the node is new, has at least the computed size and less than 32 bytes more, and a free node that can be cut is; tiling, bins and head + size are kept; headers that fit no tiling are written exactly for the requests of `Heap.Tears` |
| `Heap.KernelHeap.ServedExact` | src/c-kernel/utils/heap.c:95-167 | malloc returns a region of at least the size asked for, or none for lack of room, if and only if the request is at most 0xFFFFFFD0, or no free node exists and the wrapped size does no harm |
| `Heap.KernelHeap.EmptyRegion` | src/c-kernel/utils/heap.c:95-123 | a request of 0xFFFFFFF8 bytes gets a region of none |
| `Heap.KernelHeap.WrappedCutTears` | src/c-kernel/utils/heap.c:125-163 | cutting a free node for a request above 0xFFFFFFD0 leaves headers no tiling can have |
| `Heap.KernelHeap.MallocAligned` | src/c-kernel/utils/heap.c:54-94 | keeps tiling and bins; the data is aligned whenever the bump region holds padding, header and data; padding becomes the last free node before malloc is asked, and without room for padding and data it refuses and changes nothing |
| `Heap.KernelHeap.Free` | src/c-kernel/utils/heap.c:284-322 | the node leaves the allocated ones and goes to the bump region if it is topmost, else with its size to the end of the free bin; all else stays; a double free changes nothing |
| `FAT32.FatCache.GetNextCluster` | src/bootloader/Stage-2/FAT32.c:107-132 | the entry of the cluster, with the cached sector equal to the disk sector it names before and after |
| `FAT32.FollowsExactly` | src/bootloader/Stage-2/FAT32.c:126-132 | following the entries from the first cluster visits a chain and then meets the end if and only if the lower 28 bits of the table link it so, whatever the upper four bits |
| `FAT32.Located` | src/bootloader/Stage-2/FAT32.c:133-138 | the bytes of the i-th cluster are the bytes of the file from i times the cluster size on |
| `FAT32.File.LoadNextCluster` | src/bootloader/Stage-2/FAT32.c:74-106 | the buffer holds the next cluster of the chain |
| `FAT32.File.Getc` | src/bootloader/Stage-2/FAT32.c:418-467 | the next byte of the file; the position fields stay in agreement if and only if the cluster moved to has a 16-bit number, and the bytes of that cluster still come |
| `FAT32.File.Read` | src/bootloader/Stage-2/FAT32.c:468-505 | the bytes of the file from the position on, a null and nothing more after the end of the file, if the clusters strictly between the first and the last one have 16-bit numbers; the fields stay in agreement exactly if the last one has one too or is the first |
| `FAT32.LargeChain` | src/bootloader/Stage-2/FAT32.c:107-132 | a disk with a file whose second cluster has number 0x10000 |
| `FAT32.LargeClusterLost` | src/bootloader/Stage-2/FAT32.c:418-467 | reading that file: byte 512 comes, and the fields are out of place afterwards, at cluster 0 |
| `FAT32.File.Seek` | src/bootloader/Stage-2/FAT32.c:514-626 | a relative seek lands at position + value; a seek from the beginning lands at value, but its position is right if and only if it was 0 |
| `FAT32.SeekThenRead` | src/bootloader/Stage-2/FAT32.c:468-569 | seeking k bytes and reading n gives the same bytes and position as reading k + n and dropping k |
| `Bitmap.WithHas` | src/pos-kernel/std/bitmap/bitmap.cpp:25-32 | setting a bit of a byte changes that bit only |
| `Bitmap.SetEachAt` | src/pos-kernel/std/bitmap/bitmap.cpp:25-32 | setting each index of a range sets exactly the range |
| `Bitmap.InsideIsRange` | src/pos-kernel/std/bitmap/bitmap.cpp:115-156 | first and last byte with their offsets describe exactly the range, for every alignment of both ends |
| `Bitmap.Bitmap.SetBits` | src/pos-kernel/std/bitmap/bitmap.cpp:115-156 | setBits equals set on each index of the range |
| `Bitmap.Bitmap.FindFalse` | src/pos-kernel/std/bitmap/bitmap.cpp:34-65 | the first clear bit, or the cached position |
| `Bitmap.FirstFalseExact` | src/pos-kernel/std/bitmap/bitmap.cpp:34-65 | the position found is the lowest clear bit; none is found exactly if all bits are set |
| `Bitmap.PositionExact` | src/pos-kernel/std/bitmap/bitmap.cpp:34-65 | the position answered: the lowest clear bit, or 0 if all bits are set |
| `Bitmap.FirstRunExact` | src/pos-kernel/std/bitmap/bitmap.cpp:67-113 | a found position is the first clear bit of the earliest byte where that bit starts n clear bits; none is found only if no byte has such a bit |
| `Bitmap.FoundExactly` | src/pos-kernel/std/bitmap/bitmap.cpp:67-113 | a run is found if and only if some byte has a first clear bit that starts n clear bits |
| `Bitmap.OneBitFound` | src/pos-kernel/std/bitmap/bitmap.cpp:67-113 | for a single bit the search is complete: it finds one if and only if some bit is clear |
| `Bitmap.CachedExact` | src/pos-kernel/std/bitmap/bitmap.cpp:67-113 | a position is left for the next find_false exactly after a successful search, and it is the lowest clear bit of the bitmap |
| `Bitmap.MissesARun` | src/pos-kernel/std/bitmap/bitmap.cpp:67-113 | a bitmap with two clear bits that find_false_bits does not find |
| `Bitmap.Bitmap.FindFalseBits` | src/pos-kernel/std/bitmap/bitmap.cpp:67-113 | the search as specified, with the position it caches; position 0 also means not found |

## Left out

- Searching the buddy tree without splitting, traversal to the previous leaf, `pnode_set_mapping` and `ba_mark_stack`: variants that would only add easy members.
- Buddy.BuddyAllocator.MarkPages: stops where the code uses a node that has been merged away, and does not say what is found in its memory.
- Buddy.BuddyAllocator.SplitNode: does not model failure of the heap that nodes are taken from, nor the heap itself; the same holds for page records and queue nodes everywhere.
- PageMgr.AllocatePages: asks for at least one page, because the count of leading zeros is undefined for 0.
- PageMgr.FreePages: stops where flags are written over an interior node, which only a stale or forged handle can name; what the allocator makes of the corrupt tree is not modelled.
- AddressSpace.PmgrAllocPages: asks for a context with a heap, since without one the two allocations share a single record.
- Contexts.AllocAndMapIn: asks for contexts that share no page table, so shallow copies of a template are not covered; contexts exist from the start of a run, and mappings clients make of blocks handed to them are not part of it.
- Paging.MapPages: does not cover ranges that wrap past the last page, and says nothing of the directory flags a table accumulates beyond being present.
- `x86_set_flags_pages`, `x86_get_flags`, `x86_copy_pagetable` and `pmgr_alloc_unmapped_pages`: the same reads and writes again.
- Building the buddy tree from the memory map at boot, and logging.
- Kernel.Kmt.TimerTick: leaves out the ageing of ready threads, whose walk unlinks nodes without updating the tail or the bitmap and follows a null link after a promotion at the head of a queue; no bound on waiting is claimed. The preemption flag is left out: a tick is a step only while it is set, and `kmt_spawn_idle_thread` called twice leaves it cleared.
- Kernel.Kmt.OverridePriority: does not check the priority, as in the code; runs keep it below 31.
- Kernel.Kmt.LockMutex: asks that the mutex number is below the pool size, which the code does not check.
- Kernel.Kmt.RpcCall: takes the two buffers of a call as one number and the checks of its pointers as one bit.
- The ready queues of `Kernel` are linked lists; wait lists of mutexes and call queues are sequences there, although the code builds them in the same way.
- Stack switching, register frames and page table registers: a switch changes the current thread. A resumed call is a step of its own, which the rules place before any other step of its thread.
- `kmt_create_thread`: the stack and heap it prepares; names of threads, except whether they fit.
- Heap.KernelHeap.Malloc: stops where a free node too small is cut, because the header written in front of it may hit one in use; says nothing of the hint that a node was cut, which only `realloc` reads.
- Heap.KernelHeap.MallocAligned: asks for a pool that starts at a multiple of 16, at most 0xFFFFFFD0 bytes, and a sum of size and alignment below 2^32; otherwise padding can be smaller than a header, or the space check wraps.
- Heap.KernelHeap.Free: asks for the address of a node; what the code finds in front of any other address depends on the bytes there.
- `realloc`, whose split sizes the remainder wrongly, and `src/pos-kernel/std/memory/heap.cpp`, the same allocator again.
- FAT32.File.Read: disk reads succeed, positions do not pass 2^32, and the clusters it goes through and leaves again have numbers below 2^16; `FAT32.LargeClusterLost` shows what becomes of one that has not.
- FAT32.File.Seek: does not cover position + value past 2^32, where the unsigned sum wraps.
- Opening files, directories and path search; bootloader disk calls; PCI, USB, PS/2, VGA, terminal, formatted output, virtual file system and ELF loading.
- Bitmap.Bitmap.FindFalseBits: the memory after the bitmap is part of the array, because a run that reaches the end is read past it.
- Clocks are parameters: the model says nothing of how the timer interrupt counts.
