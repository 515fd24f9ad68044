# Tori kernel: a verified model

Tori is a small x86_64 kernel. This project models its memory manager, its process and scheduler
protocol, its timer wheel, two of its locks and the data paths of four file systems, and proves
what they promise, over every run and every reachable state. Where the source works in place, the
model is a class whose methods update fields and arrays; each method is tied to a function on
values, and the theorems are about those.

## What is proved

**Address spaces** (`Pmm`, `PageEntry`, `PageTree`, `PageWalk`, `Cow`, `CowRuns`, `Vm`, `Teardown`,
`Fork`, `VmSteps`, `Vmm`). Physical memory is a map from frames to tables or data. A ghost tree
names each table by its place in its address space. `Vmm.Mmu` runs the code on memory and keeps an
invariant that ties memory, tree, page allocator and the flat set of user pages together. The walk
combines the rights of all four levels, as section 4.6 of volume 3A of the Intel 64 and IA-32 manual
demands, and every operation is stated against that walk. On top of it, `CowRuns` is a machine of operations on spaces: `LazyIsEager` says that sharing pages and copying
them on a fault cannot be told apart from copying every page at every fork, by any number of spaces
over any run, failed clones included. A step of that machine says what happens to entries, counts and
contents; that counts stay exact and writers alone is proved, not part of the step. Every method of
`Vmm.Mmu` that changes a space is one step of that machine. `CloneAddressSpace` also says exactly when
a fork finds enough memory.

**Kernel heap** (`Arith`, `HeapBlocks`, `HeapSteps`, `HeapRelease`, `HeapLaws`, `HeapSpec`,
`KernelHeap`, `Slices`, `Kalloc`). The heap is words in memory: headers, footers, shift words and
list links. The invariant says that blocks tile the regions, that tags agree, that the list is the
free blocks in address order and that merging is complete. It also holds when regions abut, where
forward merging joins blocks across regions; full coalescing is stated for regions that do not abut.
`ExactBelowIff` and `EvenlyIff` say for which requests the arithmetic of the allocator is right.
`Kalloc.Kmem` puts heap, slices and page runs on one page allocator.

**Processes** (`DList`, `Sched`, `Tasks`, `Forest`, `ProcTable`, `System`, `SystemRuns`,
`InitWaits`, `StuckWaits`, `BootRuns`, `Syscalls`). One step machine for fork, spawn, exit, waitpid, the
sweep of init and the round-robin scheduler. A system call up to where it blocks is one step. Round
robin dispatch, no lost wake-up, exit statuses collected once and ended threads that stay ended are
statements about every run of that machine. Tasks and processes are linked lists in the classes and
sequences in the specification.

**Timers** (`Wheel`, `WheelRuns`, `WheelHang`, `Timers`, `Intrusive`). The class keeps its 512 buckets
and the free entries as linked lists over one store of nodes. Runs of the wheel say when a timer runs,
to the tick, and which timers make a tick hang for ever.

**Locks** (`Seqlock`, `RwLock`, as interleavings of single atomic operations by any number of threads)
and **files** (`Elf`, `Fat`, `Overlay`, `Ramfs`, each against a plain view of its data) complete the
model.

## Where the code falls short of what one expects

The lemmas named show it, or say exactly when it happens.

- A reference counter that is full forgets the next reference (`Pmm.SaturatedRetainIsLost`,
  `Cow.ShareExactIff`).
- A region in the last page of the address space makes boot free every page
  (`Pmm.TopRegionFreesAll`, `Pmm.FreedExactly`).
- A range that ends in the last page of the address space reserves nothing
  (`Pmm.TopRangeReservesNone`, `Pmm.ReservedExactly`).
- A page mapped in the kernel's space has at most the rights that the boot tables above it leave
  (`Vmm.Mmu.MapPage`); in a user space the leaf entry decides (`PageWalk.ThroughUser`).
- A heap request near 2^64 wraps to a small one and is served (`HeapSpec.HugeRequestHandsOut`,
  `HeapSpec.ExactBelowIff`).
- A heap request of odd size leaves blocks whose headers read back wrong (`HeapSpec.TagReadsBackIff`,
  `HeapSpec.EvenlyIff`).
- Forward merging joins blocks of abutting regions (`HeapLaws.AbuttingRegionsMerge`,
  `HeapLaws.MergeKeepsRegionsIff`).
- A small block with an alignment above 16 is freed to the wrong backend (`Kalloc.RoutesBackIff`,
  `Kalloc.AstrayRelease`).
- A yield that is preempted between its two halves queues its task twice
  (`Sched.InterruptedYieldQueuesTwice`). System calls mask interrupts; the main loop of the kernel,
  kernel/src/kernel/main.cpp:528, yields with interrupts on.
- A dying process hands its zombie children to init without waking it (`InitWaits.InitMissesIff`,
  `BootRuns.InitMissesFromBoot`).
- A child whose fork failed for want of a thread still counts in waitpid, so a parent with no other
  child to wait for sleeps for ever (`StuckWaits.StuckForever`, `StuckWaits.WaitStuckIff`,
  `BootRuns.StuckFromBoot`).
- The walk along a cluster chain passes over cluster number 1 and arrives at data
  (`Fat.StrayExample`, `Fat.ReadFromChain`, `Fat.NoStray`).
- Overlay names of 251 characters or more share whiteout markers (`Overlay.MarkerShared`,
  `Overlay.UnlinkChangesIff`, `Overlay.SharedMarkerExample`, `Overlay.UnlinkHidesIff`).
- Unlinking a file of a writable layer succeeds and uncovers the copy below
  (`Overlay.UnlinkUncovers`).
- A timer 65536 or more ticks ahead runs at once (`WheelRuns.EarlyIff`). If it is a one-shot timer its
  creation then waits for ever for the lock it holds (`Wheel.FarOneShotHangs`), with a period of 65536
  or more it is run for ever (`Wheel.FarForever`), and `Wheel.InsertEndsIff` says exactly when creation
  returns. Cancelling a timer never returns for the same reason (`Wheel.LockedFreeHangs`).
- Cascading never ends once an entry is filed where it was (`WheelHang.CascadeHangsIff`,
  `WheelHang.HarmfulHangs`, `WheelHang.HarmlessHangsIff`, `WheelHang.PeriodHangs`,
  `WheelHang.HangExample`).
- A second seqlock writer lets readers through with a torn value (`Seqlock.SecondWriterTears`,
  `Seqlock.FirstIntruderTears`, `Seqlock.TornFromStart`).

## Model

| member | source | states |
|---|---|---|
| `Pmm.Allocator.constructor` | kernel/src/memory/pmm.cpp:78-91 | every page starts out reserved with count zero, and the statistics agree with the bitmap |
| `Pmm.Allocator.PageRangeFree` | kernel/src/memory/pmm.cpp:38-54 | true if and only if the run lies in memory and all its pages are clear |
| `Pmm.Allocator.MarkPageUsed` | kernel/src/memory/pmm.cpp:56-65 | sets one page with count one, unless it is set already; used and free counts stay equal to the bits |
| `Pmm.Allocator.MarkPageFree` | kernel/src/memory/pmm.cpp:67-76 | clears one page and its count; used and free counts stay equal to the bits |
| `Pmm.Allocator.FindRun` | kernel/src/memory/pmm.cpp:188-202 | finds a run if and only if one exists anywhere, and then the first in cyclic order from the cursor |
| `Pmm.Allocator.AllocPages` | kernel/src/memory/pmm.cpp:188-208 | fails exactly when no free run of that length exists wherever the cursor stands; otherwise the run was wholly free, each page now has count one, and no other page changes |
| `Pmm.Allocator.AllocPage` | kernel/src/memory/pmm.cpp:184-186 | fails exactly when every page is used, that is when the free counter is zero; otherwise one clear page is set and the counter falls by one |
| `Pmm.Allocator.RetainPage` | kernel/src/memory/pmm.cpp:210-225 | adds one reference to an allocated, aligned page unless its count is saturated; everything else is left alone |
| `Pmm.Allocator.PageRefCount` | kernel/src/memory/pmm.cpp:227-240 | the count of an aligned page in range, zero otherwise |
| `Pmm.Allocator.FreePages` | kernel/src/memory/pmm.cpp:246-281 | drops one reference of each page of the run, clears those that reach zero, moves the cursor back; unaligned, empty and wrapping runs are ignored |
| `Pmm.Allocator.FreePage` | kernel/src/memory/pmm.cpp:242-244 | drops one reference of one page |
| `Pmm.Allocator.FreeRange` | kernel/src/memory/pmm.cpp:93-126 | clears exactly the pages that the rounded region covers and counts what it reclaimed |
| `Pmm.Allocator.ReserveRange` | kernel/src/memory/pmm.cpp:128-149 | sets exactly the pages that the rounded range covers, rounding as the source does (`Pmm.ReservedExactly` says which those are) |
| `Pmm.Allocator.Init` | kernel/src/memory/pmm.cpp:161-174 | after boot a page is free if and only if some allocatable region frees it and it is neither page zero nor part of the kernel; every page that the kernel touches is reserved, unless its end lies in the last page of the address space |
| `Pmm.FreedExactly` | kernel/src/memory/pmm.cpp:93-126 | a region frees exactly the pages wholly inside it if and only if rounding its base up does not wrap |
| `Pmm.TopRegionFreesAll` | kernel/src/memory/pmm.cpp:93-126 | a region that starts in the last page of the address space makes the rounding wrap and frees every page |
| `Pmm.ReservedExactly` | kernel/src/memory/pmm.cpp:128-149 | a range reserves exactly the pages that it touches if and only if rounding its end up does not wrap or it starts beyond memory |
| `Pmm.TopRangeReservesNone` | kernel/src/memory/pmm.cpp:128-149 | a range that ends in the last page of the address space makes the rounding wrap and reserves nothing |
| `Pmm.NoRunAnywhere` | kernel/src/memory/pmm.cpp:188-202 | one trip round the cursor misses no run: if no cyclic position starts one, there is none |
| `Pmm.RetainedPageStays` | kernel/src/memory/pmm.cpp:210-281 | over every run, a page whose releases never outnumber its references stays allocated with the exact count and is never handed out again |
| `Pmm.StepBalance` | kernel/src/memory/pmm.cpp:188-281 | one operation changes the count of a page by its share of the balance, and frees the page exactly when that reaches zero |
| `Pmm.ReleaseTimesExact` | kernel/src/memory/pmm.cpp:246-281 | a page with n references survives exactly its first n - 1 releases |
| `Pmm.SaturatedRetainIsLost` | kernel/src/memory/pmm.cpp:216-222 | a retain at the largest count is forgotten, so the page is freed while a holder remains |
| `Pmm.RetainCounts` | kernel/src/memory/pmm.cpp:210-225 | retain then release restores the state if and only if the count is at least 1 and below the maximum |
| `PageWalk.WalkIsLook` | kernel/src/memory/vmm.cpp:14-55 | the processor's four-level walk through physical memory gives what the tree of tables says, for every address; writing and user access need the bit at every level, and one no-execute bit is enough |
| `PageWalk.ThroughUser` | kernel/src/memory/vmm.cpp:40-55 | in a user space the tables above a page take none of the rights of its leaf entry |
| `PageWalk.ThroughOpened` | kernel/src/memory/vmm.cpp:40-55 | tables hooked in on the way restrict nothing: only the tables already there take rights away |
| `PageWalk.InsertEmpty` | kernel/src/memory/vmm.cpp:40-55 | hooking an empty table below an absent entry changes no translation |
| `PageWalk.InsertSplit` | kernel/src/memory/vmm.cpp:59-80 | replacing a 1 GiB or 2 MiB entry by its 512 parts leaves frame, effective rights and caching of every address as they were |
| `PageWalk.PutLook` | kernel/src/memory/vmm.cpp:145-146 | setting a leaf entry changes the translation of that page only |
| `PageWalk.PruneLook` | kernel/src/memory/vmm.cpp:82-99 | dropping a table with nothing present in it changes no translation |
| `VmSteps.SlotRebuilds` | kernel/src/memory/vmm.cpp:125-128 | the four indices are below 512 and are the digits of the low 48 bits of the address: with the page offset they add up to it again |
| `VmSteps.SlotIffPage` | kernel/src/memory/vmm.cpp:125-128 | two addresses below 2^48 have the same indices if and only if they lie in the same 4 KiB page |
| `VmSteps.HugeOffset` | kernel/src/memory/vmm.cpp:59-80 | a huge page translates an address to its base plus the low 30 or 21 bits |
| `Vmm.Mmu.constructor` | kernel/src/memory/vmm.cpp:105-112 | takes over the boot tables when they meet the invariant |
| `Vmm.Mmu.EnsureTable` | kernel/src/memory/vmm.cpp:40-55 | afterwards a table hangs below the entry, no walk with its effective rights and no user page has changed, only tables were added; fails only with no frame left |
| `Vmm.Mmu.SplitHuge` | kernel/src/memory/vmm.cpp:59-80 | the huge entry becomes a table, no walk with its effective rights has changed; fails only with no frame left |
| `Vmm.Mmu.MapPage` | kernel/src/memory/vmm.cpp:118-149 | a single-page update of the flat address space, whatever tables were added or huge pages split: the processor's walk now gives the frame with the rights asked for, in the kernel's space cut by the tables that were already there, and every other walk in every space gives what it gave; for a user root it is the map step of the flat machine; fails only without a root or a frame |
| `Vmm.Mmu.TableIsEmpty` | kernel/src/memory/vmm.cpp:82-87 | true if and only if no entry is present |
| `Vmm.Mmu.CleanupTable` | kernel/src/memory/vmm.cpp:91-99 | frees the table and clears its parent entry if and only if nothing is present in it; no translation changes |
| `Vmm.Mmu.UnmapPage` | kernel/src/memory/vmm.cpp:151-193 | a single-page removal: its walk faults and every other walk gives what it gave; an unmapped page changes nothing; the tables freed are exactly those that served that page alone; for a user root it is the unmap step of the flat machine |
| `VmSteps.UnmapTables` | kernel/src/memory/vmm.cpp:179-192 | the three cleanups in a row remove exactly the tables on the path that translate nothing but the page |
| `VmSteps.EnsureStep` | kernel/src/memory/vmm.cpp:40-55 | the invariant of tables, frames and counts, every translation and every user page survive an added table |
| `VmSteps.SplitStep` | kernel/src/memory/vmm.cpp:59-80 | the same for a split |
| `VmSteps.SetPageStep` | kernel/src/memory/vmm.cpp:145-146 | the invariant survives setting one leaf entry, which is a one-key update of the flat view |
| `VmSteps.PruneStep` | kernel/src/memory/vmm.cpp:91-99 | the invariant, every translation and every user page survive dropping an empty table |
| `VmSteps.PageSetIsStep` | kernel/src/memory/vmm.cpp:118-149 | mapping a fresh frame is the map step of the flat copy-on-write machine |
| `VmSteps.UserWalk` | kernel/src/memory/vmm.cpp:118-149 | the walk of a user page has exactly the frame and rights of its leaf entry |
| `VmSteps.CloneWalks` | kernel/src/memory/vmm.cpp:281-318 | after a clone each user page of both spaces walks to the frame it had with its rights less writing |
| `VmSteps.BareInv` | kernel/src/memory/vmm.cpp:105-112 | an empty kernel root in any memory meets the invariant that every operation keeps |
| `VmSteps.UnmapIsStep` | kernel/src/memory/vmm.cpp:151-193 | unmapping a user page is the unmap step of the flat machine; its frame stays referenced by whoever mapped it |
| `Cow.ShareExactIff` | kernel/src/memory/vmm.cpp:297-302 | sharing keeps every count exact if and only if the counter is not saturated |
| `Cow.ShareKeepsInv` | kernel/src/memory/vmm.cpp:297-302 | one more sharer of a page keeps counts, sole writers and placement |
| `Cow.DropKeepsInv` | kernel/src/memory/vmm.cpp:326-330 | giving up an entry keeps them |
| `Cow.ReclaimKeepsInv` | kernel/src/memory/vmm.cpp:423-428 | making the last sharer writable again keeps them |
| `Cow.CopyOutKeepsInv` | kernel/src/memory/vmm.cpp:430-446 | moving one sharer to a private copy keeps them |
| `Cow.MapOverKeepsInv` | kernel/src/memory/vmm.cpp:145-146 | mapping a fresh frame over anything keeps them |
| `CowRuns.StepKeepsInv` | kernel/src/memory/vmm.cpp:281-466 | exact counts, sole writers and placement survive every step, whose definition speaks of entries, counts and contents only |
| `CowRuns.CloneKeepsInv` | kernel/src/memory/vmm.cpp:281-318 | they survive copying a space: each page of the source adds one reference |
| `CowRuns.FailKeepsInv` | kernel/src/memory/vmm.cpp:281-318 | they survive a copy that was abandoned, whose references stay behind |
| `CowRuns.FreeKeepsInv` | kernel/src/memory/vmm.cpp:322-339 | they survive tearing a space down: each page gives one reference back |
| `CowRuns.StepRefines` | kernel/src/memory/vmm.cpp:281-466 | each operation acts on what the spaces read as it would if fork copied every page |
| `CowRuns.LazyIsEager` | kernel/src/memory/vmm.cpp:281-466 | copy-on-write refines eager copying: from any sound state, after every run of map, clone, failed clone, fault, write and free by any number of spaces, each space reads at each page what it would had every clone copied |
| `CowRuns.RunKeepsCounts` | kernel/src/memory/vmm.cpp:281-466 | in every state of every run from a sound state each frame's count is the number of leaf entries naming it plus the references held elsewhere, and a writable entry is its frame's only mapping |
| `CowRuns.SpacesIsolated` | kernel/src/memory/vmm.cpp:281-466 | no run of other spaces changes what a space reads or may write |
| `Vmm.Mmu.CreateUserPml4` | kernel/src/memory/vmm.cpp:249-271 | a new root with nothing mapped in the user half and the kernel's entries above; fails only without a kernel root or a frame |
| `Vmm.Mmu.CloneTable` | kernel/src/memory/vmm.cpp:281-318 | the finished copy shares every page below it; it succeeds exactly if there are as many free frames as the subtree has tables, and uses that many; a failed copy leaves the source mapping what it mapped |
| `Vmm.Mmu.CloneAddressSpace` | kernel/src/memory/vmm.cpp:350-395 | is the clone step of the flat machine and copies the kernel's half; each user page then walks, in both spaces, to the frame it had, with its rights less writing; it succeeds exactly if there is one free frame per table of the source; a failure changes nothing that any space reads |
| `Vmm.Mmu.FreeTree` | kernel/src/memory/vmm.cpp:322-339 | every page reference and every table below is given back and nothing else changes |
| `Vmm.Mmu.FreeAddressSpace` | kernel/src/memory/vmm.cpp:449-466 | is the free step of the flat machine: the tables of that root are gone, all others stay, nothing is lost |
| `Vmm.Mmu.HandleCowFault` | kernel/src/memory/vmm.cpp:397-447 | succeeds exactly for a user write to a present copy-on-write page, unless a copy is needed and no frame is left; then it is the fault step of the flat machine |
| `Vmm.Mmu.UserWrite` | kernel/src/memory/vmm.cpp:397-447 | a write, fault included, is seen as the eager machine would see it; it is refused exactly when the page may neither be written nor be given a copy, and only done where the processor's walk lets the user write |
| `Vmm.Mmu.UserRead` | kernel/src/memory/vmm.cpp:397-447 | a read gives the byte of the eager view, and is refused exactly when the processor's walk does not let the user read |
| `Vmm.Mmu.AllocUserFrame` | kernel/src/memory/pmm.cpp:184-186 | a frame for a user page is one that nobody maps, held once by the caller |
| `Vmm.Mmu.FreeUserFrame` | kernel/src/memory/pmm.cpp:242-244 | gives a held frame back: the unhold step of the flat machine, and the frame is free exactly if that was its last reference |
| `VmSteps.FreeFramesRestored` | kernel/src/memory/vmm.cpp:449-466 | two moments without user spaces, with the same kernel tables and the same frames held elsewhere, have exactly the same free frames |
| `VmSteps.CloneIsStep` | kernel/src/memory/vmm.cpp:350-395 | the copied tables amount to one clone step |
| `VmSteps.CloneFailIsStep` | kernel/src/memory/vmm.cpp:350-395 | an abandoned copy amounts to marking the source copy-on-write |
| `VmSteps.FreeIsStep` | kernel/src/memory/vmm.cpp:449-466 | teardown amounts to one free step |
| `VmSteps.ReclaimIsStep` | kernel/src/memory/vmm.cpp:423-428 | taking back the last reference amounts to one fault step |
| `VmSteps.CopyIsStep` | kernel/src/memory/vmm.cpp:430-446 | copying out amounts to one fault step |
| `VmSteps.UnholdIsStep` | kernel/src/memory/pmm.cpp:242-244 | giving back an outside reference amounts to one unhold step |
| `KernelHeap.Arena.constructor` | kernel/src/memory/heap.cpp:168-175 | starts without regions |
| `KernelHeap.Arena.SetBlock` | kernel/src/memory/heap.cpp:72-75 | header and footer both hold size and flag |
| `KernelHeap.Arena.RemoveFromFreeList` | kernel/src/memory/heap.cpp:98-106 | takes out exactly the node asked for; an absent one changes nothing |
| `KernelHeap.Arena.AddToFreeList` | kernel/src/memory/heap.cpp:108-115 | the node goes where the addresses put it |
| `KernelHeap.Arena.FindFit` | kernel/src/memory/heap.cpp:189-226 | for every size, the first block of the list whose 64-bit sum is not larger than the block |
| `KernelHeap.Arena.GrowHeap` | kernel/src/memory/heap.cpp:141-158 | adds sixteen fresh pages as one free block; fails, changing nothing, only with a full table or no such run |
| `KernelHeap.Arena.Alloc` | kernel/src/memory/heap.cpp:177-233 | keeps the heap invariant; hands out the aligned first fit, adds exactly one live block and keeps what every other holds; the block is less than 32 bytes larger than the least that serves, what is left over becomes a free block if it has 32 bytes or more, and the free bytes fall by exactly the size of the block; fails exactly when nothing fits and the heap cannot grow |
| `KernelHeap.Arena.Release` | kernel/src/memory/heap.cpp:235-298 | keeps the heap invariant; removes exactly the one live block, merges both ways and keeps what every other block holds |
| `KernelHeap.Arena.MergeForward` | kernel/src/memory/heap.cpp:264-277 | afterwards no free block follows; live blocks and their contents stay |
| `KernelHeap.Arena.MergeBackward` | kernel/src/memory/heap.cpp:279-295 | afterwards merging is complete; live blocks and their contents stay |
| `KernelHeap.Arena.Contains` | kernel/src/memory/heap.cpp:300-314 | true if and only if some region holds the address |
| `KernelHeap.Arena.UserWrite` | kernel/src/memory/heap.cpp:177-233 | whatever the owner writes anywhere in a live range, the heap stays sound |
| `KernelHeap.Arena.Stats` | kernel/src/memory/heap.cpp:316-343 | while each region starts with a block, used plus free is the total, which is the size of all regions and the pages behind them; each sum is over exactly the blocks of that kind |
| `HeapSteps.TakeInv` | kernel/src/memory/heap.cpp:98-106 | the invariant survives taking a block off the list |
| `HeapSteps.PutBackInv` | kernel/src/memory/heap.cpp:108-115 | the invariant survives putting it back in address order |
| `HeapSteps.UseAllInv` | kernel/src/memory/heap.cpp:215-221 | the invariant survives handing out a whole block |
| `HeapSteps.SplitOffInv` | kernel/src/memory/heap.cpp:208-221 | the invariant survives splitting a block |
| `HeapRelease.MarkFreeInv` | kernel/src/memory/heap.cpp:246-252 | the invariant survives marking a block free |
| `HeapRelease.MergeNextInv` | kernel/src/memory/heap.cpp:264-277 | the invariant survives merging with the next block |
| `HeapRelease.MergePrevInv` | kernel/src/memory/heap.cpp:279-295 | the invariant survives merging with the previous block |
| `HeapRelease.GrownInv` | kernel/src/memory/heap.cpp:121-158 | the invariant survives a new region |
| `HeapLaws.LiveRanges` | kernel/src/memory/heap.cpp:177-298 | live ranges are aligned, lie inside the regions and are pairwise disjoint |
| `HeapLaws.MetadataApart` | kernel/src/memory/heap.cpp:72-115 | no header, footer, shift word or list link lies in a live range |
| `HeapLaws.ShiftRecovers` | kernel/src/memory/heap.cpp:77-96 | the word before a live pointer leads back to its header, whose flag and size are right |
| `HeapLaws.UserWriteInv` | kernel/src/memory/heap.cpp:177-298 | the invariant survives any write to a live range |
| `HeapLaws.TilingUnique` | kernel/src/memory/heap.cpp:251-298 | full coalescing determines the heap: the live blocks alone fix every free block, so the order of calls does not matter |
| `HeapLaws.EachTiled` | kernel/src/memory/heap.cpp:316-343 | regions that do not abut are each tiled by themselves |
| `HeapLaws.PerRegionIff` | kernel/src/memory/heap.cpp:316-343 | each region is tiled by itself if and only if each still starts with a block, which is what the walk over the regions relies on |
| `HeapLaws.AllFree` | kernel/src/memory/heap.cpp:235-298 | once nothing is live each region is one maximal free block, whatever the order of the calls |
| `HeapLaws.MergeKeepsRegionsIff` | kernel/src/memory/heap.cpp:264-277 | forward merging keeps each region tiled by itself if and only if the next block does not start another region |
| `HeapLaws.AbuttingRegionsMerge` | kernel/src/memory/heap.cpp:264-277 | two abutting free regions that become one block |
| `HeapSpec.AlignUpLeast` | kernel/src/memory/heap.cpp:160-162 | rounding yields the least multiple that is not smaller |
| `HeapSpec.WantedLeast` | kernel/src/memory/heap.cpp:197-203 | the bytes taken are the fewest that hold header, shift word, aligned range and footer |
| `HeapSpec.PlacedTook` | kernel/src/memory/heap.cpp:205-222 | placing a request takes those bytes, or the whole block if less than 32 would be left, and leaves the rest free |
| `KernelHeap.TookFell` | kernel/src/memory/heap.cpp:205-222 | the free bytes fall by exactly the size of the new block, which is less than 32 larger than needed |
| `HeapSpec.ExactIff` | kernel/src/memory/heap.cpp:197-203 | pointer and size of one block come out right in 64 bits if and only if neither sum reaches 2^64 |
| `HeapSpec.ExactBelowIff` | kernel/src/memory/heap.cpp:197-203 | no block below a limit can make a sum wrap if and only if limit + alignment + 13 and size + alignment + 22 are below 2^64, which a caller can check |
| `HeapSpec.HugeRequestWraps` | kernel/src/memory/heap.cpp:197-203 | a request near 2^64 that wraps to the smallest block |
| `HeapSpec.HugeRequestHandsOut` | kernel/src/memory/heap.cpp:189-226 | a request within 24 bytes of 2^64 is not refused though nothing fits: the search stops at the first free block, takes 32 bytes of it, and the range handed out leaves the block |
| `HeapSpec.TagReadsBackIff` | kernel/src/memory/heap.cpp:11-75 | size and flag can be read back from a header if and only if the size is even; an odd free block reads as allocated |
| `HeapSpec.EvenlyIff` | kernel/src/memory/heap.cpp:197-213 | a request cuts every block at an even place if and only if its size is even or it is one byte with the smallest alignment |
| `HeapSpec.PlacedLive` | kernel/src/memory/heap.cpp:205-222 | placing a request adds one live block and keeps the others |
| `HeapSpec.LargeNeverFits` | kernel/src/memory/heap.cpp:141-158 | while regions do not abut, 64 KiB or more never fits |
| `HeapSpec.RoundTrip` | kernel/src/memory/heap.cpp:177-298 | releasing a block just allocated gives back the heap from before |
| `Slices.ClassFor` | kernel/src/memory/slice_allocator.cpp:42-56 | the smallest class that is large enough, and none exactly when the size or alignment asks too much |
| `Slices.ClassTight` | kernel/src/memory/slice_allocator.cpp:42-56 | the class sizes are powers of two, so a slice is 16 bytes or less than twice as large as was asked for |
| `Slices.SlicesDisjoint` | kernel/src/memory/slice_allocator.cpp:58-82 | a slice lies in one page, has one class, and overlaps no other |
| `Slices.SliceAllocator.constructor` | kernel/src/memory/slice_allocator.cpp:88-101 | starts empty |
| `Slices.SliceAllocator.GrowClass` | kernel/src/memory/slice_allocator.cpp:58-82 | a fresh page becomes slices of that class only; fails exactly with no page left |
| `Slices.SliceAllocator.Alloc` | kernel/src/memory/slice_allocator.cpp:103-120 | hands out a slice of the right class that was not live; fails only with an empty list and no page left |
| `Slices.SliceAllocator.Free` | kernel/src/memory/slice_allocator.cpp:122-139 | the slice goes to the front of the list of its class; counts stay exact |
| `Kalloc.RoutesBackIff` | kernel/src/memory/allocator.cpp:22-65 | freeing goes to the backend that produced the block, except exactly for small blocks with an alignment above 16 |
| `Kalloc.RoutesAstray` | kernel/src/memory/allocator.cpp:22-56 | 8 bytes with an alignment of 32 come from the heap and are freed as a slice |
| `Kalloc.AstrayRelease` | kernel/src/memory/allocator.cpp:48-56 | after such a release the class hands out next a pointer that is no slice, into a heap block that is still tagged live |
| `Kalloc.PageCountIs` | kernel/src/memory/allocator.cpp:12-14 | the pages of a large block are the fewest that hold it; for the last 4095 sizes below 2^64 the sum wraps to none |
| `Kalloc.AlignedFor` | kernel/src/memory/allocator.cpp:22-46 | a heap pointer is a multiple of the power of two asked for, and of 8 |
| `Kalloc.LiveDisjoint` | kernel/src/memory/allocator.cpp:22-65 | blocks of slices, heap and page runs never overlap |
| `Kalloc.Kmem.constructor` | kernel/src/memory/allocator.cpp:22-65 | starts with nothing live |
| `Kalloc.Kmem.LiveBlocksDisjoint` | kernel/src/memory/allocator.cpp:22-65 | in every state live blocks are pairwise disjoint |
| `Kalloc.Kmem.Alloc` | kernel/src/memory/allocator.cpp:22-46 | a new live block of that size, at a multiple of the power of two asked for, or null with nothing changed for the others; for each backend, when null is returned |
| `Kalloc.Kmem.Free` | kernel/src/memory/allocator.cpp:48-65 | with its original size a block goes back to the class, heap block or run it came from, and the other backends do not change |
| `DList.LinkBackList` | kernel/src/kernel/task.cpp:84-93 | linking at the tail keeps a doubly linked list |
| `DList.LinkFrontList` | kernel/src/process/process.cpp:158-166 | linking at the head keeps a doubly linked list |
| `DList.UnlinkList` | kernel/src/kernel/task.cpp:111-126 | unlinking any node keeps a doubly linked list |
| `Tasks.Scheduler.constructor` | kernel/src/kernel/task.cpp:246-289 | the boot task runs and the idle task is queued |
| `Tasks.Scheduler.ReadyPush` | kernel/src/kernel/task.cpp:84-93 | appends to the queue |
| `Tasks.Scheduler.ReadyPop` | kernel/src/kernel/task.cpp:95-109 | takes the head, or null from an empty queue |
| `Tasks.Scheduler.ReadyRemove` | kernel/src/kernel/task.cpp:111-126 | takes that one task out |
| `Tasks.Scheduler.ScheduleInternal` | kernel/src/kernel/task.cpp:135-176 | one scheduling decision, with all its early returns |
| `Tasks.Scheduler.DoYield` | kernel/src/kernel/task.cpp:318-324 | a yield; the scheduler invariant is kept |
| `Tasks.Scheduler.DoBlock` | kernel/src/kernel/task.cpp:326-332 | a block; the scheduler invariant is kept |
| `Tasks.Scheduler.DoWake` | kernel/src/kernel/task.cpp:334-339 | a wake, which does nothing to a task that is not blocked; the scheduler invariant is kept |
| `Tasks.Scheduler.DoPreempt` | kernel/src/kernel/task.cpp:384-400 | a preemption, which does nothing before the scheduler starts; the scheduler invariant is kept |
| `Tasks.Scheduler.DoEnqueue` | kernel/src/kernel/task.cpp:402-413 | a new task at the end of the queue |
| `Tasks.Scheduler.DoFinish` | kernel/src/kernel/task.cpp:226-242 | the end of a kernel task; the scheduler invariant is kept |
| `Tasks.Scheduler.StartScheduler` | kernel/src/kernel/task.cpp:341-370 | establishes the scheduler invariant |
| `Sched.DecideInv` | kernel/src/kernel/task.cpp:135-176 | a decision establishes the invariant: no duplicates, neither the running nor a blocked task queued, every ready task queued, the idle task running or queued |
| `Sched.RunInv` | kernel/src/kernel/task.cpp:84-413 | the invariant holds in every state of every run |
| `Sched.QueueMoves` | kernel/src/kernel/task.cpp:135-176 | a decision moves everyone up one place; nothing else moves anyone |
| `Sched.DispatchedInTurn` | kernel/src/kernel/task.cpp:84-413 | a task at position k has had the processor after k + 1 decisions, in every run |
| `Sched.InterruptedYieldQueuesTwice` | kernel/src/kernel/task.cpp:318-324 | a preemption between the two halves of a yield breaks the scheduler invariant in every state: the yielder is queued twice, or queued while it runs |
| `Forest.PidRefusedIff` | kernel/src/process/process.cpp:95-109 | a pid is refused exactly when all are taken, wherever the hint stands |
| `Forest.PidNearest` | kernel/src/process/process.cpp:95-109 | no free pid lies nearer ahead of the hint than the one found |
| `Forest.CreatedInv` | kernel/src/process/process.cpp:131-170 | creation keeps the forest: lists, distinct pids, exact bitmap, acyclic parents, childless zombies |
| `Forest.ReapedInv` | kernel/src/process/process.cpp:172-185 | reaping a zombie keeps the forest |
| `Forest.ReparentedIs` | kernel/src/process/process.cpp:187-198 | all children move behind those of the new parent, in order; nothing else changes |
| `Forest.ExitedIs` | kernel/src/process/syscall.cpp:195-223 | what exit does to each process of the table |
| `Forest.ExitedInv` | kernel/src/process/syscall.cpp:195-223 | exit keeps the forest |
| `Forest.NoCycle` | kernel/src/process/process.cpp:25-34 | no chain of parents returns to where it started |
| `ProcTable.ProcessTable.constructor` | kernel/src/process/process.cpp:84-93 | no process, all pids free |
| `ProcTable.ProcessTable.PidAlloc` | kernel/src/process/process.cpp:95-109 | takes the free pid that lies nearest ahead of the hint, counting round; none exactly if all are taken |
| `ProcTable.ProcessTable.PidFree` | kernel/src/process/process.cpp:111-116 | clears that bit only |
| `ProcTable.ProcessTable.FindProcess` | kernel/src/process/process.cpp:118-125 | a listed process with that pid, and null exactly if there is none |
| `ProcTable.ProcessTable.LinkChild` | kernel/src/process/process.cpp:25-34 | appends to the child list |
| `ProcTable.ProcessTable.UnlinkChild` | kernel/src/process/process.cpp:36-49 | takes that child out |
| `ProcTable.ProcessTable.UnlinkGlobal` | kernel/src/process/process.cpp:51-62 | takes that process out of the global list |
| `ProcTable.ProcessTable.ProcessCreate` | kernel/src/process/process.cpp:131-170 | a new process at the head of the global list and the tail of its parent; null and no change exactly when pids have run out |
| `ProcTable.ProcessTable.ReapProcess` | kernel/src/process/process.cpp:172-185 | removes a zombie from both lists and frees its pid; does nothing to any other process |
| `ProcTable.ProcessTable.ReparentChildren` | kernel/src/process/process.cpp:187-198 | the linked lists end up as the specification says |
| `ProcTable.ProcessTable.MarkExit` | kernel/src/process/syscall.cpp:195-212 | the process is a zombie and its children are with the process of pid 0 |
| `ProcTable.ProcessTable.ReapZombiesOfInit` | kernel/src/process/process.cpp:200-212 | reaps exactly the zombies among the children of the process of pid 0 |
| `System.YieldInv` | kernel/src/kernel/task.cpp:318-324 | the machine invariant survives a reschedule |
| `System.BirthInv` | kernel/src/process/syscall.cpp:227-282 | it survives fork and spawn, failed ones included |
| `System.ExitInv` | kernel/src/process/syscall.cpp:195-223 | it survives exit, with reparenting and the wake of the parent |
| `System.WaitInv` | kernel/src/process/syscall.cpp:336-386 | it survives a pass of waitpid: collecting, returning at once or blocking |
| `System.SweepInv` | kernel/src/process/process.cpp:200-212 | it survives the sweep of the zombies of init |
| `System.SweepExactly` | kernel/src/process/process.cpp:200-212 | the sweep removes exactly the zombies among the children of init, so none is left |
| `System.FindZombieIs` | kernel/src/process/syscall.cpp:347-359 | the first matching zombie child, and none exactly if there is none |
| `System.FindZombieByPid` | kernel/src/process/syscall.cpp:347-359 | stated in pids: waiting for a pid finds the zombie child that has it, and waiting for any finds the first zombie child; none exactly if there is none |
| `System.HasMatchByPid` | kernel/src/process/syscall.cpp:347-372 | stated in pids: whether a child counts |
| `SystemRuns.StepInv` | kernel/src/process/syscall.cpp:195-386 | every step keeps the machine invariant |
| `SystemRuns.StepExists` | kernel/src/process/syscall.cpp:195-386 | no step is stuck on its own demands |
| `SystemRuns.RunInv` | kernel/src/process/syscall.cpp:195-386 | the machine invariant holds in every state of every run |
| `SystemRuns.BootedInv` | kernel/src/kernel/task.cpp:341-370 | it holds after boot |
| `SystemRuns.NoLostWakeup` | kernel/src/process/syscall.cpp:336-386 | in every reachable state a process blocked in waitpid is registered as waiter and, unless it is init, has a matching child and no matching zombie; for init see the rows of `InitWaits` |
| `SystemRuns.ExitWakesParent` | kernel/src/process/syscall.cpp:195-223 | when a child exits, a parent blocked in waitpid runs or is queued |
| `SystemRuns.StatusKept` | kernel/src/process/syscall.cpp:195-386 | over every run an exit status stays with the zombie, unchanged, until it is collected or init reaps it |
| `SystemRuns.StepRemoves` | kernel/src/process/syscall.cpp:336-386 | a process leaves the table only by its parent collecting its status or by the sweep for children of init |
| `SystemRuns.CollectedOnce` | kernel/src/process/syscall.cpp:336-386 | no status is collected twice in any run |
| `SystemRuns.EndedForever` | kernel/src/process/syscall.cpp:195-223 | a thread that has exited is never dispatched or queued again |
| `SystemRuns.StepIsSchedRun` | kernel/src/process/syscall.cpp:195-386 | each step is at most two scheduler operations, of which the last may be a decision |
| `SystemRuns.RunIsSchedRun` | kernel/src/process/syscall.cpp:195-386 | a whole run is one run of the scheduler with as many decisions |
| `SystemRuns.StepMoves` | kernel/src/process/syscall.cpp:195-386 | a deciding step gives the processor to the head of the queue and moves everyone else up one place; no other step moves anyone |
| `SystemRuns.DispatchedInTurn` | kernel/src/process/syscall.cpp:195-386 | in every run of the whole machine a task at position k of the queue has had the processor by the (k + 1)-th decision |
| `InitWaits.InitMissesIff` | kernel/src/process/syscall.cpp:195-223 | a step leaves a blocked init beside a matching zombie if and only if it is the exit of a process that is not its child and has a matching zombie child |
| `InitWaits.ExitWakesInitIff` | kernel/src/process/syscall.cpp:213-217 | exit wakes a blocked init if and only if the caller is its child |
| `InitWaits.InitNoLostWakeup` | kernel/src/process/syscall.cpp:195-386 | in every run without such an exit a blocked init has a matching child and no matching zombie |
| `BootRuns.InitMissesFromBoot` | kernel/src/process/syscall.cpp:195-223 | a run of fourteen steps from boot after which init sleeps on beside its new zombie child |
| `StuckWaits.StuckForever` | kernel/src/process/syscall.cpp:336-386 | a process other than init that is in waitpid with nothing but half-made children to wait for stays there in every run |
| `StuckWaits.StepStuck` | kernel/src/process/syscall.cpp:195-386 | no step gets it out |
| `StuckWaits.WaitStuckIff` | kernel/src/process/syscall.cpp:336-386 | a blocking waitpid gets stuck if and only if a child matches and all matching children were left half made by a failed fork |
| `StuckWaits.ExitServes` | kernel/src/process/syscall.cpp:195-223 | a matching child that did start serves its blocked parent by exiting: it is then a zombie on the list, and the parent runs or is queued |
| `BootRuns.StuckFromBoot` | kernel/src/process/syscall.cpp:227-282 | a run of seven steps from boot that ends in such a waitpid |
| `Syscalls.Kernel.constructor` | kernel/src/kernel/task.cpp:341-370 | the machine after boot |
| `Syscalls.OutcomeIs` | kernel/src/process/syscall.cpp:336-386 | stated in pids: waiting for a pid returns it with its status exactly if that child is a zombie, an error exactly if no child has it, and blocks or returns zero exactly if it lives; the same for any child |
| `Syscalls.Kernel.ScanZombie` | kernel/src/process/syscall.cpp:347-359 | the loop over the child list finds the first matching zombie, matching being stated in pids |
| `Syscalls.Kernel.SysFork` | kernel/src/process/syscall.cpp:227-282 | is the fork step; it succeeds exactly if space, thread and pid could be had, and returns the pid of the new child of the caller |
| `Syscalls.Kernel.Spawn` | kernel/src/process/syscall.cpp:117-163 | is the spawn step; it succeeds exactly if space, thread and pid could be had, and returns the new pid |
| `Syscalls.Kernel.WakeParent` | kernel/src/process/syscall.cpp:213-217 | wakes exactly the registered waiter and clears the registration |
| `Syscalls.Kernel.SysExit` | kernel/src/process/syscall.cpp:195-223 | is the exit step |
| `Syscalls.Kernel.WaitPass` | kernel/src/process/syscall.cpp:336-386 | is the wait step; in pids, which of pid and status, no child, zero or blocking results |
| `Syscalls.Kernel.ReapInit` | kernel/src/process/process.cpp:200-212 | is the sweep step: exactly the zombies among the children of init are gone |
| `Syscalls.Kernel.Reschedule` | kernel/src/kernel/task.cpp:318-324 | is the yield or preemption step |
| `Wheel.InsertInv` | kernel/src/kernel/timer.cpp:61-80 | filing an entry at either level, or running a periodic one at once if it is 65536 or more ticks away and filing it by its period, keeps the wheel invariant |
| `Wheel.InsertEndsIff` | kernel/src/kernel/timer.cpp:36-80 | insertion by a caller that holds the lock, as in creation, returns if and only if the deadline is less than 65536 ticks away or the period is between 1 and 65535 |
| `Wheel.FarOneShotHangs` | kernel/src/kernel/timer.cpp:125-144 | creating a one-shot timer 65536 or more ticks ahead runs its callback once, early, and never returns: putting the entry back takes the lock that creation holds |
| `Wheel.FarForever` | kernel/src/kernel/timer.cpp:61-80 | a far entry with a period of 65536 or more is run again in every round of insertion |
| `Wheel.RearmEndsIff` | kernel/src/kernel/timer.cpp:82-90 | arming again after a callback, without the lock, returns if and only if the period is below 65536 |
| `Wheel.LockedFreeHangs` | kernel/src/kernel/timer.cpp:165-175 | putting an entry back into the pool under the lock, as cancellation does, never returns |
| `Wheel.TickInv` | kernel/src/kernel/timer.cpp:177-194 | the wheel invariant survives the start of a tick |
| `Wheel.DrainInv` | kernel/src/kernel/timer.cpp:177-194 | it survives taking an entry out of the bucket under the cursor |
| `Wheel.SettleInv` | kernel/src/kernel/timer.cpp:82-90 | it survives what follows a callback: back to the pool or filed again |
| `Wheel.CascadeInv` | kernel/src/kernel/timer.cpp:92-109 | it survives moving one entry down a level |
| `WheelRuns.RunInv` | kernel/src/kernel/timer.cpp:44-194 | in every state of every run each pool entry is in exactly one bucket, in the free list or being fired |
| `WheelRuns.EarlyIff` | kernel/src/kernel/timer.cpp:44-194 | over every run, a timer runs before its deadline if and only if it runs in its own creation, which needs a deadline 65536 or more ticks ahead; creations that never return are no steps of a run |
| `WheelRuns.NeverEarly` | kernel/src/kernel/timer.cpp:44-194 | so in a run without such a creation no timer runs before its deadline, whichever levels it crosses |
| `WheelRuns.StepPending` | kernel/src/kernel/timer.cpp:177-194 | a level 0 entry stays due at the same tick until it runs at that tick |
| `WheelRuns.RunsExactlyThen` | kernel/src/kernel/timer.cpp:177-194 | once the wheel has passed that tick the entry has run, first at that very tick |
| `WheelRuns.CreatedDue` | kernel/src/kernel/timer.cpp:61-80 | a timer made between ticks with a delay of 1 to 255 is due in the (delay + 1)-th tick that follows |
| `WheelRuns.RepeatedDue` | kernel/src/kernel/timer.cpp:82-90 | a period of 1 to 255 makes it due exactly that many ticks later |
| `WheelRuns.OneShotExact` | kernel/src/kernel/timer.cpp:44-194 | in every run a one-shot timer with a delay of 1 to 255 runs first at tick now + delay + 1 |
| `WheelRuns.PeriodicExact` | kernel/src/kernel/timer.cpp:44-194 | in every run a timer with delay and period of 1 to 255 runs exactly at ticks now + delay + 1 + n * period, at each of them that the run has passed and once each |
| `WheelRuns.FreshInv` | kernel/src/kernel/timer.cpp:115-123 | the invariant holds after set-up |
| `WheelHang.CascadeHangsIff` | kernel/src/kernel/timer.cpp:92-109 | a cascade never ends if and only if some entry of its bucket, filed or armed again at this tick, goes back into that bucket |
| `WheelHang.StepDoomed` | kernel/src/kernel/timer.cpp:92-194 | no step gets a wheel out of such a tick |
| `WheelHang.NeverIdle` | kernel/src/kernel/timer.cpp:92-194 | no run does |
| `WheelHang.TickDoomedIff` | kernel/src/kernel/timer.cpp:177-194 | before a tick: it will hang if and only if the cursor wraps and an entry of the level 1 bucket, or one about to run, is filed into that bucket |
| `WheelHang.HarmfulHangs` | kernel/src/kernel/timer.cpp:61-194 | a timer armed, by its creation or after its callback, into the bucket whose turn is next, with as many rounds still to go when the turn comes, makes the wheel hang at the next wrap in every run |
| `WheelHang.HarmlessHangsIff` | kernel/src/kernel/timer.cpp:61-194 | in a run in which no timer has been armed so, for all periods, a tick hangs if and only if it wraps and a timer that runs in it will be |
| `WheelHang.HarmlessNeverHangs` | kernel/src/kernel/timer.cpp:61-194 | from set-up, in a run in which no timer is created so and periods are below 256, no tick ever hangs |
| `WheelHang.RunClock` | kernel/src/kernel/timer.cpp:177-194 | in every run from set-up the number of ticks alone fixes both cursors |
| `WheelHang.HarmfulByClock` | kernel/src/kernel/timer.cpp:61-194 | which distances are harmful, as arithmetic on distance and number of ticks |
| `WheelHang.PeriodHangs` | kernel/src/kernel/timer.cpp:61-194 | checkable at creation: a timer with a delay of 1 to 255 and a period of 256 to 65535 whose first callback will arm it so makes the wheel hang at the next wrap |
| `WheelHang.FreshCalm` | kernel/src/kernel/timer.cpp:115-123 | the wheel as set up meets the condition from which such runs start |
| `WheelHang.HangExample` | kernel/src/kernel/timer.cpp:61-194 | from set-up: one tick, then a one-shot timer 511 ticks ahead; tick 256 does not end |
| `Timers.TimerWheel.constructor` | kernel/src/kernel/timer.cpp:115-123 | every entry of the pool is free, on the linked free list |
| `Timers.TimerWheel.InsertEntry` | kernel/src/kernel/timer.cpp:61-80 | files the entry by its distance, one tick ahead if it is overdue, and by its period if it is 65536 or more ticks away |
| `Timers.TimerWheel.Create` | kernel/src/kernel/timer.cpp:125-163 | arms the first free entry, for every timer whose creation returns; fails, changing nothing, exactly when none is free |
| `Timers.TimerWheel.FireEntry` | kernel/src/kernel/timer.cpp:82-90 | is the settle step |
| `Timers.TimerWheel.Tick` | kernel/src/kernel/timer.cpp:177-194 | a tick that does not hang is a run of wheel steps that drains the whole bucket and, on wrap, cascades one bucket to its end |
| `Timers.LeadsRun` | kernel/src/kernel/timer.cpp:44-194 | the steps of a call are a run of the wheel, so what is proved of runs holds of the calls |
| `Timers.LeadsJoin` | kernel/src/kernel/timer.cpp:44-194 | calls one after the other make one run |
| `Intrusive.Store.Empty` | kernel/include/tori/kernel/container/intrusive_list.hpp:16-18 | true if and only if the list has no item |
| `Intrusive.Store.PushBack` | kernel/include/tori/kernel/container/intrusive_list.hpp:20-34 | the item is last; only nodes of the list change |
| `Intrusive.Store.PushFront` | kernel/include/tori/kernel/container/intrusive_list.hpp:36-50 | the item is first; only nodes of the list change |
| `Intrusive.Store.PopFront` | kernel/include/tori/kernel/container/intrusive_list.hpp:52-58 | takes the first item, or null from an empty list |
| `Intrusive.Store.Remove` | kernel/include/tori/kernel/container/intrusive_list.hpp:60-65 | takes out that item wherever it stands; only nodes of the list change |
| `Intrusive.OtherList` | kernel/include/tori/kernel/container/intrusive_list.hpp:20-65 | any other list without shared nodes is untouched |
| `Intrusive.Buckets.constructor` | kernel/include/tori/kernel/container/intrusive_list.hpp:14-65 | empty lists over one store |
| `Intrusive.Buckets.Empty` | kernel/include/tori/kernel/container/intrusive_list.hpp:16-18 | whether that list has no item |
| `Intrusive.Buckets.PushBack` | kernel/include/tori/kernel/container/intrusive_list.hpp:20-34 | the item is last on that list and all other lists are as before |
| `Intrusive.Buckets.PopFront` | kernel/include/tori/kernel/container/intrusive_list.hpp:52-58 | takes the first item of that list, which is then on no list; all other lists are as before |
| `Seqlock.StepInv` | kernel/include/tori/kernel/sync/seqlock.hpp:14-40 | the invariant of counter, version history and readers survives every single load and store, as long as no writer begins while another is inside |
| `Seqlock.RunInv` | kernel/include/tori/kernel/sync/seqlock.hpp:14-40 | it holds in every interleaving in which writers take turns |
| `Seqlock.ReadsOneVersion` | kernel/include/tori/kernel/sync/seqlock.hpp:14-40 | in every such interleaving a reader that is not told to retry has read every word from one completed version, the current one |
| `Seqlock.LetThroughIff` | kernel/include/tori/kernel/sync/seqlock.hpp:25-28 | the reader is let through if and only if the counter has moved by a multiple of 2^64 |
| `Seqlock.SecondWriterTears` | kernel/include/tori/kernel/sync/seqlock.hpp:14-40 | from any state of such a run in which a writer may begin while another is inside, six operations, its begin first, give a reader words of no completed version without telling it to retry |
| `Seqlock.FirstIntruderTears` | kernel/include/tori/kernel/sync/seqlock.hpp:14-40 | the first writer of a run that does not wait its turn makes that possible |
| `Seqlock.TornFromStart` | kernel/include/tori/kernel/sync/seqlock.hpp:14-40 | two writers and a reader get there from the start |
| `RwLock.StepInv` | kernel/include/tori/kernel/sync/rwlock.hpp:14-50 | the word counts the readers, or is -1 for the one writer, after every atomic operation |
| `RwLock.RunInv` | kernel/include/tori/kernel/sync/rwlock.hpp:14-50 | the same in every interleaving |
| `RwLock.WriterExcludesAll` | kernel/include/tori/kernel/sync/rwlock.hpp:14-50 | in every interleaving a writer is alone inside |
| `RwLock.TryWriteIff` | kernel/include/tori/kernel/sync/rwlock.hpp:42-46 | a try to write succeeds exactly when nobody is inside |
| `RwLock.WordBounded` | kernel/include/tori/kernel/sync/rwlock.hpp:14-29 | the word stays between -1 and the number of threads |
| `Elf.FillPage` | kernel/src/process/elf.cpp:148-184 | each byte of the page is what the segment specifies |
| `Elf.LoadSegment` | kernel/src/process/elf.cpp:130-185 | replaces exactly the segment's pages; fails exactly when frames run out |
| `Elf.CoversIff` | kernel/src/process/elf.cpp:136-137 | the pages of a segment are exactly those that hold one of its addresses; an empty segment has the page it starts in unless it starts at a page boundary |
| `Elf.Load` | kernel/src/process/elf.cpp:123-186 | builds the memory image of all headers, a later segment winning, with the break at the highest page end; fails exactly when frames run out |
| `Elf.SegmentReadsBack` | kernel/src/process/elf.cpp:130-185 | any address of a segment that shares no page with a later one reads the file byte below the file size and zero from there to the page end, with the right permissions |
| `Elf.AddressLoaded` | kernel/src/process/elf.cpp:130-185 | every address from the start of a segment to its memory size is loaded with the file byte or zero and the right permissions, if no later segment has an address in its page |
| `Elf.LastCover` | kernel/src/process/elf.cpp:125-186 | the last header that covers a page |
| `Elf.Break` | kernel/src/process/elf.cpp:165 | the highest page end of a segment that has a page |
| `Fat.SkipClusters` | kernel/src/fs/fat.cpp:238-245 | walks to the cluster of the offset, or finds that the chain has ended |
| `Fat.ReadChunk` | kernel/src/fs/fat.cpp:258-275 | the bytes of one cluster, sector by sector; succeeds if and only if each byte asked for can be read |
| `Fat.ClustersTile` | kernel/src/fs/fat.cpp:209-211 | cluster 2 starts with the first data sector and clusters lie one behind the other: while sector numbers fit 32 bits, each data sector is exactly one place of exactly one cluster |
| `Fat.GoesOnIff` | kernel/src/fs/fat.cpp:213-229 | a chain goes on after a cluster exactly if the table has an entry for it that names one; the top four bits of a FAT32 entry do not matter |
| `Fat.ReadFromChain` | kernel/src/fs/fat.cpp:231-284 | returns the slice of the concatenated clusters, cut at the chain end or before the first cluster of which a byte asked for cannot be read, if and only if the walk to the offset does not pass over a reserved cluster number and arrive at data; then the slice of the chain it has strayed to; terminates for every table, cyclic chains included |
| `Fat.ReadUnique` | kernel/src/fs/fat.cpp:231-284 | what a read returns is fully determined |
| `Fat.ReadIsSlice` | kernel/src/fs/fat.cpp:231-284 | if the device can read what is asked for, a read returns exactly the slice |
| `Fat.SliceUnique` | kernel/src/fs/fat.cpp:231-284 | there is only one such slice |
| `Fat.StrayExample` | kernel/src/fs/fat.cpp:238-245 | a chain that runs into cluster 1, where the walk goes on to another cluster |
| `Fat.NoStray` | kernel/src/fs/fat.cpp:238-245 | from a cluster number of at least 2, in a table without a link to cluster 1, no walk strays |
| `Fat.ReadFat16Root` | kernel/src/fs/fat.cpp:287-313 | the slice of the fixed root directory, cut at its size |
| `Overlay.MarkerOwn` | kernel/src/fs/overlayfs.cpp:41-50 | names of up to 250 characters have markers of their own |
| `Overlay.MarkerShared` | kernel/src/fs/overlayfs.cpp:41-50 | longer names share a marker if and only if their first 251 characters agree |
| `Overlay.MarkersRecognised` | kernel/src/fs/overlayfs.cpp:41-50 | every marker is recognised as one, as is every name that starts with .wh. |
| `Overlay.OverlayDir.BuildMergedList` | kernel/src/fs/overlayfs.cpp:80-159 | no name twice, and exactly the names other than markers that lookup finds, with the same kind |
| `Overlay.OverlayDir.IsHidden` | kernel/src/fs/overlayfs.cpp:123-138 | whether a writable layer above holds the marker |
| `Overlay.OverlayDir.Lookup` | kernel/src/fs/overlayfs.cpp:184-258 | resolves the name through the layers; for a directory, which layers make it up |
| `Overlay.OverlayDir.Unlink` | kernel/src/fs/overlayfs.cpp:320-356 | when it succeeds, and what the layers are then; a failure changes nothing |
| `Overlay.RemovedIff` | kernel/src/fs/overlayfs.cpp:320-356 | removing the first entry of a name makes the name disappear if and only if no second entry has it; so it does if no name occurs twice, and then none does afterwards |
| `Overlay.UnlinkHidesIff` | kernel/src/fs/overlayfs.cpp:320-356 | unlinking a read-only copy makes lookup fail if and only if the name is not its own marker |
| `Overlay.NotOwnMarker` | kernel/src/fs/overlayfs.cpp:41-50 | a name of less than the maximal length is never its own marker |
| `Overlay.UnlinkKeepsOthers` | kernel/src/fs/overlayfs.cpp:320-356 | no other name changes except the marker and names that share it |
| `Overlay.SharedMarkerHides` | kernel/src/fs/overlayfs.cpp:320-356 | a name that shares the marker disappears too if its topmost copy lies below the marker |
| `Overlay.SharedMarkerAbove` | kernel/src/fs/overlayfs.cpp:320-356 | and is left alone if not |
| `Overlay.UnlinkChangesIff` | kernel/src/fs/overlayfs.cpp:320-356 | unlinking a read-only copy changes what another name finds if and only if that name shares the marker, was found and lies below it; the marker itself apart |
| `Overlay.SharedMarkerExample` | kernel/src/fs/overlayfs.cpp:320-356 | two files with names of 252 characters: unlinking one hides the other |
| `Overlay.UnlinkUncovers` | kernel/src/fs/overlayfs.cpp:320-356 | after unlinking from a writable layer the name is what the layers below have, unless a marker hides it |
| `Overlay.UnlinkReveals` | kernel/src/fs/overlayfs.cpp:320-356 | unlinking a marker brings back the name it hid, unless another marker hides it |
| `Overlay.UnlinkKeepsOthersInPlace` | kernel/src/fs/overlayfs.cpp:320-356 | unlinking from a writable layer changes no name but that one and those it is the marker of |
| `Ramfs.RamFs.constructor` | kernel/src/fs/ramfs.cpp:331-347 | no files |
| `Ramfs.RamFs.Create` | kernel/src/fs/ramfs.cpp:124-150 | a new empty file; the others stay |
| `Ramfs.RamFs.Read` | kernel/src/fs/ramfs.cpp:219-248 | every byte ever written in the range is returned, cut at the size |
| `Ramfs.RamFs.Write` | kernel/src/fs/ramfs.cpp:250-295 | is one step of the offset-to-byte map of that file; the size grows to the end of the write; no other file changes; fails only with no frame or table left, keeping a written prefix |
| `Ramfs.OverlaidIs` | kernel/src/fs/ramfs.cpp:250-295 | which bytes a write changes, and to what |
| `Ramfs.OverlaidMore` | kernel/src/fs/ramfs.cpp:271-290 | writing page by page is writing at once |
| `Ramfs.LastWriteWins` | kernel/src/fs/ramfs.cpp:219-295 | after any run of writes to any files a byte is the one put there by the last write that hit it |
| `Ramfs.UnhitKept` | kernel/src/fs/ramfs.cpp:219-295 | writes that do not hit a byte leave it alone |
| `Ramfs.SizeIsFurthest` | kernel/src/fs/ramfs.cpp:253-292 | the size is the furthest end of a write |

## Left out

- Hardware: CR3, TLB flushes, interrupts, MSRs and drivers; a TLB flush does nothing in the model and locks around a call make it one step.
- Accessed, dirty and PAT bits of page-table entries; an entry is a record of frame, present, writable, user, write-through, cache-disable, no-execute, huge and the copy-on-write mark.
- How bitmaps are packed into words: page bitmap and pid bitmap are arrays of booleans.
- Panics: a call that would panic returns false.
- The ACPI part of the page allocator (freeing reclaimable regions later) and virtual range allocation.
- Vmm.Mmu.MapPage: a user root takes an address of the user half and a frame that nobody maps yet, and no huge flag, as all callers do.
- Vmm.Mmu.UnmapPage: only where no huge page is on the way, and for a user root only in the user half.
- Vmm.Mmu.CloneTable: needs fewer than 65535 sharers per frame, where the counter is full (`Cow.ShareExactIff`).
- Vmm.Mmu.CloneAddressSpace: the same; and after a failed clone the source abandons references, which the model counts as held elsewhere.
- Vmm.Mmu.UserWrite: a single byte; accesses across pages are several calls.
- KernelHeap.Arena.Alloc: sizes and alignments for which 64-bit sums do not wrap and sizes stay even (`HeapSpec.ExactBelowIff` and `HeapSpec.EvenlyIff` say which); alignment masks are modelled as rounding to a multiple.
- KernelHeap.Arena.Release: a pointer into a region that is not a live block is not modelled.
- KernelHeap.Arena.Stats: only while each region starts with a block; otherwise the source reads a word that is no header.
- Slices.SliceAllocator.Free: a pointer that is not a live slice is not modelled.
- Kalloc.Kmem.Alloc: small sizes take alignments up to 16 (`Kalloc.RoutesBackIff` says why), and heap sizes are even (`HeapSpec.EvenlyIff`).
- Processors other than the boot processor: they never have a current task.
- More than one thread in a process, exec, brk, file descriptors and user-pointer copies; whether memory for a new space or thread can be had is a parameter of fork and spawn.
- Reuse of process and task memory: each process and each task has a number of its own.
- Timer cancellation as a step of the wheel, because it never returns (`Wheel.LockedFreeHangs`); exact times of level 1 timers; callbacks that use the wheel.
- Timers.TimerWheel.Tick: only for ticks that end (`WheelHang.TickDoomedIff` says which do not).
- Timers.TimerWheel.InsertEntry: periods below 65536, and no one-shot timer 65536 or more ticks ahead, because insertion does not return otherwise (`Wheel.InsertEndsIff`, `Wheel.RearmEndsIff`).
- Timers.TimerWheel.Create: the same; one method for one-shot and periodic timers; the deadline is already computed.
- SystemRuns.NoLostWakeup: that a matching child exists and none is a zombie is stated for processes other than init; `InitWaits.InitMissesIff` says when it fails for init, and `StuckWaits.WaitStuckIff` when the matching child can never exit.
- Weak memory ordering: atomic operations are single sequentially consistent steps.
- Seqlock.ReadsOneVersion: writers take turns (`Seqlock.FirstIntruderTears` says what happens if they do not), and the counter does not go once round during a read (`Seqlock.LetThroughIff` says what happens if it does).
- Lock fairness and termination of spinning.
- Elf.Load: header checks, the user stack, failing reads of the file, failing table allocation inside the mapping, and wrap-around of 64-bit addresses.
- FAT directory entries, long names, writing and sectors other than 512 bytes.
- Overlay create, mkdir, rmdir, write, mounting, and whether a listing made earlier is still current; failing allocations of nodes and lists.
- RamFS directories, unlink and rmdir, holes (never-written bytes are unspecified), and writes whose end wraps.
- Ramfs.RamFs.Write: whether a longer page table can be had is a parameter.
- Console, keyboard, terminal, log, unwinder, demangler, ACPI tables and the boot adapter.
