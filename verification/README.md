# Charlotte OS: memory chain, scheduler and serial input, modelled and proved

Charlotte OS is a small RISC-V kernel. This project models the parts of it whose
correctness depends on state that many operations share, and proves what every run keeps.

**The physical-memory chain.** At boot, Memblock holds three sorted interval sets in fixed
arrays (`Regions.dfy`, `Memblock.dfy`). `map_segment` builds an Sv39 page table with mixed
4 KB and 2 MB leaves, taking directory pages from Memblock (`Sv39.dfy`, `PageTable.dfy`,
`Segments.dfy`, `SegmentCalls.dfy`). `init_buddy_system` hands what is left to the buddy
allocator (`Handoff.dfy`), whose sixteen free lists run through the free memory itself
(`Blocks.dfy`, `BuddySpec.dfy`, `Buddy.dfy`). `Boot.dfy` runs all of this in the kernel's
order. The small-object allocator carves buddy pages into objects (`Slub.dfy`).

**Tasks and serial input.** The scheduler, the blocking read and the receive interrupt are a
state machine with one step per trap (`SchedulerSpec.dfy`, `Kernel.dfy`). The classes in
`RingBuffer.dfy`, `Scheduler.dfy` and `Syscalls.dfy` do exactly these steps on their fields.
`Traps.dfy` says who runs next and `Results.dfy` what a call returns, for every step and run.
`Checked.dfy` is the same machine in a build that checks arithmetic, and `System.dfy` joins
the runs of the kernel to the memory that boot handed over.

Each subsystem has two layers. The lower layer is imperative, as the kernel is: arrays that
are shifted in place, links written into memory, fields that methods update. Its contracts
tie the new state to the upper layer, which is made of values: sets of blocks, sets of bytes,
translations, scheduler states. The theorems about runs are proved on the upper layer.

`dafny verify dfyconfig.toml` checks the whole project.

## Main results

- *Buddy normal form.* In every reachable state the free blocks are exactly the maximal
  aligned runs of free pages (`RunIsMaximal`). So an allocation fails only if no aligned run of
  its size is wholly free (`AllocFailsExactly`), else it gives the start of a smallest free
  block that is large enough (`AllocResult`), and once everything is freed, in any order, the
  free lists hold what they held at the start (`AllFreedRestores`).
- *Lists in free memory.* The linked lists stay acyclic and unshared and represent that set;
  no operation writes to a block that stays handed out (the methods of
  `BuddySystemFrameAllocator`).
- *Page tables mean what was mapped.* Any sequence of segment calls succeeds if and only if
  no map meets a live segment or a directory left behind, and then the table shows exactly the
  live segments; it stops for want of memory only if no page or no region slot is left, and
  not at all if there were more of both at the start than the calls need (`PerformAll`). Maps
  that are apart, and unmaps after them, meet nothing (`MapAll`, `UnmapAll`). The hardware walk
  sends every address of a live segment to its physical address, with the flags asked for, and
  faults on all others (`ShowsTranslates`, `ShowsNothingElse`). After boot kernel text is
  executable and not writable, read-only data only readable, all else readable and writable
  (`KernelIsProtected`).
- *Boot completes.* The boot sequence trips no assertion of the page table. It ends for want
  of memory only if no page is left, the page map fits nowhere or a region array is full, and
  a condition on the layout alone rules all of these out (`Boot`); the condition counts pages
  and calls through the whole sequence (`HistorySpoils`, `NoRoomBound`, `BootBound`), and a
  machine with 128 MB meets it (`VirtBoots`).
- *Memory after boot.* In every later run of the buddy allocator, each page it holds or hands
  out lies in RAM, meets no reservation, no early allocation and no directory page, and is
  readable and writable through the linear map (`BootIsSafe`). So is, at every point of every
  run of the kernel, each page of each task's stack (`StacksAreSafe`).
- *Scheduling.* In every run exactly one task runs, no lookup of a task, `unwrap`, `expect`
  or `unreachable!` fails (`StepKeeps`, `ExactlyOneRuns`), and a task at place `p` of the
  queue runs within `p + 1` dispatches (`BoundedWaiting`). The line of waiting tasks is
  exactly first in, first out (`StepLine`): of two tasks in it the one ahead runs first
  (`RunsInOrder`). Stacks are disjoint and never freed under the running task.
- *Serial input.* In every run as many of the bytes that arrived are missing as events lost
  one, and all are delivered or queued in order if and only if none did (`RunConservesIff`).
  A byte is delivered exactly when it becomes the result of a read (`DeliveredIsResult`),
  and a blocked read returns the next byte delivered, or that it timed out (`ReadReturns`).
  Without finite timeouts none is lost (`RunConserves`), and nobody wakes before a deadline
  that fits a word (`NeverWokenEarly`).
- *System calls.* What each call leaves the calling task as, by number (`CallMeans`), and that
  no event changes the result register of any other task (`StepResults`).
- *Checked arithmetic.* A step computed with operators that fail on overflow fails exactly
  under a condition on the event, and else is the same step (`CheckedStepIff`); the runs of
  such a build are the runs without overflow (`CheckedRunIff`), and in them every sleep is kept
  (`CheckedNeverWokenEarly`).

## Where the code does less than one would expect

- *Timed reads.* A task that times out of a read stays in the waiting queue. The next byte is
  then given to nobody (`ByteIsLost`), or to a later sleep of the task, which it ends early
  (`ByteGoesToSleeper`). `StepConservesIff` says exactly when a byte is lost: when the last
  waiter is not blocked in a read. In the same way a byte that arrives in time leaves the timer
  entry behind, which can end a later sleep early (`SleeperIsWokenEarly`). `WokenIff` says
  exactly which events end which waits, and `WokenEarlyIff` which end a timed one too early.
- *Long sleeps.* The wake time is computed in 64 bits. The longest sleep there is to ask for
  ends at the next timer interrupt (`LongSleepIsCut`); a sleep is kept if and only if its
  deadline fits a word (`SleepIsKeptIff`).
- *Overflow.* In a build with overflow checks such a sleep panics inside the trap, and so do a
  timer interrupt in the last 100 000 cycles of the clock, a spawn whose size is within a page
  of the largest word, and one whose stack ends at or above 4 GB (`LargestInputsPanic`).
  `CheckedStepIff` says that no other legal event does; if RAM ends below 4 GB the last kind
  does not happen (`SpawnFitsAfterBoot`).
- *Write without read.* The kernel takes an entry with W but not R as a leaf, the hardware
  does not: a page mapped with W alone faults (`WriteOnlyFaults`). `ShowsTranslates` gives the
  exact condition: the segment translates if and only if its flags are a legal leaf encoding.
- *Empty directories.* Unmapping 4 KB pages leaves their directory in place, which then blocks
  a later 2 MB page although nothing is mapped: map a page, unmap it, map the 2 MB around it
  (`EmptyDirectoryBlocks`). `MapSegment` gives the exact condition.

## What is taken from outside

Memory regions, times, received bytes, sizes of stacks and layouts are arbitrary parameters.
Every trap is one atomic step, because the kernel runs one hart and enters traps with
interrupts off. Idle, task 0, neither exits, sleeps nor reads (src/task/scheduler.rs:342-347).
Physical addresses of segments are below 4 GB, so the linear map does not wrap, and page 0 is
never given to the buddy allocator, since a null link is 0. A Rust panic is a result of the
model (`ok == false`, `Full`, an `Outcome`), with the condition under which it happens. The
memory layout is a parameter too; as the kernel's own assertions demand, no two ranges that
boot maps may share a page, and `VirtIsOk` gives a layout for which all this holds. A timer
interrupt reads the clock twice; both readings are the event's time.

## Model

| member | source | states |
|---|---|---|
| BuddySpec.PagesToOrder | src/mm/buddy.rs:251-257 | the order's block holds the request and is less than twice as large |
| BuddySpec.PagesToOrderIsLeast | src/mm/buddy.rs:251-257 | it is the least order whose blocks hold the request |
| BuddySpec.CarveKeeps | src/mm/buddy.rs:117-132 | splitting a block down keeps the normal form, covers the same pages, and leaves the result apart from all free blocks |
| BuddySpec.CoalesceKeeps | src/mm/buddy.rs:164-188 | merging upwards restores the normal form and covers exactly the old pages and the freed ones |
| BuddySpec.SearchIsComplete | src/mm/buddy.rs:101-106 | some free block is large enough if and only if some aligned run of that order is wholly free |
| BuddySpec.AllocKeeps | src/mm/buddy.rs:87-150 | an allocation keeps the invariant and the union of free and handed-out pages, and the result was free |
| BuddySpec.DeallocKeeps | src/mm/buddy.rs:153-189 | a release keeps the invariant and the union of free and handed-out pages |
| BuddySpec.StepKeeps | src/mm/buddy.rs:87-189 | so does every call |
| BuddySpec.RunKeeps | src/mm/buddy.rs:87-189 | in every run the blocks, free and handed out, are disjoint and in normal form, and together cover the pages they covered at the start |
| BuddySpec.RunIsMaximal | src/mm/buddy.rs:87-189 | in every reachable state a block is free if and only if it is a maximal aligned run of free pages |
| BuddySpec.FreeIsDetermined | src/mm/buddy.rs:87-189 | what is handed out determines every free list's contents |
| BuddySpec.AllFreedRestores | src/mm/buddy.rs:87-189 | a run that ends with the same blocks handed out ends with the same free blocks, whatever the order of calls |
| BuddySpec.AllocFailsExactly | src/mm/buddy.rs:95-106 | an allocation fails if and only if the order is 16 or more or no aligned run of that order is wholly free |
| BuddySpec.AllocResult | src/mm/buddy.rs:87-150 | the result has at least the pages asked for and fewer than twice as many, was free, meets nothing handed out, and only its pages leave the free set; it is the start of a smallest free block that is large enough, and all other free blocks stay |
| Blocks.RunIsInOneBlock | src/mm/buddy.rs:164-188 | without free buddies below the top order, every aligned run of free pages lies inside a single free block |
| Blocks.CanonicalIsMaximal | src/mm/buddy.rs:164-188 | normal form means: the free blocks are the maximal aligned runs |
| Blocks.CanonicalUnique | src/mm/buddy.rs:164-188 | a set of pages has one normal form |
| Blocks.WithinParent | src/mm/buddy.rs:172-183 | a block and its buddy are the two disjoint halves of their parent, and being a buddy is mutual |
| Buddy.XorIsBuddy | src/mm/buddy.rs:172-183 | XOR of an address with the block size is the buddy's address, and the lesser of the two is the parent's |
| Buddy.RightAddress | src/mm/buddy.rs:119-130 | half the size beyond a block's address is its right half |
| Buddy.ListsUnshared | src/mm/buddy.rs:192-218 | no address is on two free lists |
| Buddy.OwnersMayWrite | src/mm/buddy.rs:192-218 | whatever is written outside free blocks, the free lists stay intact |
| Buddy.GreedyOrderIsMaximal | src/mm/buddy.rs:45-70 | the order chosen is aligned, fits, and a left half is chosen only where its parent does not fit |
| Buddy.GreedyStep | src/mm/buddy.rs:45-83 | the next block of a region is new, and creates no pair of free buddies |
| Buddy.TwoPerOrder | src/mm/buddy.rs:45-83 | a region adds at most two blocks of each order below the top |
| Buddy.BuddySystemFrameAllocator.constructor | src/mm/buddy.rs:25-31 | empty lists |
| Buddy.BuddySystemFrameAllocator.AddFreeBlock | src/mm/buddy.rs:192-218 | the lists represent the free set with the block added, and only its own first word is written |
| Buddy.BuddySystemFrameAllocator.TryRemoveFromList | src/mm/buddy.rs:220-248 | removes exactly the named block, says whether it was there, changes nothing otherwise, writes only free blocks |
| Buddy.BuddySystemFrameAllocator.PopHead | src/mm/buddy.rs:108-114 | takes a block of that order off the free set |
| Buddy.BuddySystemFrameAllocator.SplitDown | src/mm/buddy.rs:117-132 | the lists represent the free set after splitting, and only the split block is written |
| Buddy.BuddySystemFrameAllocator.TakeFrom | src/mm/buddy.rs:108-144 | the first page of the leftmost part of a block of that order |
| Buddy.BuddySystemFrameAllocator.Alloc | src/mm/buddy.rs:87-150 | does one allocation step; fails if and only if no aligned run of the order is wholly free; writes only blocks that were free |
| Buddy.BuddySystemFrameAllocator.Dealloc | src/mm/buddy.rs:153-189 | does one release step; writes only free blocks and the freed one |
| Buddy.BuddySystemFrameAllocator.AddFreeRegion | src/mm/buddy.rs:33-84 | adds exactly the pages of the region, keeps normal form and old blocks, writes only new blocks |
| Regions.TotalCounts | src/mm/memblock.rs:39-41 | for separated regions the sum of sizes is the number of bytes covered |
| Regions.SeparatedUnique | src/mm/memblock.rs:43-137 | a set of bytes has one sorted, separated representation |
| Regions.MergedKeeps | src/mm/memblock.rs:43-83 | replacing the touched regions by their hull with the new one gives the union, separated |
| Regions.CutAllBytes | src/mm/memblock.rs:86-137 | cutting every region gives the difference, separated |
| Memblock.RegionArray.constructor | src/mm/memblock.rs:28-37 | no region, no byte |
| Memblock.RegionArray.UpdateTotal | src/mm/memblock.rs:39-41 | the total is the sum of the sizes |
| Memblock.RegionArray.FindMerge | src/mm/memblock.rs:43-65 | finds the run of regions that the new one touches and the hull of all of them |
| Memblock.RegionArray.AddRegion | src/mm/memblock.rs:43-83 | the covered bytes become the union, still sorted, separated and counted; fails if and only if the array is full and nothing is touched |
| Memblock.RegionArray.CutAt | src/mm/memblock.rs:94-134 | region `i` is deleted, trimmed or split by shifts in place; fails if and only if a split finds the array full |
| Memblock.RegionArray.RemoveRegion | src/mm/memblock.rs:86-137 | the covered bytes become the difference, still sorted, separated and counted; fails if and only if the array is full and a hole must be punched |
| Memblock.MemblockAllocator.constructor | src/mm/memblock.rs:145-149 | all three sets are empty |
| Memblock.MemblockAllocator.InitAddMemory | src/mm/memblock.rs:153-155 | declared memory becomes available and the history starts; panics exactly when the array is full and nothing is touched |
| Memblock.MemblockAllocator.ReserveMemory | src/mm/memblock.rs:158-161 | moves the range from available to reserved and records the call; panics exactly when one of the arrays has no slot for it, which takes at least 128 declarations and calls |
| Memblock.MemblockAllocator.FindRoom | src/mm/memblock.rs:163-173 | the highest aligned address at which the size fits in available memory; without one the search ends, or underflows exactly if some region ends below the size |
| Memblock.MemblockAllocator.EarlyAlloc | src/mm/memblock.rs:163-178 | moves that range from available to allocated and records the call; exactly when each panic happens, and that a full array takes at least 128 declarations and calls |
| Memblock.StepKeeps | src/mm/memblock.rs:151-178 | available stays disjoint from reserved and allocated, and with the reserved part they make up RAM |
| Memblock.RunKeeps | src/mm/memblock.rs:151-178 | so in every run, and reserved and allocated bytes stay so |
| Memblock.AllocationsAreFresh | src/mm/memblock.rs:151-178 | an early allocation lies in RAM and meets no earlier allocation or reservation |
| Memblock.PagesTaken | src/mm/pagetable.rs:150-150 | taking directory pages leaves reservations alone, and only moves available bytes to allocated ones |
| Memblock.PageTaken | src/mm/memblock.rs:163-178 | an early allocation of one page takes exactly that page from the whole pages left |
| Memblock.RangeSpoils | src/mm/memblock.rs:158-178 | taking a range of any alignment spoils at most its whole pages and two more |
| Memblock.HistorySpoils | src/mm/memblock.rs:151-178 | over every history the whole pages of RAM are at most those left and those its calls spoil |
| Memblock.NoRoomBound | src/mm/memblock.rs:163-173 | if `m` pages in a row fit nowhere, fewer than `m` whole pages are left in each region |
| Memblock.EnoughSuffices | src/mm/pagetable.rs:150-150 | with more than `n` pages and region slots left, taking `n` pages leaves one of each |
| Sv39.PteRoundTrip | src/mm/pagetable.rs:53-76 | the page number is in bits 10 and up, the flags are the low bits, and both and validity are read back as they were put in |
| Sv39.WithValid | src/mm/pagetable.rs:241-241 | V is set and every other flag is as requested |
| Sv39.Indices | src/mm/address.rs:30-38 | the loop computes the three 9-bit indices of the walk, root first |
| Sv39.SignExtend | src/mm/address.rs:75-81 | the result is a canonical Sv39 address with the same low 39 bits |
| Sv39.WalkFindsLookup | src/mm/pagetable.rs:89-128 | on the kernel's trees the hardware walk of section 4.3.2 of the RISC-V Privileged Architecture finds the leaf the kernel means, and faults exactly if there is none or its flags are no legal leaf |
| Sv39.WriteLeaf | src/mm/pagetable.rs:241-263 | writing a leaf or clearing any entry changes exactly the page numbers below it |
| Sv39.DirectoryIsInvisible | src/mm/pagetable.rs:148-157 | hanging in an empty directory changes no mapping |
| Sv39.EntryFreeIff | src/mm/pagetable.rs:239-240 | on an unmapped page number the 4 KB entry is free, and the 2 MB entry is free if and only if no directory hangs there |
| Sv39.WriteDir | src/mm/pagetable.rs:241-263 | writing a leaf or clearing an entry takes away no directory except one on the entry itself |
| Sv39.DirectoryAdds | src/mm/pagetable.rs:148-157 | hanging a directory adds exactly that one |
| PageTables.HangEffect | src/mm/pagetable.rs:148-157 | a new directory keeps the tree and every mapping, and is the only one added |
| PageTables.MapEffect | src/mm/pagetable.rs:232-242 | an entry maps exactly the page numbers below it and keeps the tree and the directories |
| PageTables.UnmapEffect | src/mm/pagetable.rs:256-263 | clearing a leaf or a pointer unmaps exactly the page numbers below it and removes at most the directory below it |
| PageTables.PageTable.constructor | src/mm/mod.rs:208-217 | a cleared root maps nothing and has no directory |
| PageTables.PageTable.NewPage | src/mm/pagetable.rs:150-150 | a fresh page taken from Memblock by one recorded early allocation; without one, no page is left or a region array is full |
| PageTables.PageTable.HangDirectory | src/mm/pagetable.rs:148-157 | a zeroed page from Memblock becomes the next directory without changing any mapping; fails only if no page is left or a region array is full; Memblock moves by at most one page allocation |
| PageTables.PageTable.BumpFindCreatePte | src/mm/pagetable.rs:129-180 | reaches the entry of the target level without changing any mapping; meets a large page if and only if the page number lies in one; else fails only if no page is left or a region array is full; which directories it adds, and that it takes no more pages than directories were missing |
| PageTables.PageTable.BumpMap | src/mm/pagetable.rs:232-242 | maps exactly the requested page or large page, with the flags asked for and V, and only over unmapped page numbers; what each panic means, and on an unmapped page number that it is exactly a directory in the way of a large page; else fails only if no page is left or a region array is full; which directories it adds and how many pages it takes at most |
| PageTables.FreeMeansUnmapped | src/mm/pagetable.rs:239-240 | where the entry is free and no large page is in the way, nothing below it is mapped |
| PageTables.NotExhausted | src/mm/pagetable.rs:129-180 | with more pages and region slots at the start than a walk takes, it does not run out of either |
| PageTables.PageTable.BumpFindPte | src/mm/pagetable.rs:89-128 | finds the directory that holds the entry of the target level, or none |
| PageTables.PageTable.Unmap | src/mm/pagetable.rs:256-268 | succeeds if and only if the entry is valid at that level, unmaps exactly what lies below it, and keeps every directory except one that hung on the entry itself |
| Segments.PaToVaIsWindow | src/mm/mod.rs:418-421 | identity and linear addresses are canonical, and their page numbers are the physical ones moved by a fixed window |
| Segments.BoundsArePlan | src/mm/mod.rs:413-416 | the four rounded bounds are page bounds with 2 MB pages between the inner two |
| Segments.PlanFacts | src/mm/mod.rs:413-452 | the three runs follow each other without gap and the middle one is aligned |
| Segments.PlanIsExact | src/mm/mod.rs:413-452 | the runs cover exactly the pages that the bytes touch, and 2 MB pages are used exactly where an aligned one lies wholly among them |
| Segments.Apply | src/mm/mod.rs:423-435 | one page is mapped or unmapped in its window, all others stay; on an unmapped page an assertion fires only for a directory in the way of a 2 MB page, on a mapped one the call never succeeds; memory runs out only if no page or region slot is left |
| Segments.ApplyRun | src/mm/mod.rs:437-455 | one loop maps or unmaps exactly its run of pages and adds exactly the directories it needs; unless no page or region slot is left it succeeds if and only if nothing is mapped in the run and no directory is in the way; how many pages it takes at most |
| Segments.MapSegment | src/mm/mod.rs:406-456 | the segment is mapped or unmapped exactly and all else stays; a Map succeeds if and only if nothing is mapped in the range and no directory hangs where a 2 MB page is to go, unless no page or region slot is left; it does not run out if more of both are left than the plan of the segment needs |
| Segments.OthersTranslateAsBefore | src/mm/mod.rs:406-456 | after a Map or Unmap every other address translates as before |
| Segments.UnmapInvertsMap | src/mm/mod.rs:423-456 | a mapped segment is ready to be unmapped by the same call, after which every address translates as before the mapping |
| SegmentCalls.CallReady | src/mm/mod.rs:406-456 | a legal Map finds its range unmapped, and a legal Unmap finds the leaves that the Map put there, whatever was called in between |
| SegmentCalls.ReadyMeansApart | src/mm/mod.rs:406-456 | a Map finds its range unmapped only if the segment is apart from every live one |
| SegmentCalls.CallKeeps | src/mm/mod.rs:406-456 | each legal call leaves the table showing exactly the live segments |
| SegmentCalls.HungIsBlocked | src/mm/pagetable.rs:239-240 | a directory hangs in the way exactly if an earlier 4 KB mapping left one at a 2 MB number the segment maps as a whole |
| SegmentCalls.Perform | src/mm/mod.rs:406-456 | a Map succeeds if and only if it meets no live segment and no directory left behind, and a legal Unmap always, unless no page or region slot is left |
| SegmentCalls.PerformAll | src/mm/mod.rs:406-456 | any sequence of calls that unmaps only what is mapped succeeds if and only if no Map meets a live segment or a directory left behind, and leaves the table showing exactly the live segments; it stops for want of memory only if no page or region slot is left, and not if more of both were there than the calls need |
| SegmentCalls.NeedBound | src/mm/mod.rs:406-456 | no segment below 4 GB needs more than eight new directories |
| SegmentCalls.ShowsTranslates | src/mm/mod.rs:406-456 | in any table showing the live segments, each address of one translates to the intended physical address with the flags asked for and V if these are a legal leaf, and faults if they are not |
| SegmentCalls.ShowsNothingElse | src/mm/mod.rs:406-456 | an address in no live segment does not translate |
| SegmentCalls.WriteOnlyFaults | src/mm/pagetable.rs:232-242 | on every empty table, a page mapped with W alone is in the table and does not translate |
| SegmentCalls.MapIsFine | src/mm/mod.rs:137-396 | among segments that are only mapped and pairwise apart no directory is ever in the way |
| SegmentCalls.MapAll | src/mm/mod.rs:261-361 | mapping segments that are pairwise apart trips no assertion and shows all of them; it always completes if more pages and region slots are left than the segments need, and stops only if none is left |
| SegmentCalls.UnmapAll | src/mm/mod.rs:537-589 | unmapping live segments after any other calls trips no assertion and leaves the other segments |
| SegmentCalls.AliasesAreApart | src/mm/mod.rs:537-589 | identity and linear ranges of any two segments never meet, so unmapping one alias keeps the other |
| SegmentCalls.EmptyDirectoryStays | src/mm/pagetable.rs:256-263 | after a page is mapped and unmapped nothing is live, and mapping the 2 MB around it meets no live segment but a directory |
| SegmentCalls.EmptyDirectoryBlocks | src/mm/pagetable.rs:239-263 | on every empty table these three calls never succeed, and with more than three pages and region slots left it is the assertion that stops them |
| SegmentCalls.EmptyDirectoryNeeds | src/mm/mod.rs:406-456 | the three calls need three directory pages at most |
| Boot.DeclareMemory | src/mm/mod.rs:165-202 | RAM is declared and the kernel, the reserved ranges and the device tree are reserved in that order; fails only if a region array has no slot for one of them |
| Boot.NewRoot | src/mm/mod.rs:209-217 | a cleared root page from Memblock, showing nothing; fails only if no page is left or a region array is full |
| Boot.VisitNode | src/mm/mod.rs:219-259 | a range in RAM is reserved, a device range is mapped; the page table stays valid over both; fails only if no page or region slot is left; how many calls and pages it takes at most |
| Boot.VisitNodes | src/mm/mod.rs:219-259 | after all nodes every range in RAM is reserved and the table shows exactly the device ranges; fails only if no page or region slot is left; how many calls and pages it takes at most |
| Boot.AllocPageMap | src/mm/mod.rs:370-382 | room for an entry for each page of RAM is taken from Memblock and the page table stays valid; fails only if its pages fit nowhere in a row or a region array is full, and by underflow only if some region also ends below its size |
| Boot.SetupMemoryAndMapping | src/mm/mod.rs:137-396 | the table shows exactly the boot segments, every range was reserved and the page map lies in allocated memory, unless no page is left, the page map fits nowhere or a region array is full; with room to boot none of these happens |
| Boot.UnmapTempIdentityArea | src/mm/mod.rs:537-589 | the four identity segments are gone and all others stay; no assertion fires |
| Boot.Boot | src/main.rs:78-82 | the whole sequence ends with the page table showing the boot segments without the identity ones, and the buddy allocator and the page map, which has an entry for each page of RAM and lies in allocated memory, holding exactly the remaining pages; it always does with room to boot, and else fails only if no page is left, the page map fits nowhere or a region array is full; no assertion of the page table fires |
| Boot.RoomSuffices | src/mm/mod.rs:137-396 | with enough pages and slots for the whole sequence in the layout, no point of it finds one missing, the run of pages for the page map included |
| Boot.BootBound | src/mm/mod.rs:137-396 | boot makes at most 84 calls to Memblock besides one for each reservation and eight for each device node |
| Boot.BootPageIsSafe | src/mm/mod.rs:137-522 | as long as the buddy allocator has the pages it was given, each of them lies in RAM, meets no reservation, early allocation or directory page, and translates through the linear map with V, R and W set and nothing else |
| Boot.BootIsSafe | src/mm/mod.rs:137-522 | in every later run of the buddy allocator each page free or handed out lies in RAM, meets no reservation, early allocation or directory page, and translates through the linear map with V, R and W set and nothing else |
| Boot.IdentityIsGone | src/mm/mod.rs:537-589 | after boot no address below 4 GB translates |
| Boot.KernelIsProtected | src/mm/mod.rs:219-361 | after boot an address of kernel text translates with V, R and X, of read-only data with V and R, of data, bss, devices and the memory around the kernel with V, R and W, and with no other flag |
| Boot.SwitchIsSeamless | src/mm/mod.rs:261-341 | before the identity mappings are dropped, text, read-only data, data and bss are found at their physical addresses as well as in the linear map, with the same flags |
| Boot.VirtIsOk | src/mm/mod.rs:137-396 | a machine with 128 MB of RAM at 2 GB meets everything that boot requires |
| Boot.VirtBoots | src/mm/mod.rs:137-396 | that machine has room to boot |
| Handoff.InsideIsInRegion | src/mm/mod.rs:498-501 | rounding each region inwards finds exactly the pages wholly inside the available bytes |
| Handoff.PageGap | src/mm/mod.rs:493-515 | rounding separated regions leaves a page between them |
| Handoff.MarkFree | src/mm/mod.rs:504-513 | exactly the pages of the range are marked free |
| Handoff.MarkReserved | src/mm/mod.rs:478-485 | every page starts as reserved |
| Handoff.InitBuddySystem | src/mm/mod.rs:469-522 | the buddy allocator's pages are exactly those wholly inside available memory, and exactly those are marked free in the page map |
| Handoff.HandedPageIsSafe | src/mm/mod.rs:469-522 | as long as the buddy allocator has the pages it was given, each lies in RAM, was available, and meets no reservation and no early allocation |
| Handoff.HandoffIsSafe | src/mm/mod.rs:469-522 | in any later run a page free or handed out lies in RAM, was available, and meets no reservation and no early allocation |
| Slub.CacheSizes | src/mm/slub.rs:107-139 | each of the nine caches has exactly its power of two from 8 to 2048 as object size |
| Slub.Routing | src/mm/slub.rs:39-49 | a layout is routed to the cache whose object size is its size class, which is the least power of two from 8 on that is no less than size and alignment |
| Slub.CellsDisjoint | src/mm/slub.rs:148-162 | objects of different pages, or different objects of a page, share no byte |
| Slub.SlabAccounting | src/mm/slub.rs:252-278 | in each slab the objects in use and the length of the free list, threaded by virtual addresses, add up to 4096 divided by the object size |
| Slub.ObjectsDisjoint | src/mm/slub.rs:252-316 | no two objects handed out share a byte |
| Slub.ClientsMayWrite | src/mm/slub.rs:148-162 | whatever is written inside objects in use, every free list stays intact |
| Slub.SlubAllocator.constructor | src/mm/slub.rs:107-139 | nine empty caches |
| Slub.SlubAllocator.Carve | src/mm/slub.rs:148-162 | the loop links all objects of the page in order and writes nowhere else; the buddy allocator's lists stay intact |
| Slub.SlubAllocator.AllocNewSlab | src/mm/slub.rs:141-184 | a new page becomes a carved slab at the head of the partial list; fails if and only if no page is free |
| Slub.SlubAllocator.TakeActive | src/mm/slub.rs:255-278 | the first free object of the active slab is new and apart from all objects in use |
| Slub.SlubAllocator.CacheAlloc | src/mm/slub.rs:252-316 | terminates with a new object apart from all others; fails if and only if every slab of the cache is full and no page is free |
| Slub.SlubAllocator.Alloc | src/mm/slub.rs:38-55 | the virtual address of an object of the least size class that holds the layout, aligned, new and apart from all others; fails if and only if the cache of that class has no free object and no page is free |
| SchedulerSpec.PickNextFacts | src/task/scheduler.rs:284-290 | the next task comes from the ready queue, and is idle only if idle is alone in it |
| SchedulerSpec.PickIsFifo | src/task/scheduler.rs:284-290 | the choice is first in, first out among the tasks other than idle, and idle only if there is no other |
| SchedulerSpec.FreeSlot | src/task/scheduler.rs:93-97 | the first empty slot, or the end of the list |
| SchedulerSpec.ReclaimKeeps | src/task/scheduler.rs:247-269 | reclaiming frees only dead tasks' stacks, never the current task's, and all of them if the current task is not dead |
| SchedulerSpec.BuryKeeps | src/task/scheduler.rs:254-266 | a reclaimed task's stack goes back as the outstanding block it was allocated as |
| SchedulerSpec.PrepareKeeps | src/task/scheduler.rs:233-299 | there is always a next task, and the invariant holds again |
| SchedulerSpec.SleepKeeps | src/task/scheduler.rs:150-174 | a task other than idle can always be put to sleep, with the wake time wrapped to a word; the invariant holds again |
| SchedulerSpec.BlockKeeps | src/task/scheduler.rs:193-213 | likewise for blocking |
| SchedulerSpec.WakeKeeps | src/task/scheduler.rs:184-232 | waking any task, blocked or not, keeps the invariant |
| SchedulerSpec.ExitKeeps | src/syslib/syscall.rs:106-113 | ending the current task keeps what the next choice of a task needs |
| SchedulerSpec.EnterKeeps | src/task/scheduler.rs:84-149 | a new task with a fresh stack keeps the invariant and all other tasks |
| SchedulerSpec.FinishSleepMeans | src/task/scheduler.rs:214-232 | exactly the blocked tasks with a due entry become ready, and exactly the due entries leave the heap |
| SchedulerSpec.DeadlinesAreMet | src/task/scheduler.rs:214-232 | afterwards no task in a timed wait whose deadline has passed is blocked |
| SchedulerSpec.ZombiesAfterPrepare | src/task/scheduler.rs:233-269 | if the current task is not dead every zombie is reclaimed; if it has just died none is |
| SchedulerSpec.PrepareAdvances | src/task/scheduler.rs:233-299 | a waiting task other than idle runs or moves forward in the queue |
| Kernel.StepKeeps | src/trap/mod.rs:149-219 | every trap keeps the invariant, and none of its lookups in the task table, `unwrap`, `expect` and `unreachable!` fails |
| Kernel.RunKeeps | src/trap/mod.rs:149-219 | so in every state of every run |
| Kernel.ExactlyOneRuns | src/task/scheduler.rs:84-299 | in every run the running task is the current one and no other, the queue holds exactly the ready tasks, and idle is current or queued |
| Kernel.StacksAreDisjoint | src/task/scheduler.rs:93-148 | in every run the stacks of different tasks share no page |
| Kernel.CurrentStackIsKept | src/task/scheduler.rs:247-269 | no trap frees the stack of the task it interrupted |
| Kernel.ZombiesAreBuried | src/task/scheduler.rs:233-269 | a timer tick or yield reclaims every zombie; an exit frees nothing and queues the task |
| Kernel.StepAdvances | src/task/scheduler.rs:150-299 | a step that chooses a task moves a waiting one forward or runs it; no other step moves it back |
| Kernel.BoundedWaiting | src/task/scheduler.rs:150-299 | a task at place `p` of the queue runs within `p + 1` dispatches, whatever happens in between |
| Kernel.DeadlinesHold | src/task/scheduler.rs:214-232 | in every run, after a timer tick nobody is blocked beyond their deadline |
| Kernel.RunExact | src/syslib/syscall.rs:21-94 | without finite read timeouts, timer entries match sleeping tasks one to one and waiters are exactly the tasks blocked in a read |
| Kernel.NeverWokenEarly | src/task/scheduler.rs:150-232 | in those runs only a timer tick at or after the deadline ends a sleep whose deadline fits a word, and at or after the wrapped deadline any other |
| Kernel.SleepIsKeptIff | src/syslib/syscall.rs:21-33 | a sleep outlasts every tick before its deadline if and only if the deadline fits a word |
| Kernel.LongSleepIsCut | src/syslib/syscall.rs:27-27 | a run in which the longest possible sleep ends at the next tick |
| Kernel.WokenIff | src/task/scheduler.rs:175-232 | in every run, exactly which event ends a task's wait, stale entries included |
| Kernel.WokenEarlyIff | src/task/scheduler.rs:175-232 | a timed wait ends before its deadline exactly by a timer of the task that is due early or by a byte for which it is listed last |
| Kernel.SleeperIsWokenEarly | src/syslib/syscall.rs:75-85 | a run with a timed read in which a sleeper wakes 100 000 cycles early |
| Kernel.StepConservesIff | src/trap/interrupts/service/uart_service.rs:83-102 | a step loses a byte if and only if its chosen waiter is not blocked in a read, and then exactly one more is missing; a byte is accepted if and only if it is ASCII and someone waits or the buffer has room |
| Kernel.RunConservesIff | src/trap/interrupts/service/uart_service.rs:83-102 | in every run delivered and buffered bytes are the received ones that did not meet a full buffer, in order, if and only if no event lost one, and else exactly as many fewer as did |
| Kernel.RunConserves | src/syslib/syscall.rs:35-94 | without finite read timeouts, delivered bytes followed by buffered ones are the received ones that did not meet a full buffer, in order |
| Kernel.ByteIsLost | src/syslib/syscall.rs:57-85 | a run with a timed read in which a byte is lost to a task that is no longer blocked |
| Kernel.ByteGoesToSleeper | src/syslib/syscall.rs:57-85 | a run in which a byte is lost to a later sleep of the task, which it ends early |
| Kernel.WaitersMeanEmptyRing | src/syslib/syscall.rs:35-94 | in every run a task waits for a byte only while the buffer is empty |
| Kernel.BootKeeps | src/task/scheduler.rs:79-149 | after any spawns and other allocations at boot the scheduler is consistent once a task is there, and nobody is blocked |
| Kernel.BootStartsRun | src/task/scheduler.rs:308-321 | the first choice of a task gives a state from which all of the above holds |
| Traps.StepLine | src/task/scheduler.rs:150-299 | at every event the tasks that join the line of waiting ones go to its end, and an event that chooses a task takes the first, or idle if the line is empty |
| Traps.RunsInOrder | src/task/scheduler.rs:284-290 | in every run, of two tasks in line the one ahead runs before the other is chosen |
| Traps.WokenAreDue | src/task/scheduler.rs:214-232 | a tick brings exactly the blocked tasks with a due timer into the line, once each |
| Traps.WokenInOrder | src/task/scheduler.rs:214-232 | of two tasks that a tick wakes, the one whose timer was due first goes ahead |
| Results.StepResults | src/syslib/syscall.rs:35-104 | a write returns 0, a read the oldest buffered byte or the largest word, a received byte is the result of the last waiter if it is blocked; no event changes any other result |
| Results.DeliveredIsResult | src/syslib/syscall.rs:35-94 | a byte counts as delivered exactly when it becomes the result of a task that reads or is blocked in a read |
| Results.ReadReturns | src/syslib/syscall.rs:57-94 | in every run a task that was blocked in a read comes back with the next byte delivered, for which it was the last to wait, or by a timer with the largest word |
| Results.CallMeans | src/trap/mod.rs:184-200 | what calls 1, 7, 9, 17 and 27 do to the calling task: its status, result, deadline and place among the waiting; other numbers do nothing |
| Results.SpawnMeans | src/task/scheduler.rs:93-148 | a ready task with just the pages it asked for enters the first free slot, and nothing else changes |
| CheckedKernel.CheckedStepIff | src/trap/mod.rs:149-219 | with overflow checks a legal event panics if and only if the next tick, the wake time, the size or the stack address overflows, and else does the same step |
| CheckedKernel.LargestInputsPanic | src/trap/interrupts/mod.rs:97-105 | the last tick of the clock, the largest stack and the longest sleep panic |
| CheckedKernel.CheckedRunIff | src/trap/mod.rs:149-219 | the runs of a build with overflow checks are exactly the runs without overflow |
| CheckedKernel.CheckedDeadlinesFit | src/syslib/syscall.rs:21-94 | in such a run every deadline fits a word |
| CheckedKernel.CheckedNeverWokenEarly | src/task/scheduler.rs:150-232 | so, without finite read timeouts, only a timer tick at or after the deadline ends a sleep, however long |
| System.StepPages | src/task/scheduler.rs:84-299 | no trap gains or loses a page: free and handed out together they are the same |
| System.BootedRunPages | src/task/scheduler.rs:79-149 | so from the handoff through the spawns at boot to every state of every run |
| System.StacksAreSafe | src/task/scheduler.rs:99-112 | at every point of every run after boot each page of each stack lies in RAM, meets no reservation, early allocation or directory page, and translates through the linear map with V, R and W set and nothing else |
| System.SpawnFitsAfterBoot | src/task/scheduler.rs:99-109 | in every run after boot with RAM ending below 4 GB, a spawn overflows if and only if its size is within a page of the largest word |
| RingBuffers.RingBuffer.constructor | src/data_struct/ring_buf.rs:10-17 | an empty queue |
| RingBuffers.RingBuffer.Push | src/data_struct/ring_buf.rs:18-27 | appends, or says that the buffer is full and changes nothing |
| RingBuffers.RingBuffer.Pop | src/data_struct/ring_buf.rs:28-39 | takes the oldest item, or says that there is none |
| RingBuffers.RingBuffer.IsEmpty | src/data_struct/ring_buf.rs:43-45 | whether nothing is queued |
| Schedulers.Scheduler.constructor | src/task/scheduler.rs:61-69 | no tasks |
| Schedulers.Scheduler.Position | src/task/scheduler.rs:93-97 | finds the first empty slot |
| Schedulers.Scheduler.Spawn | src/task/scheduler.rs:84-149 | enters a ready task with a fresh stack, or fails and changes nothing |
| Schedulers.Scheduler.SwitchToNext | src/task/scheduler.rs:284-293 | does the choice of the next task |
| Schedulers.Scheduler.SetCurrentTaskSleep | src/task/scheduler.rs:150-174 | does the sleep step |
| Schedulers.Scheduler.BlockCurrentTask | src/task/scheduler.rs:193-213 | does the block step |
| Schedulers.Scheduler.WakeUpTaskWithResult | src/task/scheduler.rs:184-192 | does the wake step |
| Schedulers.Scheduler.FinishSleeping | src/task/scheduler.rs:214-232 | the loop over the heap wakes what the specification wakes, in the same order |
| Schedulers.Scheduler.Retain | src/task/scheduler.rs:255-255 | removes every occurrence of a task from the queue and keeps the order |
| Schedulers.Scheduler.ReclaimZombies | src/task/scheduler.rs:247-269 | the loop frees exactly the stacks that the specification frees |
| Schedulers.Scheduler.PrepareNextTask | src/task/scheduler.rs:233-299 | does the whole step, and never finds the next task missing |
| Schedulers.Scheduler.ExitCurrentTask | src/syslib/syscall.rs:106-113 | marks the current task as ended and queues it for reclaiming |
| Syscalls.UartService.constructor | src/trap/interrupts/service/uart_service.rs:23-29 | empty queues |
| Syscalls.UartRead | src/syslib/syscall.rs:35-94 | does exactly the read step and keeps the invariant |
| Syscalls.ReceiveByte | src/trap/interrupts/service/uart_service.rs:83-102 | does exactly the receive step: non-ASCII bytes are ignored, a waiter is woken, or the byte is buffered or dropped |
| Syscalls.TrapHandler | src/trap/mod.rs:149-219 | does the step that the cause and the registers stand for, or nothing |
| Syscalls.TimerInterrupt | src/trap/mod.rs:156-177 | does the timer step: wake the due, then choose a task |
| Syscalls.Schedule | src/syslib/syscall.rs:12-19 | does the yield step |
| Syscalls.ExitTask | src/trap/mod.rs:196-199 | does the exit step: end the task, then choose another |
| Syscalls.SleepFor | src/syslib/syscall.rs:21-33 | does the sleep step with the wake time computed from milliseconds in 64 bits |
| Syscalls.WriteByte | src/syslib/syscall.rs:96-104 | does the write step: only the result register changes |

## Left out

- Freeing small objects (`SlubAllocator::dealloc`, `free_object`, `remove_from_partial`): a fresh slab is on the partial list and active at once and the freeing code does not unlink it, so the allocator's invariant holds only for runs that allocate.
- Slabs of several pages and layouts above 2048 bytes: no cache has such objects, and the large path is unimplemented in the kernel.
- `find_pte`, `find_create_pte`, `map`: the variants that take directory pages from the buddy allocator do not clear them, so the translation theorem is about the boot path.
- 1 GB pages: nothing in the kernel maps one; entries at the root level are directories.
- Memblock.MemblockAllocator.EarlyAlloc: needs a positive size and a power of two as alignment, as all its callers give; where src/mm/memblock.rs:168 subtracts below zero the result is `Underflow`, the panic of a build with overflow checks, and what a build without them goes on to do is not modelled.
- Memblock.MemblockAllocator.InitAddMemory: needs the range to end below 2^64.
- Buddy.BuddySystemFrameAllocator.Dealloc: needs an outstanding block and a page count of its order, as the kernel's callers give; the allocator does not check it.
- Segments.MapSegment: a Map needs R, W or X among its flags, an Unmap a range mapped by the same call, as the kernel's assertions demand.
- Boot.Boot: that there is room to boot is sufficient and not necessary, since it counts every call and page at its worst; the exact reason of a failure is stated of the state in which it happens.
- Kernel.StepKeeps: the storage of the queues is not modelled. The waiting queue, the ready queue, the timer heap and the task list grow on the kernel heap, and growing frees the old storage inside the trap through `SlubAllocator::dealloc` (src/syslib/syscall.rs:57, src/mm/slub.rs:80-84), which takes the byte address for a page number and indexes the page map out of bounds. Five timed-out reads are enough, since their entries stay in the waiting queue; the model takes the fifth like the first.
- CheckedKernel.CheckedStepIff: program counters are not modelled, so neither is the sum that steps over an `ecall`; the sums inside the allocators are not part of the step.
- Boot.Boot: printing, the switch of `satp`, and the clearing of pages through their physical addresses are not modelled; the size of a page-map entry is a parameter.
- PageTables.PageTable.BumpMap: after a panic nothing is said about the table, which the kernel never uses again.
- Slub.SlubAllocator.Alloc: page reference counts are not modelled, and the nine caches are values in one field instead of separately locked objects.
- Syscalls.UartRead: the second look at the ring after queueing is not modelled; with atomic traps the ring is still empty, so that branch is never taken.
- Sleep heap: the binary heap is modelled by its contents in the order in which it gives them out.
- Overflow of addresses inside the allocators: addresses are unbounded there, except where the code masks or sign-extends.
- Permission checks, accessed and dirty bits in translation: the walk yields the address and the flags.
- `satp`, `sfence.vma`, the early boot page table, trap entry and context switch in assembly, registers other than `a0`: hardware effects.
- `IrqLock` and the spin locks: replaced by the assumption that a trap is atomic.
- Boxed task closures, the trampoline and task priorities: no scheduling decision depends on them.
- `mark_current_running`, `set_task_ready`, `BumpAllocator`, `MemorySet`: never called or without behaviour.
- The transmit queue, `send_data`, console, PLIC and UART registers, SBI calls, device-tree parsing, `system_quit`: input and output.
