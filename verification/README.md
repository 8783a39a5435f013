# kaku, modelled and proved

kaku is a small 32-bit x86 kernel with its own user space. This project models
the parts of it that hold algorithms and long-lived invariants, and proves what
they keep. `dafny verify dfyconfig.toml` checks all of it.

Each part has a specification on values (a state, a function for each
operation, and lemmas about them) and, where the kernel changes things in
place, a class or method with the same loops and fields whose contract equates
the new state with that specification.

| part | files |
|---|---|
| buddy heap | `BuddyBlocks`, `BuddyRuns`, `BuddyHeap` |
| frames, page tables, process memory | `Frames`, `AddressSpaces`, `ProcessLives`, `PageGuards`, `MemoryCalls`, `MappingRegions`, `ProcessCreation`, `KernelHalves`, `KernelMemory` |
| ELF loading | `ElfImage`, `ProgramLoader` |
| address-space layout, whole lives of programs | `AddressMap`, `ProcessLayouts`, `CallRuns`, `BlankMemory`, `ProgramRuns`, `ProgramLives`, `SharedKernel`, `ProgramExamples` |
| ext2 | `Ext2Alloc`, `Ext2Files`, `Ext2FileIO`, `Ext2RoundTrip`, `Ext2Reads`, `Ext2ShortWrites`, `Ext2Dirs`, `Ext2Create`, `Ext2Layout`, `Ext2Driver`, `Ext2Example` |
| user heap | `UserHeap`, `UserHeapRuns`, `UserHeapPlaces`, `UserAllocator` |
| argument stack | `StackLayout` |
| scheduler, waiting, stdin | `Scheduling`, `WakeUps`, `WakeUpLimits`, `ProcessStacks`, `ExitCodes`, `KilledReaders`, `ProcessRecords`, `ReaderLines`, `Scheduler`, `StdinLines` |
| descriptors | `FileDescriptors`, `DescriptorAccess` |
| strings and paths | `GrowingArrays`, `SplitAndJoin`, `PathNormal`, `PathMoves`, `WorkingDirectory` |
| shared | `Options`, `Sequences`, `Bits`, `ByteBlocks` |

## Where the code departs from what it is for

The model follows the code. Each of these is stated with its exact condition
or a concrete run, most with both.

- The kernel heap's size loop never ends for sizes of 2^31 and more
  (`BuddyRuns.OrderLoopEnds`). Its first block is always 4 MB, also when
  `heap_size` is smaller (`BuddyHeap.KernelHeap.constructor`).
- The first usable frame is rounded down and can begin inside the heap
  (`Frames.FirstFrameInHeapExactly`, `Frames.HeapTailHandedOut`), and the
  bitmap's size is rounded down, so that its initialization can write one byte
  behind it (`Frames.InitOverrunsExactly`, `Frames.OddFrameOverruns`).
- A fresh page table is not cleared, and mapping over a mapped page loses a
  frame (`PageGuards.MapKeepsOwnershipExactly`); four steps from boot reach the
  first (`ProgramExamples.StaleTableHappens`). From a memory whose free frames
  hold no present entry no single call meets a stale table
  (`BlankMemory.ClearIfBlank`).
- sbrk stops neither at the image's end nor at the mapping base, and mmap does
  not stop at the stack (`ProcessLayouts.SbrkKeepsLayoutExactly`,
  `ProcessLayouts.ImageStaysExactly`, `ProcessLayouts.MmapKeepsLayoutExactly`;
  `ProgramExamples.SbrkTakesImage`, `ProgramExamples.MmapTakesStack`).
- mmap of size 0, or of a size within the last page of 32 bits, makes an empty
  region, and the next region gets the same base (`MappingRegions.PagesHold`,
  `MappingRegions.MmapMunmap`, `ProgramExamples.EmptyRegionHidesPage`).
- The ELF loader drops a segment's offset in its page
  (`ElfImage.ReadsRightExactly`, `ProgramExamples.UnalignedReadsWrongly`), and
  two segments that share a page cost a frame (`ElfImage.NoneLostExactly`,
  `ProgramRuns.StartAccountsExactly`, `ProgramExamples.SharedPageCostsFrame`).
- A fresh indirect block is not cleared (`Ext2Files.IndirectAllocatedExactly`,
  `Ext2Example.LeftoverBecomesPointer`). When the disk has no block left for it,
  block 0 is read in its place (`Ext2ShortWrites.BootRead`,
  `Ext2Example.FullDiskYieldsBitmap`). A write that runs out of blocks stores the
  size of the whole buffer (`Ext2ShortWrites.WholeWrittenExactly`,
  `Ext2Example.ShortWriteHappens`). Reads do not stop at the file size
  (`Ext2RoundTrip.ReadsPastEnd`, `Ext2Example.OneByteReadsTwo`). Creating a file
  does not look for room in the last directory record
  (`Ext2Dirs.InsertKeepsChainExactly`, `Ext2Example.FullBlockLosesFile`).
- malloc near 2^32 wraps and gives a block that is too small
  (`UserHeapRuns.AllocGives`, `UserHeapRuns.ResizeKeepsExactly`,
  `UserHeapRuns.WrappedSizeGivesNothing`). A block above 8192 bytes is not
  rounded to 16, so that later pointers lose their alignment, which the header
  comment of mem.h does not say (`UserHeapRuns.AlignmentKeptExactly`,
  `UserHeapRuns.MidSizeBreaksAlignment`). Neither malloc nor sbrk keeps the heap
  below the mappings (`UserHeapRuns.AllocKeepsExactly`,
  `UserHeapRuns.HeapMeetsMapping`).
- kill tells no parent (`WakeUpLimits.KillKeepsExactly`), which then waits
  forever, unless the victim is recorded as reading: its line revives it
  (`KilledReaders.KilledChildStrandsExactly`). kill also dereferences null for a
  pid that is not in the table.
- A waitpid that blocks neither reaps nor writes EAX, not even later
  (`ExitCodes.WaitDeliversExactly`). The fault path runs a STARTING process
  without its arguments (`ProcessStacks.SegfaultLaysOutExactly`,
  `ProcessStacks.FaultBeforeStart`), and a reader without its line
  (`ReaderLines.StepCopies`, `ReaderLines.FaultSkipsLine`). A second reader strands
  the first (`WakeUpLimits.SecondReadStrands`, `WakeUpLimits.StrandedForever`).
- A line's length passes through eight bits on its way to the reader
  (`StdinLines.EnterDelivers`), and keys typed before the reader is dispatched
  overwrite its line (`StdinLines.TypedAheadOverwritesExactly`).
- A destroyed process releases no descriptor
  (`FileDescriptors.DestroyKeepsExactly`, `FileDescriptors.OpenFileOutlives`).
- `cd` writes no NUL when there are components and each has 510 characters or
  more (`WorkingDirectory.ResolveInto`, `PathNormal.LongNameFitsNot`). Only a
  direct caller can pass such a name: a line reaches the shell with at most 255
  characters. The comment that promises a canonical path holds only from a PWD
  that is clean itself (`PathNormal.CleanExactly`, `PathNormal.UncleanStays`).

## Assumptions

- A disk is an array of blocks, and reads and writes succeed. A read of a block
  behind its end gives zeros and a write there does nothing.
- A trap from user mode pushes 13 words below `esp0`; handlers are atomic.
- The kernel grants or refuses a call of the user heap to sbrk and mmap (a
  parameter `grant`); mapped addresses rise.
- Pointers given to system calls are valid.

## Model

| member | source | states |
|---|---|---|
| BuddyBlocks.BuddySymmetric | kernel/mm/src/heap.c:74-76 | XOR with the block size names the true sibling: the relation is symmetric and joins exactly the two halves of one aligned block of the next order |
| BuddyBlocks.Laminar | kernel/mm/src/heap.c:68-98 | two aligned blocks are nested or disjoint, and a smaller one fits in a larger |
| BuddyBlocks.TakeKeeps | kernel/mm/src/heap.c:55-56 | taking the head of a free list keeps shape, disjointness, full coverage and canonical form |
| BuddyBlocks.SplitKeeps | kernel/mm/src/heap.c:57-62 | one split keeps shape, disjointness and full coverage, and replaces one live block by its half and a free half |
| BuddyBlocks.SplitCanonical | kernel/mm/src/heap.c:57-62 | a split of a handed-out block leaves no two free buddies |
| BuddyBlocks.MergeKeeps | kernel/mm/src/heap.c:73-98 | one merge step keeps shape, disjointness, full coverage and canonical form |
| BuddyBlocks.PutKeeps | kernel/mm/src/heap.c:100-102 | a block whose buddy is not free goes back to its list and canonical form holds |
| BuddyRuns.OrderLoopEnds | kernel/mm/src/heap.c:27-35 | the size loop ends if and only if the size is below 2^31; above, the 32-bit threshold wraps to 0 and stays there |
| BuddyRuns.OrderMinimal | kernel/mm/src/heap.c:27-35 | the order chosen is the smallest whose block holds the header byte and the bytes asked for |
| BuddyRuns.AllocKeeps | kernel/mm/src/heap.c:41-66 | allocation is out of memory exactly when no free block is large enough; otherwise it hands out one new block inside the heap with at least the bytes asked for behind the header, in at most max(16, 2 * size) bytes, and keeps the tiling |
| BuddyRuns.AllocTakes | kernel/mm/src/heap.c:41-66 | the block is the head of the first non-empty list from the order on; each list passed over gets the upper half of one split, no other list changes |
| BuddyRuns.FreeKeeps | kernel/mm/src/heap.c:68-103 | free removes exactly that block and keeps tiling and canonical form through all merges |
| BuddyRuns.FreeUndoesAlloc | kernel/mm/src/heap.c:41-103 | freeing the block just allocated gives back the same heap: same blocks, same lists, same order |
| BuddyRuns.NothingLiveIsInitial | kernel/mm/src/heap.c:68-103 | a heap in order without live blocks is one free order-18 block |
| BuddyRuns.EveryRunTiles | kernel/mm/src/heap.c:13-103 | after every run of calls free and live blocks tile the 4 MB without overlap or gap, no two buddies are free, every offset is a multiple of its block's size, and when nothing is live the heap is the initial one |
| BuddyHeap.OrderForSize | kernel/mm/src/heap.c:27-35 | the loop over the doubling threshold computes the minimal order for sizes below 2^31 |
| BuddyHeap.KernelHeap.constructor | kernel/mm/src/heap.c:13-25 | initialization gives one order-18 block of 4 MB, whatever the usable memory is |
| BuddyHeap.KernelHeap.Alloc | kernel/mm/src/heap.c:41-66 | the search, unlink, split and header-write loops over words of memory compute the heap step, and the memory represents the resulting heap with every list spelled by its links |
| BuddyHeap.KernelHeap.SplitDown | kernel/mm/src/heap.c:57-62 | the split loop refines repeated halving, with the links and headers in memory following |
| BuddyHeap.KernelHeap.Free | kernel/mm/src/heap.c:68-103 | the merge loop, with its walk of the free list for the buddy and the unlinking in place, computes the free step |
| BuddyHeap.KernelHeap.Find | kernel/mm/src/heap.c:78-91 | the walk finds the buddy's position in the free list, or that it is not there, and the link that names it |
| BuddyHeap.KernelHeap.OwnerWrite | kernel/mm/src/heap.c:41-66 | a write by the holder of a block to any 16-byte unit of it, but for the header byte, changes that word only and leaves every free list and every header as they were |
| BuddyHeap.SpellsUnlink | kernel/mm/src/heap.c:82-85 | redirecting one link around a block drops exactly that block from the list |
| Frames.MarkUses | kernel/mm/src/frame.c:67-70 | setting a frame's bit puts that frame and no other in use |
| Frames.UnmarkFrees | kernel/mm/src/frame.c:76-82 | clearing a frame's bit frees that frame and no other |
| Frames.FirstFrameInHeapExactly | kernel/mm/src/frame.c:29-45 | the allocator starts with a free frame that begins inside the kernel heap if and only if the heap does not end on a frame boundary and that frame is usable; it is then the first one handed out |
| Frames.HeapTailHandedOut | kernel/mm/src/frame.c:29-74 | with 8 MB and a heap that ends at 0x501234, frame 0x501, of which the heap still has the first bytes, is the first one handed out |
| Frames.InitOverrunsExactly | kernel/mm/src/frame.c:15-45 | the size of the bitmap rounds down: initialization writes behind it if and only if the usable region reaches into the frames that fill no whole byte, and then it writes exactly the one byte behind it |
| Frames.OddFrameOverruns | kernel/mm/src/frame.c:15-45 | with one frame more than 8 MB the bit of the last frame is in the byte behind the bitmap |
| Frames.FirstClear | kernel/mm/src/frame.c:56-64 | the bit loop finds the lowest clear bit of a byte, or 8 |
| Frames.FrameAllocator.constructor | kernel/mm/src/frame.c:15-47 | when the bitmap covers the usable frames, exactly the frames from the one at the heap's end up to the end of usable memory are free |
| Frames.FrameAllocator.LargestEnd | kernel/mm/src/frame.c:16-24 | the loop over the memory map finds its largest end, in 32 bits |
| Frames.UsableIsFirst | kernel/mm/src/mem.c:3-12 | the usable region is the first of type 1 that starts at 1 MB or above, the empty one if there is none |
| Frames.FrameAllocator.FindUsable | kernel/mm/src/mem.c:3-12 | the loop finds the first usable region from 1 MB on, or the empty one |
| Frames.FrameAllocator.Alloc | kernel/mm/src/frame.c:49-74 | the lowest free frame is returned and marked, all others stay as they were; none is the panic, exactly when no frame is free |
| Frames.FrameAllocator.Free | kernel/mm/src/frame.c:76-82 | the frame of the address is free afterwards and no other bit changes |
| AddressSpaces.MapNewOwned | kernel/mm/src/paging.c:40-50 | mapping an unmapped page keeps the one-owner invariant when an added table gets a frame without stale present entries |
| AddressSpaces.MapFreshRefines | kernel/mm/src/paging.c:40-68 | for any directory mapping updates exactly one page of one process, leaves all other translations of all processes, and takes at most one table frame, if and only if an added table's frame has no stale present entry |
| ProcessLives.MapOverOwned | kernel/mm/src/paging.c:49-49 | mapping over a mapped page leaves its old frame in use with nothing that names it, and every other frame with its one owner |
| ProcessLives.MapFreshOwned | kernel/mm/src/paging.c:40-50 | so mapping any page keeps the one-owner invariant but for the frame of a page that was mapped already |
| ProcessLives.AccountsAgree | kernel/mm/src/paging.c:40-50 | which frames belong to no process is not a choice: two accounts of one state agree on it |
| ProcessLives.UnmapOwned | kernel/syscall/src/syscall.c:234-249 | unmapping a page frees exactly its frame and keeps the one-owner invariant |
| ProcessLives.NewProcessOwned | kernel/proc/src/proc.c:28-47 | a new process owns its directory and its kernel stack, every other frame has the owner it had, and no page is mapped |
| ProcessLives.DestroyFreesOwned | kernel/proc/src/proc.c:92-109 | destroy frees exactly the frames the process owns, each once and each in use |
| ProcessLives.DestroyOwned | kernel/proc/src/proc.c:92-109 | after destroy the process's frames are free and all other ownership stands |
| ProcessLives.SavedStackSame | kernel/proc/src/sched.c:60-73 | a trap saves the very stack pointer the process was dispatched with |
| ProcessLives.StepOwned | kernel/syscall/src/syscall.c:234-328 | every create, map, unmap, store, page fill, break change, switch, trap and kill keeps one owner for each used frame, but for the frame of a page mapped over |
| ProcessLives.RunOwned | kernel/proc/src/proc.c:28-109 | the one-owner invariant holds over every run of these steps, with the frames lost named exactly |
| ProcessLives.NoFrameLost | kernel/proc/src/proc.c:28-109 | after any run every used frame is the kernel's, belongs to a process that still exists, or was lost by mapping over it; with no process left exactly the first and the last are used |
| ProcessLives.LifeConserves | kernel/proc/src/proc.c:28-132 | create, any mix of maps (also over mapped pages), unmaps, fills, stores, traps and switches, then destroy: the used frames are those of before and the ones lost, the other processes and the contents of all frames used before are what they were, and no frame is freed twice |
| ProcessLives.BootOwned | kernel/proc/src/proc.c:71-90 | before the first process the one-owner invariant holds with every used frame the kernel's |
| PageGuards.RemapLoses | kernel/mm/src/paging.c:49-49 | mapping over a mapped page loses the frame that was there |
| PageGuards.StaleTableBreaks | kernel/mm/src/paging.c:44-46 | a table frame with a stale present entry breaks the one-owner invariant, as the code does not clear it |
| PageGuards.MapKeepsOwnershipExactly | kernel/mm/src/paging.c:40-50 | the invariant survives a mapping if and only if the page was not mapped and an added table is clear but for the entry written |
| MemoryCalls.MapRangeEffect | kernel/syscall/src/syscall.c:267-271 | mapping a range maps exactly those pages, changes no other translation and keeps ownership but for the frames behind pages of the range that were mapped |
| MemoryCalls.UnmapRangeEffect | kernel/syscall/src/syscall.c:234-249 | unmapping a range unmaps exactly those pages, changes no other translation and keeps ownership |
| MemoryCalls.SbrkEffect | kernel/syscall/src/syscall.c:251-279 | the break moves by the increment, modulo 2^32 upwards and not below 0; a page is mapped exactly when it lies between the old and the new rounded break on the growing side, or was mapped and is not between them, and those outside keep their frames; no translation and no record of another process changes |
| MemoryCalls.SbrkRoundTrip | kernel/syscall/src/syscall.c:251-279 | sbrk(n) then sbrk(-n) restores the break; all translations if and only if no page it maps was mapped before; the used frames if and only if every page it maps lies in a table that is there before the call |
| MappingRegions.MmapKeepsRegions | kernel/syscall/src/syscall.c:281-304 | regions stay disjoint, in order, above the mapping base and below the next address |
| MappingRegions.MunmapKeepsRegions | kernel/syscall/src/syscall.c:306-328 | so they do when one is removed |
| MappingRegions.MmapEffect | kernel/syscall/src/syscall.c:281-304 | mmap maps the pages of the new region and changes no other page of any process; the frames of pages it maps over are lost |
| MappingRegions.MunmapEffect | kernel/syscall/src/syscall.c:306-328 | munmap takes away the pages of exactly the first region with that base and that region; without one it is an error and nothing changes |
| MappingRegions.MmapMunmap | kernel/syscall/src/syscall.c:281-328 | mmap then munmap restores regions and translations if and only if no page of the new region was mapped before and no empty region was at that base |
| ProcessCreation.CreateEffect | kernel/proc/src/proc.c:28-67 | a process that is created has its four stack pages mapped and nothing else; the others keep theirs; every frame has its one owner |
| KernelHalves.NewShares | kernel/mm/src/paging.c:53-69 | a new directory's entries 768 to 1023 are the kernel directory's, and the 13 words at the saved kernel stack pointer are the context given |
| KernelHalves.RunShares | kernel/mm/src/paging.c:63-65 | over every run of single steps the upper quarter of each existing process's directory equals the kernel directory's, which does not change |
| KernelHalves.RunSaves | kernel/proc/src/proc.c:36-46 | no map, unmap, store, fill, creation or destruction writes the context saved for another process or its own |
| SharedKernel.EveryRunShares | kernel/mm/src/paging.c:63-65 | the same over every run of loads, sbrk, mmap, munmap, stores, switches and reaps by any processes |
| SharedKernel.LoadedWaits | kernel/proc/src/proc.c:36-46 | the context of a loaded program stays at its saved stack pointer until its first dispatch, whatever the others call |
| SharedKernel.FirstReturn | kernel/proc/src/proc.c:36-46 | the words the first return from a trap takes: the entry point, 0x1B, 0x202, 0x8000000, 0x23, and eight zeros below |
| SharedKernel.UserPageOpen | kernel/mm/src/paging.c:40-50 | the walk from a mapped address a: entry a / 4 MB of the directory and entry (a / 4096) mod 1024 of its table, both with exactly the bits present, writable and user (kernel/proc/src/proc.h, line 6), naming frames of that table and that page |
| ProcessLayouts.SbrkKeepsLayoutExactly | kernel/syscall/src/syscall.c:251-279 | image, heap, regions and stack make up the address space, and every frame has one owner, after sbrk if and only if the new break lies between the image's end and the mapping base: the call checks neither |
| ProcessLayouts.ImageStaysExactly | kernel/syscall/src/syscall.c:251-279 | for every increment the image's pages stay mapped if and only if they all lie below the rounded new break (for an image that fills its last page: if and only if the rounded break is not below the image's end), and above the image the heap is exactly the pages below it |
| ProcessLayouts.MmapKeepsLayoutExactly | kernel/syscall/src/syscall.c:281-304 | mmap keeps layout and ownership if and only if the new region ends below the stack: the next address only rises and is not checked |
| ProcessLayouts.MmapAccounts | kernel/syscall/src/syscall.c:281-304 | in any state mmap keeps the account of frames if and only if no page of the new region was mapped |
| ProcessLayouts.MunmapKeepsLayout | kernel/syscall/src/syscall.c:306-328 | munmap always keeps layout and ownership |
| CallRuns.SbrkRuns | kernel/syscall/src/syscall.c:251-279 | the call sbrk is a run of the single steps, all about its process |
| CallRuns.MmapRuns | kernel/syscall/src/syscall.c:281-304 | so is mmap |
| CallRuns.MunmapRuns | kernel/syscall/src/syscall.c:306-328 | so is munmap |
| CallRuns.StackRuns | kernel/proc/src/proc.c:48-52 | so is the mapping of the stack |
| CallRuns.LoadRuns | kernel/elf/src/elf.c:48-61 | so is the loading of all pages |
| CallRuns.LoadPageRuns | kernel/elf/src/elf.c:49-60 | the frame the loader writes by its physical address is the one the tables name at that page |
| ProgramRuns.StartLaysOutExactly | kernel/elf/src/elf.c:35-67 | creating a process and loading its image lays out the address space and keeps ownership if and only if the file loads no page twice and its image ends below the mapping base; nothing else changes |
| ProgramRuns.StartAccountsExactly | kernel/elf/src/elf.c:48-61 | starting a program keeps the account of frames if and only if the file loads no page twice and none over the stack |
| ProgramRuns.TopPageLoaded | kernel/elf/src/elf.c:44-66 | an image that ends on a page-aligned segment has the page below its end |
| ProgramLives.CallKeeps | kernel/syscall/src/syscall.c:251-328 | every load, sbrk, mmap, munmap, trap, switch and reap inside those bounds keeps the layout of every process and the one owner of every frame |
| ProgramLives.EveryRunLaidOut | kernel/syscall/src/syscall.c:251-328 | so does every run of such calls by any processes |
| ProgramLives.ProgramLifeConserves | kernel/elf/src/elf.c:19-67 | a program loaded, with any mix of sbrk, mmap and munmap calls, and destroyed leaves the same used frames, the same other processes and the contents of all frames used before; each of its frames is freed once |
| ProgramLives.ReapLeavesNothing | kernel/proc/src/proc.c:92-132 | after any run in which other processes call what they like, reaping a process frees exactly its own frames, each once; every frame still in use is one of the kernel's from before the run or belongs to a process that still exists, and those are laid out as they were |
| ProgramLives.BootLaidOut | kernel/proc/src/proc.c:71-90 | before the first process the state is laid out |
| ProgramExamples.FirstProgram | kernel/elf/src/elf.c:35-67 | loading one small program on a machine of 13 frames or more meets every condition |
| ProgramExamples.SbrkTakesImage | kernel/syscall/src/syscall.c:251-279 | sbrk(-4096) of the program just loaded unmaps a page of its image |
| ProgramExamples.MmapTakesStack | kernel/syscall/src/syscall.c:284-302 | after mappings of 16 MB the next mmap of one page goes over the lowest stack page, whose frame is lost |
| ProgramExamples.EmptyRegionHidesPage | kernel/syscall/src/syscall.c:281-328 | mmap of 0 bytes and then of a page give the same address, and munmap of that address leaves the page mapped |
| ProgramExamples.SharedPageCostsFrame | kernel/elf/src/elf.c:48-61 | a file whose two segments share a page loses a frame when it is started |
| ProgramExamples.UnalignedReadsWrongly | kernel/elf/src/elf.c:50-58 | a program linked at 0x1004 finds the fifth byte of its file where it expects the first |
| ProgramExamples.StaleTableHappens | kernel/mm/src/paging.c:44-46 | create, map, destroy and create again end in a state where mapping one page breaks the one-owner invariant, as the added table still holds an entry |
| BlankMemory.RangeReadyIfBlank | kernel/mm/src/paging.c:40-50 | when no free frame reads as a present entry, every table added along a mapped range is clear, and the free frames are so again afterwards |
| BlankMemory.StartReadyIfBlank | kernel/elf/src/elf.c:35-67 | so is every table added along creating a process and loading its image |
| BlankMemory.ClearIfBlank | kernel/syscall/src/syscall.c:234-328 | so for every call: the condition on the tables along a call follows from one on memory before it |
| KernelMemory.Memory.TakeFrame | kernel/mm/src/frame.c:49-74 | the bitmap search gives the frame of the specification |
| KernelMemory.Memory.PagingMap | kernel/mm/src/paging.c:40-50 | the entry writes compute the mapping step |
| KernelMemory.Memory.UnmapPages | kernel/syscall/src/syscall.c:234-249 | the loop with its skipped entries computes the unmapping of the range |
| KernelMemory.Memory.FillDirectory | kernel/mm/src/paging.c:53-69 | the loop over 768 entries clears and the loop over 256 copies: the row is zeros and then the kernel directory's upper quarter |
| KernelMemory.Memory.Sbrk | kernel/syscall/src/syscall.c:251-279 | sbrk in place computes its specification and returns the old break |
| KernelMemory.Memory.Mmap | kernel/syscall/src/syscall.c:281-304 | mmap in place computes its specification and returns the base |
| KernelMemory.Memory.Munmap | kernel/syscall/src/syscall.c:306-328 | munmap in place computes its specification, with its error return |
| KernelMemory.Memory.NewProcess | kernel/mm/src/paging.c:53-68 | the two directory frames' writes and the saved context give the specification's new process |
| KernelMemory.Memory.ProcCreate | kernel/proc/src/proc.c:28-67 | process creation with its four stack pages computes its specification |
| KernelMemory.Memory.FreeTables | kernel/proc/src/proc.c:95-107 | the nested loops free the pages and tables of the user half in order |
| KernelMemory.Memory.ProcDestroy | kernel/proc/src/proc.c:92-109 | destroy frees the kernel stack, all pages and tables and the directory and nothing else |
| ElfImage.RowHoldsBytes | kernel/elf/src/elf.c:51-60 | bytes written to a frame read back from its words |
| ElfImage.LoadPageEffect | kernel/elf/src/elf.c:49-60 | loading a page puts its words there, keeps every other page of every process, and keeps ownership but for the frame of a page loaded over |
| ElfImage.LoadAllEffect | kernel/elf/src/elf.c:48-61 | so for all pages of an image, also when segments share pages: each page holds what was loaded last |
| ElfImage.NoneLostExactly | kernel/elf/src/elf.c:48-61 | loading loses no frame if and only if no page is loaded twice and none was mapped |
| ElfImage.EndIsLargest | kernel/elf/src/elf.c:44-45 | the image end is the largest end of the loadable segments |
| ElfImage.ImageLoaded | kernel/elf/src/elf.c:37-67 | every loadable segment reads as its bytes of the file and then zeros to the end of its last page, in each page no later segment loads again; no other page changes; the break is the largest end rounded up to a page |
| ElfImage.ReadsShifted | kernel/elf/src/elf.c:50-59 | address vaddr + x reads the byte at x plus the page offset of vaddr: the right one if the segment is page aligned, shifted if not |
| ElfImage.ReadsRightExactly | kernel/elf/src/elf.c:50-59 | a segment with bytes in the file reads right for every file if and only if its address is page aligned |
| ElfImage.CoveredExactly | kernel/elf/src/elf.c:47-50 | the memory image lies in the pages loaded if and only if the last page has room for the page offset of vaddr; always when aligned |
| ProgramLoader.FillPage | kernel/elf/src/elf.c:52-60 | the copy and the zero fill give the bytes of the page |
| ProgramLoader.LoadPageAt | kernel/elf/src/elf.c:49-60 | allocating, mapping and filling in place compute the page load |
| ProgramLoader.LoadProgram | kernel/elf/src/elf.c:37-67 | the loops over headers and pages compute the image, the break and the mapping base |
| ByteBlocks.SetWordReads | kernel/fs/src/ext2.c:197-199 | writing one little-endian word of a block changes that word to the value written and no other |
| Ext2Alloc.AllocFailsWhenFull | kernel/fs/src/ext2.c:358-446 | the search fails exactly when every bit it may look at is set, and exactly when the free total is 0 |
| Ext2Alloc.AllocAccounts | kernel/fs/src/ext2.c:358-446 | allocation of a block or an inode keeps each group's count equal to the clear bits and the total equal to their sum, never returns a number in use, marks that number only, and returns 0 only when nothing is free |
| Ext2Alloc.Decode | kernel/fs/src/ext2.c:378-378 | group and bit of a returned number are those it was made from |
| Ext2Files.IndirectAllocatedExactly | kernel/fs/src/ext2.c:189-198 | after a fresh indirect block the file's pointers are unchanged if and only if that block reads all zero |
| Ext2Files.GetOrAllocOk | kernel/fs/src/ext2.c:178-205 | with enough free blocks the call yields a data block for the index, the file's own if it has one, changes no other pointer, no data and no foreign block, and the block pointers stay distinct |
| Ext2Files.WriteKeepsAny | kernel/fs/src/ext2.c:34-36 | writing a block that is no bitmap keeps all accounts and every other block |
| Ext2FileIO.WriteFromOk | kernel/fs/src/ext2.c:456-482 | the write loop stores all of the buffer, keeps the file system and the file in order, and leaves foreign blocks and earlier data unchanged |
| Ext2FileIO.SlotInTable | kernel/fs/src/ext2.c:109-114 | an inode's slot lies in its group's table |
| Ext2FileIO.SlotsApart | kernel/fs/src/ext2.c:109-123 | slots of different inodes do not meet |
| Ext2RoundTrip.InodeSaved | kernel/fs/src/ext2.c:134-160 | the saved inode reads back from its slot and every other slot is unchanged |
| Ext2RoundTrip.WriteThenRead | kernel/fs/src/ext2.c:307-336 | writing up to (12 + block size / 4) blocks returns the length; reading gives the same bytes; the saved inode reads back; every other inode slot and every used block that is neither the file's nor a bitmap, but the one of the slot, is unchanged |
| Ext2RoundTrip.WriteThenReadWhenClear | kernel/fs/src/ext2.c:448-485 | the same, with the condition on fresh indirect blocks replaced by: the free blocks read zero at the start |
| Ext2RoundTrip.ReadyIfClear | kernel/fs/src/ext2.c:189-198 | clear free blocks are enough for every indirect block the write may add |
| Ext2ShortWrites.WholeWrittenExactly | kernel/fs/src/ext2.c:448-485 | with block 0 reading zero the write returns the whole length if and only if the block pointers reach that far and as many blocks are free as it needs; the size stored is that of the whole buffer in any case |
| Ext2ShortWrites.BootRead | kernel/fs/src/ext2.c:189-204 | when no block is free for the indirect block the pointer is the word of block 0 at that place |
| Ext2ShortWrites.OldBytesKept | kernel/fs/src/ext2.c:456-482 | the blocks a file has stay its blocks, and the bytes behind the data written, in the last block and in all behind it, stay what they were |
| Ext2RoundTrip.OtherFileKept | kernel/fs/src/ext2.c:448-485 | a file that shares no block with the one written keeps its map and its blocks and reads the same |
| Ext2Layout.PointersOnDisk | kernel/fs/src/ext2.c:162-176 | pointer i below 12 is the 32-bit number at byte 40 + 4 i of the inode; from 12 on it is number i - 12 of the block that byte 88 names, 0 if that is 0 or i is not below 12 + block size / 4 |
| Ext2Layout.FieldsOnDisk | kernel/fs/src/ext2.h:93-98 | the size is at byte 4; the high four bits of the mode at byte 0 are 8 for a file and 4 for a directory |
| Ext2Layout.SlotOnDisk | kernel/fs/src/ext2.c:106-132 | inode id is the 128 bytes at ((id - 1) mod inodes per group) times the inode size in the table of group (id - 1) / inodes per group |
| Ext2Layout.BlockBitOnDisk | kernel/fs/src/ext2.c:374-381 | bit k of a group's block bitmap says whether block (group times blocks per group) + k is in use |
| Ext2Layout.InodeBitOnDisk | kernel/fs/src/ext2.c:403-440 | bit k of its inode bitmap says whether inode (group times inodes per group) + k + 1 is |
| Ext2Layout.BitOrder | kernel/fs/src/ext2.c:374-381 | bit j of a bitmap byte is 2^j |
| Ext2Layout.AllocPrefers | kernel/fs/src/ext2.c:358-401 | the number allocated is the first free one of the first group, from the preferred one on and around, that has one |
| Ext2RoundTrip.ReadsPastEnd | kernel/fs/src/ext2.c:313-334 | a read gives bytes past the file size if and only if more than the size is asked for and the size is no multiple of the block size |
| Ext2Reads.ReadGives | kernel/fs/src/ext2.c:307-336 | a read gives, of the size asked for, the bytes of the file's blocks in order up to the first pointer that is 0 or the block its size ends in, whichever comes first |
| Ext2Example.WriteCanHappen | kernel/fs/src/ext2.c:448-485 | a small disk with one free block and an empty file meets every condition of the write results |
| Ext2Example.CreateCanHappen | kernel/fs/src/ext2.c:487-558 | and creating a file in its directory meets every condition of the creation result |
| Ext2Example.LeftoverBecomesPointer | kernel/fs/src/ext2.c:189-205 | on a disk in order whose free block holds the number 1, the block an empty file gets for index 12 is the block bitmap |
| Ext2Example.FullBlockLosesFile | kernel/fs/src/ext2.c:545-552 | in a directory block whose last record has no room the new file is not listed, and its record goes over what lies behind the block |
| Ext2Example.OneByteReadsTwo | kernel/fs/src/ext2.c:313-334 | a file of one byte just written gives two when two are asked for |
| Ext2Example.ShortWriteHappens | kernel/fs/src/ext2.c:448-485 | a write of two blocks to a disk with one free block stores fewer bytes and the size of all of them |
| Ext2Example.FullDiskYieldsBitmap | kernel/fs/src/ext2.c:189-204 | on a full disk in order whose block 0 holds the number 1, the block an empty file gets for index 12 is the block bitmap |
| Ext2Dirs.ListingEndsExactly | kernel/fs/src/ext2.c:226-240 | the listing loop ends if and only if no record it comes to has length 0, within as many rounds as the block has bytes |
| Ext2Dirs.InsertKeepsChainExactly | kernel/fs/src/ext2.c:533-552 | after the insertion the records tile the block and list the old entries and then the new one if and only if the last record has room; with room nothing behind the block changes |
| Ext2Dirs.AddEntryLists | kernel/fs/src/ext2.c:207-244 | with room the directory lists its old entries and then the new file, and no other used block changes |
| Ext2Layout.RecordOnDisk | kernel/fs/src/ext2.c:226-240 | a record's inode number is at byte 0, its length at 4, the name's length at 6, the type at 7 and the name from 8 on, for any bytes |
| Ext2Layout.InsertAligned | kernel/fs/src/ext2.c:545-547 | a new record starts behind the name of the last one at the next multiple of four |
| Ext2Create.AllocInodeOk | kernel/fs/src/ext2.c:403-446 | allocating an inode yields a free number with a slot, marks only that number and touches no file; 0 exactly when none is free |
| Ext2Create.CreateFileLists | kernel/fs/src/ext2.c:487-558 | creating a file, whole: the directory lists what it listed before the call and then the new entry; the inode number was free and is in use; the inode at its slot reads back exactly the bytes given; the file system is in order |
| Ext2Create.CreateFileKeepsOthers | kernel/fs/src/ext2.c:487-558 | any other file that shares no block with the directory keeps its map and reads the same, and every inode slot but the new one is as it was |
| Ext2Layout.CreatedOnDisk | kernel/fs/src/ext2.c:490-498 | the inode of a created file has mode 0x81A4, one link and the size given on disk |
| Ext2Dirs.ListBlock | kernel/fs/src/ext2.c:226-240 | the loop lists the records of a tiled block |
| Ext2Dirs.FindLast | kernel/fs/src/ext2.c:533-543 | the loop finds the record that ends the block |
| Ext2Dirs.InsertRecord | kernel/fs/src/ext2.c:545-552 | the writes to the buffer compute the insertion |
| Ext2Driver.Driver.AllocNumber | kernel/fs/src/ext2.c:358-446 | the loops over groups, bytes and bits with their updates and write-backs compute the allocation |
| Ext2Driver.Driver.Create | kernel/fs/src/ext2.c:487-558 | the whole call in place, with the parent directory given, computes the creation: number, inode, contents, entry |
| Ext2Driver.Driver.AddToDir | kernel/fs/src/ext2.c:511-557 | its end in place: the last block of the directory gets the record, and a parent that is no directory or has no block is left alone |
| Ext2Driver.Driver.SearchBitmap | kernel/fs/src/ext2.c:375-377 | the byte and bit loops find the first clear bit |
| Ext2Driver.Driver.BlockPtr | kernel/fs/src/ext2.c:162-176 | the block pointer of an index, 0 for none |
| Ext2Driver.Driver.GetOrAllocPtr | kernel/fs/src/ext2.c:178-205 | the call in place on inode and disk computes its specification |
| Ext2Driver.Driver.LoadInode | kernel/fs/src/ext2.c:106-132 | the inode at its slot |
| Ext2Driver.Driver.SaveInode | kernel/fs/src/ext2.c:134-160 | the slot gets the inode's bytes, the rest of the block stays |
| Ext2Driver.Driver.WriteToFile | kernel/fs/src/ext2.c:448-485 | the write in place computes its specification, -1 for an inode that is no file |
| Ext2Driver.Driver.ReadFromFile | kernel/fs/src/ext2.c:307-336 | the front of the buffer gets what the specification reads, the rest stays |
| UserHeap.ClassExact | user_fs/lib/mem.h:60-72 | the class index of a class's size is that class again, so a block goes back to the list it came from; above 8192 there is none |
| UserHeap.CarveKeeps | user_fs/lib/mem.h:81-87 | carving a chunk keeps blocks apart, the arena tiled and the lists exact |
| UserHeap.AllocSmallGives | user_fs/lib/mem.h:90-97 | a small allocation that does not take the break past a mapping gives a block of exactly its class size, and fails exactly when the list is empty and the break cannot move |
| UserHeap.AllocLargeGives | user_fs/lib/mem.h:99-117 | first fit gives the first block that is large enough, else fresh memory, and fails exactly when neither exists; the block is new when the break passes no mapping |
| UserHeap.AllocMappedGives | user_fs/lib/mem.h:125-132 | a mapped block is apart from all others when mapped addresses lie above the break |
| UserHeapRuns.AllocGives | user_fs/lib/mem.h:121-137 | malloc on a safe call gives a block that was not live, apart from all live ones, with at least the bytes asked for if and only if adding the header does not wrap |
| UserHeapRuns.WrappedSizeGivesNothing | user_fs/lib/mem.h:121-137 | malloc of 2^32 - 8 bytes from a fresh heap gives a block without a byte behind its header |
| UserHeapRuns.AllocKeepsExactly | user_fs/lib/mem.h:121-137 | malloc keeps the heap in order and every block in use what it was if and only if the call is safe: the new break stays at or below every live mapping, and a new mapping starts at or above the break |
| UserHeapRuns.HeapMeetsMapping | user_fs/lib/mem.h:99-137 | from any first break, one mapping and enough blocks of 8200 bytes lead to a malloc whose block overlaps the mapping, which is still in use |
| UserHeapRuns.ReleaseKeeps | user_fs/lib/mem.h:139-157 | free takes exactly that block out of use and keeps the invariant |
| UserHeapRuns.FreeUndoesAlloc | user_fs/lib/mem.h:121-157 | freeing what malloc gave restores the live blocks, and the whole heap if it came from a non-empty class list |
| UserHeapPlaces.AllocPlaces | user_fs/lib/mem.h:75-137 | below 8193 bytes with the header: the head of the list of the first of the classes 16 to 8192 that is large enough, or the last of eight blocks the break moves for; up to 65535: the first large enough block whole, or the bytes from the break; above: the next mapping in whole pages |
| UserHeapPlaces.FreePlaces | user_fs/lib/mem.h:139-157 | free puts the block at the head of its class's list or of the large one, and gives a mapped block back |
| UserHeapRuns.ResizeKeepsExactly | user_fs/lib/mem.h:167-180 | realloc keeps the old bytes at the front, gives enough room, and leaves every other live block, header and bytes, if and only if the header does not wrap, the block was large enough, or the smallest class has no free block and no memory is granted; when it fails nothing live changes |
| UserHeapRuns.EveryRunInv | user_fs/lib/mem.h:65-180 | over every run of safe calls blocks are apart, tile the arena, and each free block lies once in the list of exactly its size |
| UserHeapRuns.BlockSurvives | user_fs/lib/mem.h:65-180 | a live block that no call is about keeps header and bytes over every run of safe calls |
| UserHeapRuns.LiveApart | user_fs/lib/mem.h:65-180 | after every run of safe calls two live blocks share no byte |
| UserHeapRuns.AlignmentKeptExactly | user_fs/lib/mem.h:111-114 | 16-byte alignment survives a call if and only if it does not take a block above the classes, of a size that is no multiple of 16, from the break |
| UserHeapRuns.FirstSmallPointer | user_fs/lib/mem.h:75-97 | the first pointer from a fresh chunk is aligned if and only if the break was |
| UserHeapRuns.MidSizeBreaksAlignment | user_fs/lib/mem.h:111-111 | asking for 8200 bytes and then 1 gives a pointer that is 8 modulo 16 |
| UserHeapRuns.CallocClears | user_fs/lib/mem.h:159-165 | calloc's block holds all elements if and only if neither the product nor the header wraps; then it reads zero |
| UserAllocator.ChainUnlink | user_fs/lib/mem.h:100-109 | pointing past one block of a linked list drops exactly that block |
| UserAllocator.Allocator.ClassIndex | user_fs/lib/mem.h:65-72 | the loop computes the smallest class that is large enough |
| UserAllocator.Allocator.ExtendSmall | user_fs/lib/mem.h:75-88 | the carving loop in place |
| UserAllocator.Allocator.TakeSmall | user_fs/lib/mem.h:90-97 | the small allocation in place |
| UserAllocator.Allocator.TakeLargeBlock | user_fs/lib/mem.h:99-117 | the first-fit walk with its pointer to the previous link, in place |
| UserAllocator.Allocator.Malloc | user_fs/lib/mem.h:121-137 | malloc on linked lists computes its specification |
| UserAllocator.Allocator.FreePtr | user_fs/lib/mem.h:139-157 | free on linked lists computes its specification |
| UserAllocator.Allocator.Calloc | user_fs/lib/mem.h:159-165 | calloc computes its specification |
| UserAllocator.Allocator.ReallocPtr | user_fs/lib/mem.h:167-180 | realloc computes its specification in all four cases |
| StackLayout.StringsPlaced | kernel/proc/src/sched.c:81-94 | every string lies where its pointer says, below the ones before it, and nothing outside changes |
| StackLayout.WordsPlaced | kernel/proc/src/sched.c:96-113 | every pointer lies in its place and nothing outside changes |
| StackLayout.LayoutRoundTrip | user_fs/src/_start.c:18-38 | for arguments and environment that fit the 16 KB stack, the entry point finds the same count, the same strings in order, the same environment and its end; the bytes written are exactly those from the stack pointer to the top |
| StackLayout.LayoutAddresses | kernel/proc/src/sched.c:76-113 | the pointers written: the argument strings end downwards from 0x8000000 in order, those of the environment from the last argument on |
| StackLayout.LayOut | kernel/proc/src/sched.c:76-118 | the downward loops compute the layout |
| StackLayout.CountArguments | user_fs/src/_start.c:20-30 | the counting loop computes argc and environ |
| Scheduling.PickStops | kernel/proc/src/sched.c:39-48 | the pick stops at the first runnable process behind the head, cyclically, or after a full round |
| Scheduling.PickNoneExactly | kernel/proc/src/sched.c:39-48 | it finds none if and only if no process is runnable |
| Scheduling.PickApproaches | kernel/proc/src/sched.c:39-48 | a runnable process is picked or strictly nearer afterwards |
| Scheduling.PickedInTime | kernel/proc/src/sched.c:51-73 | a process that stays runnable in a table of n is picked within n scheduler calls, whatever the others do |
| WakeUps.ExitKeeps | kernel/syscall/src/syscall.c:55-64 | exit leaves nobody waiting for the dead process |
| WakeUps.SegfaultKeeps | kernel/proc/src/sched.c:151-171 | so does a segfault |
| WakeUps.WaitpidKeeps | kernel/syscall/src/syscall.c:145-171 | waitpid, in all its branches, keeps the invariant |
| WakeUps.NoLostWakeUp | kernel/proc/src/sched.c:173-210 | after every run without kill a process blocked on a child waits for a child of its own that is in the table and no zombie |
| WakeUps.EveryRunWakes | kernel/syscall/src/syscall.c:43-64 | the whole invariant over every run without kill |
| WakeUps.ZombieUntilReaped | kernel/proc/src/sched.c:194-210 | a zombie stays one, and leaves the table if and only if its parent waits for it |
| ExitCodes.ExitWakesParent | kernel/proc/src/sched.c:182-192 | the waiting parent is ready when exit returns |
| ExitCodes.WaitDeliversExactly | kernel/syscall/src/syscall.c:145-171 | follow the caller of waitpid to the state in which it next runs, through whatever the others do: the child's exit code is in its EAX and the child has left the table if and only if the child was a zombie at the call; otherwise EAX is what it was and the child stays a zombie |
| KilledReaders.KilledChildStrandsExactly | kernel/syscall/src/syscall.c:135-143 | a parent waiting for a process that is killed stays blocked over every later run in which it is not killed itself, if and only if the victim is not the recorded reader |
| KilledReaders.KilledReaderFreesParent | kernel/proc/src/sched.c:173-192 | a killed recorded reader is revived by its line, is dispatched in time and exits, and the parent waiting for it is ready: a run with these steps exists from every such state |
| WakeUpLimits.KillKeepsExactly | kernel/syscall/src/syscall.c:135-143 | kill keeps the invariant if and only if nobody waits for the victim and it is not the recorded reader |
| WakeUpLimits.SecondReadStrands | kernel/tty/src/stdin.c:32-38 | a read strands exactly the process recorded as reading before, if there is one, and never the caller |
| WakeUpLimits.StrandedForever | kernel/tty/src/stdin.c:57-77 | nothing wakes a stranded reader over any run without kill |
| ProcessStacks.CoreLaysOut | kernel/proc/src/sched.c:76-118 | the process the scheduler core dispatches finds its arguments and its environment on its stack, also the first time |
| ProcessStacks.SegfaultLaysOutExactly | kernel/proc/src/sched.c:160-170 | after a fault the process switched to lacks them if and only if it had never been dispatched, a condition on the state before; its entry point then reads outside the stack |
| ProcessStacks.StepPrepares | kernel/proc/src/sched.c:51-171 | every step without kill leaves the running process with its arguments but such a fault |
| ProcessStacks.EveryRunPrepares | kernel/proc/src/sched.c:51-171 | so does every run without kill and without such a fault |
| ProcessStacks.FaultBeforeStart | kernel/proc/src/sched.c:151-171 | two programs started and a fault of the first lead to the second running without its arguments |
| Scheduler.Table.PickNext | kernel/proc/src/sched.c:39-48 | the do-while loop over the table |
| Scheduler.Table.Dispatch | kernel/proc/src/sched.c:51-120 | the scheduler core on process records |
| Scheduler.Table.NotifyParent | kernel/proc/src/sched.c:182-192 | the parent notification on process records |
| Scheduler.Table.ReapAt | kernel/proc/src/sched.c:194-210 | the reaped record leaves the table and the others close up |
| Scheduler.Table.ExitCall | kernel/syscall/src/syscall.c:55-64 | exit and the yield behind it |
| Scheduler.Table.SegfaultCall | kernel/hw/src/idt.c:72-87 | the fault handler and the switch |
| Scheduler.Table.WaitpidCall | kernel/syscall/src/syscall.c:145-171 | waitpid with its error returns, reaping and blocking |
| Scheduler.Table.ReadCall | kernel/syscall/src/syscall.c:43-53 | read blocks the caller and records it |
| Scheduler.Table.FlushStdin | kernel/tty/src/stdin.c:57-77 | the wake of the recorded reader |
| Scheduler.Table.KillCall | kernel/syscall/src/syscall.c:135-143 | kill, with the yield when the caller is the victim |
| Scheduler.Table.ExecCall | kernel/syscall/src/syscall.c:121-133 | the new record and the caller's result |
| ProcessRecords.ExecGives | kernel/syscall/src/syscall.c:121-133 | exec adds one record with the arguments given, the caller as its parent, its stack pointer at 0x8000000 and the next pid; the caller's EAX is that pid; nothing else changes |
| ProcessRecords.ExecFails | kernel/syscall/src/syscall.c:130-132 | exec of no program puts -1 into the caller's EAX and changes nothing else |
| ProcessRecords.ExecPasses | kernel/elf/src/elf.c:69-113 | after any run without kill, the first dispatch of the new process by the scheduler core leaves exactly the argument and environment strings given to exec for its entry point |
| ProcessRecords.RunningGets | kernel/elf/src/elf.c:69-113 | whenever the new process runs, in a run without kill whose faults switch to processes dispatched before, it has them |
| ProcessRecords.StepContinues | kernel/syscall/src/syscall.c:55-171 | every step but kill keeps each process's parent and arguments, and a zombie's exit code |
| ProcessRecords.ExitStores | kernel/syscall/src/syscall.c:55-64 | exit(code) leaves the caller a zombie with that code |
| ProcessRecords.SegfaultStores | kernel/hw/src/idt.c:72-87 | a fault leaves one with 139 |
| ProcessRecords.ExitCodeDelivered | kernel/syscall/src/syscall.c:55-171 | exit(code) of a child, any run without kill and without a waitpid for it, then its parent's waitpid: code is in the parent's EAX and the child has left the table |
| ProcessRecords.FaultCodeDelivered | kernel/proc/src/sched.c:151-210 | after a fault it is 139 |
| ProcessRecords.WaitRefused | kernel/syscall/src/syscall.c:145-160 | waitpid on no process gives -1, on another's child -2, and changes nothing else |
| ProcessRecords.KillGives | kernel/syscall/src/syscall.c:135-143 | kill makes a zombie of the record and changes nothing else, but for the scheduler core when the caller is the victim |
| ProcessRecords.KilledGivesZero | kernel/syscall/src/syscall.c:135-171 | the parent of a process killed while nobody waited for it and it did not read gets 0 from a later waitpid |
| StdinLines.LineIsEdited | kernel/tty/src/stdin.c:40-55 | the buffer holds the line that typing and Backspace make, at most 511 characters |
| StdinLines.EnterDelivers | kernel/tty/src/stdin.c:57-77 | the reader gets the first (length mod 256) characters of the edited line, characters typed before the read included; the whole line if and only if it is shorter than 256; the next line starts empty |
| StdinLines.EnterOnce | kernel/tty/src/stdin.c:57-77 | one Enter serves one read: before the next read another Enter hands nothing over, and what is typed meanwhile is kept |
| StdinLines.TypedAheadOverwritesExactly | kernel/proc/src/sched.c:30-37 | keys typed between Enter and the copy go into the same bytes: the reader gets its line if and only if they agree with it |
| ReaderLines.FlushGives | kernel/proc/src/sched.c:173-180 | Enter makes the recorded reader ready with its line waiting and changes nothing else |
| ReaderLines.StepCopies | kernel/proc/src/sched.c:51-73 | every step without kill leaves the process that runs with its line copied but a fault that switches to a process whose line waits: the fault path copies nothing |
| ReaderLines.EveryRunCopies | kernel/proc/src/sched.c:30-37 | so does every run without kill and without such a fault |
| ReaderLines.FaultSkipsLine | kernel/proc/src/sched.c:151-171 | two programs, the second reading, Enter, and a fault of the first lead to the second running without its line |
| FileDescriptors.OpenKeeps | kernel/proc/src/proc.c:133-150 | open gives a free number from 3 on, names a slot of that node, and keeps the counts |
| FileDescriptors.CloseKeeps | kernel/proc/src/proc.c:187-197 | close keeps the counts and empties a slot at its last reference |
| FileDescriptors.EveryRunCounts | kernel/fs/src/fd.c:16-56 | over every run each slot counts the descriptors naming it, is empty exactly when there are none, and no node has two slots |
| FileDescriptors.ReferencesCounted | kernel/fs/src/fd.c:16-56 | the same from empty tables |
| FileDescriptors.CloseUndoesOpen | kernel/proc/src/proc.c:133-197 | closing what was just opened restores every slot and every number |
| DescriptorAccess.OpenGives | kernel/proc/src/proc.c:133-150 | open gives the lowest free number from 3 to 15 with the flags given, or none exactly when all are taken; a node nobody has open is write-locked unless the flags say read only |
| DescriptorAccess.FlagsDecide | kernel/proc/src/proc.c:151-185 | from the open on, over every run of opens and closes without its close, the number reads the node if and only if the flags have bit 0 or 2, and writes it if and only if they have bit 1 or 2 |
| DescriptorAccess.ClosedIsShut | kernel/proc/src/proc.c:151-197 | after its close it does neither |
| FileDescriptors.DestroyKeepsExactly | kernel/proc/src/proc.c:92-132 | a process that goes keeps the counts right if and only if it had nothing open |
| FileDescriptors.OpenFileOutlives | kernel/proc/src/proc.c:92-150 | a process opens a file and goes: the slot counts one descriptor that nobody has |
| FileDescriptors.Table.FindByNode | kernel/fs/src/fd.c:40-46 | the search loop |
| FileDescriptors.Table.Add | kernel/fs/src/fd.c:24-34 | the first empty slot or a new one |
| FileDescriptors.Table.OpenFd | kernel/proc/src/proc.c:133-150 | opening on entry objects and a process's array computes its specification |
| FileDescriptors.Table.CloseFd | kernel/proc/src/proc.c:187-197 | closing on entry objects and a process's array computes its specification |
| GrowingArrays.Dynarray.Add | kernel/lib/src/dynarray.h:20-27 | the element is appended, the capacity doubles exactly when it was full |
| GrowingArrays.Dynarray.Remove | kernel/lib/src/dynarray.h:29-35 | the shifting loop removes exactly that element |
| GrowingArrays.Dynarray.RemoveLast | kernel/lib/src/dynarray.h:37-44 | the last element is taken off and returned; an empty array gives the code's null and stays empty |
| SplitAndJoin.JoinUndoesSplit | kernel/lib/src/string.h:18-57 | joining the split gives the string without at most one delimiter at its end |
| SplitAndJoin.SplitUndoesJoinExactly | kernel/lib/src/string.h:18-57 | splitting the join gives the parts back if and only if none holds the delimiter and the last is not empty |
| SplitAndJoin.SplitLoop | kernel/lib/src/string.h:18-39 | the cursor loop through the growing array computes the split |
| SplitAndJoin.JoinLoop | kernel/lib/src/string.h:41-57 | the copy loops compute the join; there is room for the final NUL if and only if there is a part |
| PathNormal.TokensOfRender | user_fs/lib/string.h:118-166 | the tokens of a written path are its components |
| PathNormal.UpAtRoot | user_fs/src/kai.c:47-49 | going up at the root stays at the root |
| PathMoves.GoesUp | user_fs/src/kai.c:47-49 | .. from a clean PWD goes up exactly one directory |
| PathMoves.Stays | user_fs/src/kai.c:45-46 | . and the empty target stay |
| PathMoves.GoesDown | user_fs/src/kai.c:50-54 | a name goes down one directory, and is dropped when there are 31 components |
| PathMoves.FromRoot | user_fs/src/kai.c:30-38 | a target behind a slash is that target seen from the root, whatever the PWD; no PWD is the root |
| PathMoves.TwoMoves | user_fs/src/kai.c:25-73 | resolving a/b is resolving b from what a resolves to |
| PathMoves.ParentOfTarget | user_fs/src/kai.c:47-49 | resolving t/.. gives the text before the last slash of what t resolves to, the root for a name in it |
| PathMoves.ResolvedIsCanonical | user_fs/src/kai.c:59-69 | the path written starts with a slash, has no two slashes together and none at its end but as the root, and is below 512 characters |
| PathNormal.CleanExactly | user_fs/src/kai.c:25-57 | every target resolves to clean components if and only if the PWD's components are clean |
| PathNormal.UncleanStays | user_fs/src/kai.c:25-73 | with a PWD of .. an empty target resolves to /.. |
| PathNormal.ResolveIsStackExactly | user_fs/src/kai.c:59-69 | the path written is that of the component stack if and only if it fits: below 512 characters, a single component below 510 |
| PathNormal.OnlySlashExactly | user_fs/src/kai.c:59-69 | the output loop has written no more than a slash if and only if each component so far has 510 characters or more |
| PathNormal.LongNameFitsNot | user_fs/src/kai.c:59-69 | an absolute target of one name of 510 characters is such a case: the path written is a slash without its end |
| PathNormal.ResolvedIsNormal | user_fs/src/kai.c:25-73 | from a clean PWD a result that fits is absolute, has no empty, dot or dot-dot component, and resolves to itself from anywhere |
| PathNormal.NormalPwd | user_fs/src/kai.c:30-38 | a PWD written by an earlier cd brings its components back |
| WorkingDirectory.Tokenizer.Next | user_fs/lib/string.h:118-145 | strtok with its saved position cuts the token out of the buffer and leaves the rest readable |
| WorkingDirectory.SplitInto | user_fs/lib/string.h:147-166 | the loop of strtok calls gives the tokens |
| WorkingDirectory.Stack | user_fs/src/kai.c:26-57 | the component array used as a stack computes the walk |
| WorkingDirectory.ResolveInto | user_fs/src/kai.c:25-73 | the buffer holds the resolved path, ended by a NUL unless there are components and each has 510 characters or more |

## Left out

- Port input and output, ATA polling and its error branches, PIC, PIT, IDT, TSS and GDT setup, the boot loader, CR3 loads and the TLB: hardware.
- TTY drawing, VGA and VESA, fonts, keyboard tables, serial output, logging and panics: user interface. A panic appears as a missing result.
- `ls`, `cat`, `genkan`, the shell loop and the VFS function pointers: thin wrappers.
- `paging_kernel_init`'s identity loop: the kernel half of a directory is data that new directories copy.
- Checks for "not initialized" in heap, frame allocator, paging and ext2: set once at boot.
- The ext2 superblock, the MBR and the descriptor table as bytes on disk: counts and descriptors are records, and `saved` is the last state written out. The descriptor table is a list of groups, so its place for 4 KB blocks and a first data block other than 0 do not appear.
- 32-bit overflow of ext2 block addresses, and of the 16-bit free counts of a group: numbers are unbounded there, and every count is at most the bits of one block.
- Names of directory records cut at a NUL, and the listing's fixed name buffer: names are byte sequences of at most 255.
- Memory behind a directory block beyond what an insertion writes, and writes outside a block in the user heap.
- Arguments that do not fit the 16 KB user stack: the kernel would write below the mapped pages. The counting loop of the entry point is bounded by the stack's end in the model only to be total; within the layout it stops before.
- What a process's traps and its first dispatch write into its saved context: `KernelHalves.RunSaves` and `SharedKernel.LoadedWaits` say that nothing else does.
- `readdir`'s copying of entries: a listing is the entries, and which are directories is their type.
- The scheduler's saved registers, kernel stacks and page directory switch: they are in `ProcessLives`, apart from the process table here. `pid_counter` does not wrap. The process RUNNING state is never assigned and is absent.
- `dynarray_new(0)` never grows; every caller asks for a positive capacity and the constructor asks for it too.
- Failed allocations inside `cd`, `strsplit` and `strdup`, and the freeing of their temporary strings.
- The ELF magic check and the reading of the file: the loader starts from the file's bytes and its program headers.
- The kernel heap blocks behind process records (regions, arguments, environment) that `proc_destroy` frees: the heap is modelled on its own.
- `itoa`, `strcat`, `memcpy` and the other small string functions: easy members.
- StdinLines.Deliver: does not model the reader's buffer size, which the kernel ignores when it copies.
- Ext2RoundTrip.WriteThenRead: the condition on indirect blocks follows the run of the write; `WriteThenReadWhenClear` gives one on the disk before the call.
- BuddyHeap.OrderForSize: asks for a size below 2^31, because the loop does not end above it.
- `fs_ext2_resolve_path` and the parent lookup of `fs_ext2_create_file`, which would only add easy members: a fold of `list_dir` over `kstrsplit`. The parent's inode number is given.
- Memory of a reaped process that is still recorded as reading: the record then names no process in the table.
- Ext2Create.CreateFile: gives none when no inode is free, or when the directory is no chain of records or its last record has no room; the code goes on with inode 0, or writes on.
- Scheduling.Kill: asks for a pid in the table, as do `Scheduler.Table.KillCall` and the runs, because the code dereferences null for another one (kernel/syscall/src/syscall.c:139-141).
- Scheduler.Table.KillCall: asks for a pid in the table, as `Scheduling.Kill` does.
- FileDescriptors.Table.CloseFd: asks for a number that is open, because the code dereferences null for another one.
- WorkingDirectory.SplitInto: asks for an array that holds all tokens, because the code writes behind it otherwise.
- WorkingDirectory.Stack: asks for at most 31 parts in the target and in the PWD, for the same reason.
- WorkingDirectory.ResolveInto: asks for at most 31 parts in the target and in the PWD, for the same reason.
- Frames.FrameAllocator.constructor: asks that the bitmap covers the usable frames, because `fa_init` writes behind it otherwise; `InitOverrunsExactly` says when.
- UserAllocator.Allocator.Malloc: asks for a safe call, because after an unsafe one two blocks share memory and the lists in it are no lists any more; `AllocKeepsExactly` says when.
- UserAllocator.Allocator.Calloc: asks for a safe call, as `Malloc` does.
- UserAllocator.Allocator.ReallocPtr: asks for a safe call, as `Malloc` does.
- UserAllocator.Allocator.ExtendSmall: asks that the chunk stays below the live mappings, for the same reason.
- UserAllocator.Allocator.TakeSmall: asks that the break stays below the live mappings, for the same reason.
- UserAllocator.Allocator.TakeLargeBlock: asks that the break stays below the live mappings, for the same reason.
- Ext2Driver.Driver.Create: asks for a free inode and for room in the directory's last record, as `Ext2Create.CreateFile` does; `InsertKeepsChainExactly` says what happens without room.
- Ext2Driver.Driver.AddToDir: asks for room in the directory's last record, because the code writes behind the block otherwise.
- ElfImage.ImageLoaded: that added page tables are clear is asked for along the load, as each is reached; so do `ProgramRuns.StartReady` and `ProgramLives.Clear` for the other calls. `BlankMemory.ClearIfBlank` gives one condition on memory before the call.
- MemoryCalls.Sbrk: asks that the break stays in the user half of the address space; above it the kernel's own tables would change.
- KernelMemory.Memory.Sbrk: asks the same of the break.
- KernelMemory.Memory.Mmap: asks that the region stays in the user half, for the same reason.
- MappingRegions.Mmap: asks the same of the region, as do the lemmas about it.
- MappingRegions.MmapMunmap: asks the same of the region.
