# Verification of the Jokerix kernel

Jokerix is a small RISC-V kernel. This project models the parts of it that keep
state across calls, in the form the kernel has them (arrays rewritten in place,
linked nodes, page tables reached through frames, registers and stack words),
and proves what those parts promise.

* The buddy heap of `kernel/heap.c` and `user/malloc.c`: modules `Bits`,
  `CompleteTree`, `BuddySpec`, `Buddy`, `Heap`. The node array stores no block
  sizes and leaves entries below an allocated node stale. It is proved to be a
  function of the set of live blocks, from which everything else follows.
* The frame allocator, the Sv39 page tables and the ELF loader: modules
  `SegmentTree`, `Bytes`, `PageTable`, `FrameCount`, `Mapping`, `KernelSpace`,
  `Loader`, `ElfFile`. The tables refine a map from page numbers to entries, and
  the hardware's walk reads that map. The frames that a call takes are counted,
  so that it is known exactly when they run out. `ElfFile` says what a program
  finds in terms of the bytes that its file was written with.
* The life of threads: modules `Scheduler`, `Queue`, `Kernel`, `Places`,
  `Lifecycle`, `Runs`, `Programs`, `WokenReaders`, `Processor`. `Kernel` is the
  step system (one step is what runs between two returns to user mode or to the
  idle loop), `Processor` is the code on its data structures, proved to take
  those steps, one at a time (`Perform`) and over whole runs (`PerformAll`).
  `Programs` is a machine without statuses or slots of records, which the step
  system is proved to refine, and `Runs` and `WokenReaders` have the results
  about runs.
* Context switches: modules `Context`, `ContextRuns` and `UserStacks`, from the
  instructions of `kernel/switch.S` to runs of any number of threads. Words are
  found through the page tables that the mapping modules build.
* SimpleFS: modules `SimpleFs`, `FsTree`, `ImageFormat`, `Packing`, `Packer` for
  `mkfs/mksfs.c`, and `Reader`, `Paths` for `kernel/fs.c`. The packer is proved
  against a predicate that says what an image stores; the reader, written
  independently, is proved to get every path and byte back. `PackAndRead` runs
  one after the other.

`dafny verify dfyconfig.toml` checks the whole project.

## Where the code parts from its documentation

* `kalloc` tests `size && (MIN_BLOCK_SIZE-1)` (kernel/heap.c:60), which is true
  for every positive size. It always asks for one unit more than the quotient;
  `KernelBlocksFit` says when that is one too many.
* `newUserThread` and `newKernelThread` leave `wait` at 0 (kernel/thread.c:144,
  194), while kernel/thread.h:25 says -1 stands for "no waiter". A thread that
  exec did not make then wakes slot 0 when it exits. `ExitSafeIff` gives the
  exact condition, `DeadThreadRuns` the run of the kernel as it is, in which a
  freed thread is dispatched. Runs are followed as long as no such exit happens.
* `kernel/switch.S` reads the satp word of the target's context before it
  installs the target's page table, and `kernel/interrupt.S` does not change
  stacks on a trap, so the context of an interrupted user program lies on its
  user stack. The idle thread's page table does not map that address, and other
  programs map it to frames of their own. `ResumesIff` and `ResumesIfVisible`
  give the exact condition for a switch to restore a context: the old page table
  shows the saved satp word. It holds for contexts on kernel stacks
  (`KernelStackIsSeen`) and never for a context on a user stack when the idle
  thread switches to it (`UserStackIsNotSeen`). So of the dispatches of a user
  thread the first one restores its context, which lies on the kernel stack the
  thread was made with, and a later one does not if the thread left from its
  user stack: `SecondDispatchIsBlind` has the run that gets there, and
  `FirstProgram` the address spaces it happens on, which are the ones the kernel
  builds when it starts. `ContextRuns` follows runs whose switches see their
  targets.
* `newUserMapping` maps segments whatever their address and permissions are.
  `ReadThroughTables` says what a program can then do with them: exactly at
  canonical addresses, it can load from a segment that is readable, store to one
  that is readable and writable, and execute one that is executable and, if it
  is writable, readable. Every other access is a page fault.
* `mapFramedAndCopy` copies to the start of the first page whatever the
  segment's address is (kernel/mapping.c:109-127): `PlacedRightIffAligned`. A
  segment without any memory takes a page if it does not start on one
  (kernel/mapping.c:95): `EmptySegment`.
* An inner `//` restarts `lookup` at the root, and a leading one leads nowhere
  (kernel/fs.c:49-53): `DoubleSlash`, `LeadingDoubleSlash`.
* The block count of an empty file wraps around to 2^20 (mkfs/mksfs.c:178):
  `BlocksFieldIff`, `ReadableIff`.
* The frame allocator serves frames up to endPpn-2, because its leaf loop stops
  below `length` (kernel/memory.c:134).
* The comment that a woken reader always finds a character (kernel/stdin.c:30)
  is right for the kernel as it boots, with one spawned thread
  (`BootedReaderFindsACharacter`). In general a reader can be missed from a
  state exactly if two threads are awake there, that is, not asleep in exec, or
  a woken reader already has nothing to read (`MissIff`). With two threads
  spawned at boot one run leads to a woken reader that finds nothing
  (`WokenReaderSleepsAgain`), another to one that does so as the last thread
  awake (`LastReaderIsMissed`); the loop makes it wait again
  (`MissedReaderWaitsAgain`).

## Model

| member | source | states |
|---|---|---|
| Bits.MacroMeansPow2 | kernel/heap.c:15 | the macro's x & (x-1) test holds exactly for powers of two |
| Bits.FixSizeIsCeiling | kernel/heap.c:36-46 | the smearing lines compute the least power of two that is at least the argument |
| Bits.FixSizeOfPow2 | user/malloc.c:62-72 | on a power of two fixSize changes nothing, so testing first makes no difference |
| CompleteTree.StartFormula | kernel/heap.c:165-169 | (index + 1) * nodeSize - size is the first cell of the node's run |
| BuddySpec.RoundedIsPow2 | kernel/heap.c:135-137 | a request is served with the least power of two that holds it |
| BuddySpec.LargestFreeExists | kernel/heap.c:99-104 | the length a node stands for is that of a real aligned free run below it |
| BuddySpec.LargestFreeBound | kernel/heap.c:99-104 | no aligned free run below a node is longer than that length |
| BuddySpec.DescendStep | kernel/heap.c:144-156 | a node with a sufficient run has a half with one, at every level of the descent |
| BuddySpec.ChooseIsFree | kernel/heap.c:144-169 | the smaller-sufficient-half descent ends on a completely free run of the wanted length |
| BuddySpec.ChoosesTighter | kernel/heap.c:144-156 | at every level above it the chosen run lies in the half that can serve the request and, if both can, in the one whose longest free run is shorter, the left one on a tie |
| BuddySpec.AllocateTakes | kernel/heap.c:128-179 | a successful allocation takes an aligned, in-bounds run of unused cells and keeps live blocks disjoint |
| BuddySpec.AllocateThenFree | kernel/heap.c:128-221 | allocating and then freeing through any cell of the new block restores the live blocks |
| BuddySpec.ReleaseIsRemove | kernel/heap.c:190-203 | naming any cell of a live block releases that whole block, though its size is stored nowhere |
| BuddySpec.ReleaseNothing | kernel/heap.c:197-202 | a cell of no live block releases nothing |
| BuddySpec.Merge | kernel/heap.c:206-220 | a node's entry follows from its two children: the buddies merge exactly when both are completely free |
| BuddySpec.RunKeepsOk | kernel/heap.c:128-221 | after any run of calls live blocks are aligned powers of two, in bounds and pairwise disjoint |
| BuddySpec.LiveBlocksApart | kernel/heap.c:158-163 | two live blocks never overlap, and each is aligned to its length |
| Buddy.BuddyTree.constructor | kernel/heap.c:107-122 | the initial array is the canonical one of an empty heap |
| Buddy.BuddyTree.FindNode | kernel/heap.c:144-156 | the descent ends on the node of the chosen run, with its length |
| Buddy.BuddyTree.Alloc | kernel/heap.c:128-179 | returns -1 exactly when no aligned free run of the rounded size exists, else takes one; the array stays canonical |
| Buddy.BuddyTree.MarkUsed | kernel/heap.c:163-176 | the climb to the root makes the array canonical for one more live block |
| Buddy.BuddyTree.Free | kernel/heap.c:185-221 | releases the block that holds the cell and coalesces up to the root; leaves the array unchanged for a cell of no block |
| Buddy.BuddyTree.MarkUnused | kernel/heap.c:203-220 | the merging climb makes the array canonical for one block less |
| Buddy.BuddyTree.Replay | kernel/heap.c:99-221 | after any history of calls the live blocks are those of the specification's run, and the array is the canonical one for them |
| Buddy.SameBlocksSameArray | kernel/heap.c:99-221 | two trees whose histories leave the same blocks live have identical arrays, stale entries included |
| Buddy.ReleasingAllRestores | kernel/heap.c:107-221 | after any history, freeing every block, in any order and through any of its cells, restores the array buddyInit wrote |
| Heap.UserBlocksFit | user/malloc.c:132-133 | malloc asks for exactly the least number of units that hold the bytes |
| Heap.KernelBlocksFit | kernel/heap.c:58-63 | kalloc's && in place of & always adds a unit: enough room always, the least number exactly off multiples of the unit |
| Heap.OthersKept | kernel/heap.c:68-75 | clearing one block leaves the bytes of every other live block alone |
| Heap.ByteHeap.constructor | kernel/heap.c:25-30 | a heap with no live block |
| Heap.ByteHeap.Serve | kernel/heap.c:64-77 | panics exactly if no run is free, else returns a block of at least the asked units and clears exactly its bytes |
| Heap.ByteHeap.Kalloc | kernel/heap.c:53-78 | as Serve, for the unit count kalloc computes; null for sizes that are not positive |
| Heap.ByteHeap.Malloc | user/malloc.c:127-146 | as Serve, for the exact unit count; null for size 0 |
| Heap.ByteHeap.Kfree | kernel/heap.c:84-93 | releases the block holding the address; ignores addresses outside the heap |
| SegmentTree.EntryMeaning | kernel/memory.c:107-113 | every internal entry is 1 exactly if no frame below it is free, though calls rewrite a single path only |
| SegmentTree.Depleted | kernel/memory.c:152-155 | the root is 1 exactly when no frame is free |
| SegmentTree.OnlyManagedFrames | kernel/memory.c:149-199 | over any history of calls only managed frames are free or handed out, if only managed ones are given back |
| SegmentTree.NeverTwice | kernel/memory.c:149-199 | between two calls that hand out the same frame it was given back, so no frame has two owners |
| SegmentTree.FrameTree.constructor | kernel/memory.c:116-143 | exactly frames start .. end-2 are free at first |
| SegmentTree.FrameTree.FillLeaves | kernel/memory.c:128-136 | leaves 1 .. length-1 are free, all other leaves taken |
| SegmentTree.FrameTree.Build | kernel/memory.c:137-140 | every internal node becomes the conjunction of its children |
| SegmentTree.FrameTree.FindFree | kernel/memory.c:157-164 | the descent ends on the leftmost free leaf |
| SegmentTree.FrameTree.Alloc | kernel/memory.c:149-175 | hands out the lowest free frame and takes it alone; panics exactly when none is free |
| SegmentTree.FrameTree.Dealloc | kernel/memory.c:181-199 | frees that frame alone; changes nothing if it was free |
| SegmentTree.FrameTree.SetAndRefresh | kernel/memory.c:167-173 | rewriting one leaf and its path keeps all internal nodes right |
| SegmentTree.FrameTree.Replay | kernel/memory.c:149-199 | after any history of calls the tree has handed out, call by call, the lowest frame free then, and shows the right frames as free |
| SegmentTree.ManagedHistory | kernel/memory.c:116-199 | any history run on a new allocator hands out frames from start to end-2, each the lowest one free, and none that is still in use |
| SegmentTree.TakesUntilEmpty | kernel/memory.c:116-175 | n allocations run on a new allocator hand out start, start+1 and so on up to end-2, and every further one panics |
| PageTable.NextOfTablePte | kernel/mapping.c:55-59 | the frame stored in a table entry by the shift by 10 and the valid bit is the one that & PDE_MASK and << 2 read back |
| PageTable.PteFields | kernel/mapping.c:105-107 | shifts and ors put frame and flags into separate fields of an entry |
| PageTable.LinearPteFields | kernel/mapping.c:82-83 | the 64-bit wrap-around of vpn - KERNEL_PAGE_OFFSET leaves the linear frame and the flags |
| PageTable.AddTableKeepsOk | kernel/mapping.c:53-57 | hanging in a new table keeps the tables a tree of pairwise distinct frames |
| PageTable.AddTableKeepsLookup | kernel/mapping.c:53-57 | creating an intermediate table changes no translation |
| PageTable.MapPageKeepsOk | kernel/mapping.c:82-83 | writing a last-level entry keeps the tree |
| PageTable.MapPageLookup | kernel/mapping.c:82-83 | writing a last-level entry changes the translation of its page number only |
| PageTable.TakePageKeeps | kernel/mapping.c:104-131 | taking and filling a data frame changes no table and no translation |
| PageTable.HardwareAgrees | kernel/mapping.c:41-65 | the walk of section 4.3.2 of the RISC-V Privileged Architecture (20211203), with its reserved bits, finds the entry that findEntry fills in, and faults on the others |
| PageTable.TranslationOf | kernel/mapping.c:41-65 | a virtual address translates through its page's entry if it is canonical (section 4.4.1), and faults if it is not |
| PageTable.CanonicalIsSignExtended | kernel/mapping.c:15-21 | an address is canonical exactly if sign extension of its low 39 bits gives it back (section 4.4.1) |
| PageTable.FieldsOf | kernel/mapping.c:105-107 | the hardware's view of an entry (section 4.4.1) has the frame and permission bits that were written, and no reserved bit |
| Mapping.GetVpnLevels | kernel/mapping.c:15-21 | the three shifts and masks give the indices of the 27-bit page number |
| Mapping.Machine.AllocFrame | kernel/memory.c:33-47 | the lowest free frame, zeroed; nothing else changes |
| Mapping.Machine.FillPage | kernel/mapping.c:108-131 | the page becomes the next bytes of the data, padded with zeros |
| Mapping.AddressSpace.HangTable | kernel/mapping.c:53-57 | a missing table is allocated and linked without changing any translation; a present one is left alone |
| Mapping.AddressSpace.FindEntry | kernel/mapping.c:41-65 | returns the last-level entry of the page number mod 2^27 and changes no translation, whatever tables it creates; it takes one frame for each table that is missing, and fails exactly if fewer are free |
| Mapping.AddressSpace.MapLinearSegment | kernel/mapping.c:71-85 | changes the translation of exactly the segment's pages, to the linear frames; it stops only in front of a page mapped before, or for want of frames, with exactly the pages before that one mapped; how many frames it takes, and exactly when they are too few |
| Mapping.AddressSpace.MapFrame | kernel/mapping.c:97-107 | one turn of both framed loops: the next page gets a fresh zeroed frame, or nothing is mapped and the reason is given |
| Mapping.AddressSpace.MapFramedSegment | kernel/thread.c:150-166 | maps exactly the segment's pages to fresh, distinct, zeroed frames; where it stops earlier, exactly the pages before that point, and it says why; how many frames it takes, and exactly when they are too few |
| Mapping.AddressSpace.MapFramedAndCopy | kernel/mapping.c:90-133 | maps exactly the segment's pages to fresh, distinct frames that hold the data padded with zeros; where it stops earlier, exactly the pages before that point, filled, and it says why; how many frames it takes, and exactly when they are too few |
| Mapping.DepletedIff | kernel/mapping.c:71-133 | a mapping call runs out of frames exactly if the tables missing for its pages up to the first occupied one, and the pages themselves if it gives them frames, are more than the free frames |
| Mapping.CoversIff | kernel/mapping.c:94-95 | the page numbers between the computed bounds are exactly those that have an address of the segment |
| Mapping.EmptySegment | kernel/mapping.c:94-95 | a segment without addresses takes no page if it starts on one, and one page if it does not |
| Mapping.LaidIsItsAddresses | kernel/mapping.c:71-133 | a call that ends normally has mapped exactly the pages that have an address of the segment |
| Mapping.OtherSpaceKept | kernel/mapping.c:27-85 | mapping in one address space leaves the tables and translations of every other one alone |
| KernelSpace.NewMapping | kernel/mapping.c:27-33 | a fresh root in which nothing is mapped |
| KernelSpace.MapSection | kernel/mapping.c:156-194 | each section extends the mapped part of the kernel up to its end |
| KernelSpace.SectionBill | kernel/mapping.c:156-194 | what the sections so far have cost, or that the frames do not suffice for all of them |
| KernelSpace.NeverOccupied | kernel/mapping.c:156-194 | the five segments abut, so none reaches the already-mapped panic |
| KernelSpace.NewKernelMapping | kernel/mapping.c:151-197 | exactly the kernel's pages are mapped, each with its section's permissions; never the already-mapped panic; it runs out of frames exactly if fewer are free than the tables of these pages |
| KernelSpace.KernelTranslation | kernel/mapping.c:151-197 | every kernel address translates to itself minus the linear offset; code is executable, data writable, nothing both, and nothing is a user page |
| KernelSpace.KernelIsClosed | kernel/mapping.c:156-194 | programs can neither fetch, load nor store at a kernel address |
| KernelSpace.DeviceFree | kernel/mapping.c:200-232 | the device pages do not meet the kernel's or each other |
| KernelSpace.MapDevice | kernel/mapping.c:204-231 | one more device page is mapped |
| KernelSpace.MapExtInterruptArea | kernel/mapping.c:200-232 | the four device pages are mapped beside the unchanged kernel, never reaching the panic |
| KernelSpace.DeviceTranslation | kernel/mapping.c:200-232 | the PLIC and UART registers translate linearly, can be read and written by the kernel, not executed, and are closed to programs |
| Loader.ConvertedFlags | kernel/elf.c:13-28 | the entry's permission bits are the segment's, plus valid and user |
| Loader.NewUserMapping | kernel/elf.c:32-65 | on success every LOAD segment's pages hold its file bytes padded with zeros, beside the kernel and nothing else, frames in use keep their bytes, and exactly the missing tables and the pages were taken; it panics only if a segment meets the kernel, an earlier segment or itself, or if the free frames are fewer than the program takes |
| Loader.NewUserSpace | kernel/thread.c:172-181 | the same, with a zeroed user stack on top: nothing is mapped but the kernel, the LOAD segments and the stack |
| Loader.KeptTranslation | kernel/elf.c:36 | kernel addresses translate in a program's address space as they do in the kernel's own |
| Loader.KernelStaysClosed | kernel/elf.c:36 | and so are kernel addresses in a program's own address space |
| Loader.DevicesKeepKernel | kernel/mapping.c:200-232 | the kernel's own pages stay in the address space that also has the device pages |
| Loader.OnlyNext | kernel/elf.c:44-63 | a loaded segment maps its own pages and no others |
| Loader.RunBill | kernel/mapping.c:90-133 | a segment's frames come on top of what was taken before, or they and those are more than were free |
| Loader.StackClash | kernel/thread.c:176-181 | only a LOAD segment can be in the way of the user stack, never the kernel |
| Loader.ReadThroughTables | kernel/elf.c:44-63 | a program can load from, store to or execute an address of a LOAD segment's pages exactly if it is canonical and the segment's flags grant that access (a write permission without read permission grants nothing), and takes a page fault otherwise; the byte there is the loaded one |
| Loader.AlignedSegment | kernel/elf.c:52-62 | chapter 5 of the System V gABI for aligned segments: file byte off + j at vaddr + j, zero from filesz on, with the same exact condition for each access |
| Loader.AlignedIsMapped | kernel/elf.c:52-62 | all pages of an aligned segment's memory are mapped |
| Loader.FoundIsLoaded | kernel/mapping.c:109-127 | what is found at vaddr + j is what the copy from the start of the first page left there |
| Loader.PlacedRightIffAligned | kernel/mapping.c:93-131 | the copy starts at the beginning of a page, so file bytes land at their addresses exactly for page-aligned segments |
| ElfFile.HeaderIs | kernel/elf.h:33-43 | a program header that was written field by field, as chapter 5 of the System V gABI orders them, is read back with these fields |
| ElfFile.HeadersAre | kernel/elf.c:40-50 | so are all headers of a file, with e_phoff at 32 and e_phnum at 56, and its magic number |
| ElfFile.SegmentInPlace | kernel/elf.c:44-63 | every byte of an aligned segment's memory, in terms of the written header, is mapped and open to exactly the accesses that PF_R, PF_W and PF_X allow, and holds the file's bytes and zeros behind them |
| ElfFile.TakesIff | kernel/elf.c:52-62 | the pages that the loader takes for a segment are exactly those of the addresses vaddr to vaddr + memsz |
| ElfFile.ClashCollides | kernel/mapping.c:99-102 | the loader panics only at a page of an address of the segment that is the kernel's or an earlier segment's too, or if the segment goes round the address space |
| ElfFile.OnlyTheProgram | kernel/thread.c:172-181 | nothing is mapped but pages of kernel, segment and stack addresses |
| ElfFile.StackInPlace | kernel/thread.c:176-181 | the 0x80000 bytes of the user stack are zero, can be loaded and stored, and not executed |
| ElfFile.LoadElf | kernel/thread.c:172-181 | the whole result for a file in terms of how it was written: segments and stack in place, the kernel closed, nothing else mapped, and why a load fails |
| Scheduler.LinksAreInverse | kernel/rrscheduler.c:12-27 | next and prev are inverse to each other all round the ring and its dummy head |
| Scheduler.RingFits | kernel/rrscheduler.c:24 | a ring of different threads never has more than MAX_THREAD members |
| Scheduler.PushLinks | kernel/rrscheduler.c:52-59 | the five assignments of a push append to the ring that the links spell out |
| Scheduler.PopLinks | kernel/rrscheduler.c:66-78 | the assignments of a pop take the first element out of it |
| Scheduler.RoundRobin.constructor | kernel/rrscheduler.c:30-38 | an empty ring |
| Scheduler.RoundRobin.LinkLast | kernel/rrscheduler.c:52-59 | which links the push rewrites, and to what |
| Scheduler.RoundRobin.Push | kernel/rrscheduler.c:41-60 | an absent thread goes to the end, with a full slice if it has none; panics exactly on numbers out of range |
| Scheduler.RoundRobin.Pop | kernel/rrscheduler.c:63-80 | takes the first thread, or returns -1 exactly when the ring is empty |
| Scheduler.RoundRobin.Tick | kernel/rrscheduler.c:84-98 | one unit less for the current thread; 1 exactly when its slice is used up or there is none |
| Scheduler.RoundRobin.Exit | kernel/rrscheduler.c:101-109 | forgets the current thread if it is the one that exits |
| Queue.Queue.PushBack | kernel/queue.c:11-26 | appends, over linked nodes whose zeroed next pointer is what ends the list |
| Queue.Queue.PopFront | kernel/queue.c:29-44 | removes and returns the first item, and keeps the rest in order |
| Queue.Queue.IsEmpty | kernel/queue.c:48-56 | 1 exactly if there is no item |
| Kernel.FirstFree | kernel/thread.c:308-318 | the lowest free slot, or -1 exactly when every slot is occupied |
| Processor.Cpu.constructor | kernel/processor.c:19-25 | the boot state |
| Processor.Cpu.AllocTid | kernel/thread.c:308-318 | the first free slot, or -1 |
| Processor.Cpu.AddToPool | kernel/thread.c:321-329 | the code on arrays and links does what the step system's AddToPool says |
| Processor.Cpu.Acquire | kernel/thread.c:332-347 | refines the step system's dispatch; -1 exactly if no thread is ready |
| Processor.Cpu.BackToIdle | kernel/processor.c:112-116 | refines retrieveToPool: free the stack of an exited thread, requeue a running one, leave a sleeping one |
| Processor.Cpu.Wakeup | kernel/processor.c:87-93 | refines the step system's wake-up |
| Processor.Cpu.Yield | kernel/processor.c:71-84 | refines the step system's sleep |
| Processor.Cpu.TimerTick | kernel/processor.c:127-143 | refines the timer step |
| Processor.Cpu.ExitFromCpu | kernel/processor.c:37-51 | refines the exit step |
| Processor.Cpu.ExecuteCpu | kernel/processor.c:149-164 | refines the exec step, with the caller's sleep of kernel/syscall.c:27-35 |
| Processor.Cpu.WaitCondition | kernel/condition.c:11-16 | refines waiting for input |
| Processor.Cpu.NotifyCondition | kernel/condition.c:19-27 | refines waking the first waiter |
| Processor.Cpu.PushChar | kernel/stdin.c:20-25 | refines the arrival of a character |
| Processor.Cpu.PopChar | kernel/stdin.c:32-45 | refines one turn of the reading loop, and returns the oldest character if there is one |
| Processor.Cpu.Continue | kernel/stdin.c:32-45 | where the dispatched thread goes on: in user mode, or in its read, which takes a character or sleeps again |
| Processor.Cpu.RunNext | kernel/processor.c:96-117 | the whole dispatch: take the first ready thread and let it go on |
| Processor.Cpu.SpawnThread | kernel/processor.c:27-31 | addToCPU refines the step system's spawn |
| Processor.Cpu.Perform | kernel/processor.c:27-164 | each event, performed on arrays and links, takes the abstract state to what the step system's Step says |
| Processor.Cpu.PerformAll | kernel/processor.c:27-164 | so a whole run of the code ends in the state that the step system's run ends in |
| Processor.RunFromBoot | kernel/processor.c:19-164 | a whole run of the code from the boot on stands for the run that programs see |
| Processor.PlacesSuffice | kernel/processor.c:96-123 | what these methods ask of their callers holds in every reachable state |
| Places.ExactlyOnePlace | kernel/thread.c:321-385 | an occupied slot is in exactly one of: running, ready ring, input queue, asleep in exec; a free slot in none |
| Lifecycle.BootInv | kernel/thread.c:252-263 | the boot state meets the invariant |
| Lifecycle.QuietEvents | kernel/processor.c:96-143 | dispatches, ticks, characters and reads change no slot's thread and no host |
| Lifecycle.ExecEffect | kernel/processor.c:149-164 | a successful exec starts one new thread in a free slot, bound to wake its caller, which sleeps |
| Lifecycle.ExitFrees | kernel/thread.c:353-361 | an exit frees the exiting thread's slot and kernel stack, and no other |
| Lifecycle.StepKeepsInv | kernel/processor.c:27-164 | every step keeps placement, stacks, the forest of waiting programs and the input invariant, unless an unsafe exit |
| Lifecycle.UnsafeExitBreaks | kernel/processor.c:44-47 | an exit of a thread that exec did not make but that names a waiter always breaks the invariant |
| Lifecycle.ExitSafeIff | kernel/thread.h:25 | so an exit is safe exactly when wait is -1 or was set by exec |
| Runs.RunKeepsInv | kernel/processor.c:27-164 | safety over every run |
| Runs.AllArePushed | kernel/stdin.c:20-25 | every character that arrives in a run is recorded, in order |
| Runs.ReachableStates | kernel/stdin.c:10-45 | in every reachable state each thread is in one place and owns its stack, and the characters delivered and those buffered are the ones that arrived, as the events say, in order |
| Runs.NoLostWakeup | kernel/stdin.c:27-45 | if readers sleep while characters are buffered, a woken reader is on its way |
| Runs.FreedOnlyByExit | kernel/thread.c:357-361 | a kernel stack is given back only by the exit of its own thread, after the CPU has left it |
| Runs.WaitingIsAcyclic | kernel/syscall.c:27-35 | no program waits for itself, however indirectly |
| Runs.WokenByItsChildOnly | kernel/processor.c:44-47 | a host sleeps through every event but the exit of its own program, and is ready right after that |
| Runs.HostSleepsUntilExit | kernel/processor.c:44-47 | in every run a host sleeps from event to event until its own program exits, which makes it ready; nothing before that does |
| Runs.MovesUp | kernel/rrscheduler.c:41-80 | after d dispatches a ready thread has moved up d places, whatever was pushed meanwhile |
| Runs.RunsAfterItsTurn | kernel/rrscheduler.c:41-80 | the thread in place p, below MAX_THREAD, runs after exactly p other dispatches |
| Runs.SliceAfter | kernel/rrscheduler.c:84-98 | a tick uses one unit of a slice that is between 1 and maxTime, so the unsigned decrement never wraps |
| Runs.TicksPerDispatch | kernel/processor.c:127-143 | no more than maxTime ticks hit a thread between two dispatches |
| Runs.OnlyFirstThreadIsUnsafe | kernel/thread.c:280-286 | as the kernel boots, only the exit of the first thread can be unsafe |
| Runs.DeadThreadRuns | kernel/thread.c:194 | with wait left at 0, the first thread's exit wakes its own freed slot, and the next dispatch runs on a freed stack |
| Programs.StepIsNext | kernel/processor.c:27-164 | every step refines one of a machine of running, ready, reading and hosting programs, with their time slices, stacks and characters; starting a program panics exactly when all 64 slots are taken |
| Programs.RunIsNext | kernel/processor.c:27-164 | and every run refines a run |
| Programs.ExecStarts | kernel/syscall.c:27-35 | exec of a file that is found starts it in one formerly free slot, ready, on its stack, and its caller sleeps as its host |
| Programs.ExecOfNothing | kernel/syscall.c:27-35 | exec of a file that is not found changes nothing |
| Programs.SpawnStarts | kernel/processor.c:27-31 | addToCPU starts a thread in one formerly free slot, ready, without a host |
| WokenReaders.KeepsOneAwake | kernel/processor.c:149-164 | once at most one thread is not asleep in exec, that stays so through every event but a spawn |
| WokenReaders.OneReaderNeverMisses | kernel/stdin.c:27-45 | and then in every run a dispatched reader finds a character |
| WokenReaders.BootedReaderFindsACharacter | kernel/thread.c:280-286 | so in the kernel as it boots, with one spawned thread, the comment in popChar is right |
| WokenReaders.ComesToRest | kernel/stdin.c:27-45 | from every state, dispatching and reading leads to one in which all threads awake wait for input and no character is left |
| WokenReaders.TwoAwakeCanMiss | kernel/stdin.c:27-45 | from every state with two threads awake a run without spawns leads to a woken reader that finds nothing |
| WokenReaders.MissIff | kernel/stdin.c:27-45 | from any state a reader can be missed exactly if two threads are awake or a woken reader has nothing to read |
| WokenReaders.UnfedIsMissed | kernel/stdin.c:27-45 | with one thread awake, a woken reader with nothing to read is the one that runs next |
| WokenReaders.MissedReaderWaitsAgain | kernel/stdin.c:27-45 | a reader that finds nothing goes back to the end of the waiting queue, which is what the loop is for |
| WokenReaders.ReadsAndExits | kernel/stdin.c:27-45 | from every state in which one thread runs and one waits, the first can take the character that wakes the second, and exit |
| WokenReaders.WokenReaderSleepsAgain | kernel/stdin.c:30 | a run from the boot state, with two spawned threads, in which a woken reader finds nothing |
| WokenReaders.LastReaderIsMissed | kernel/stdin.c:30 | a run from the boot state after which one thread is awake and finds nothing |
| Context.FrameHolds | kernel/switch.S:8-24 | the stores leave exactly the registers in the context, and nothing else changed |
| Context.ContextIsBelowSp | kernel/switch.S:8-46 | a switch leaves ra, satp and s0 to s11 in the fourteen words below sp, and loads sp from behind the target's fourteen words |
| Context.ResumesIff | kernel/switch.S:26-43 | a switch restores a saved context exactly if and only if the old page table shows its satp word, which is read before satp is replaced |
| Context.UserStackIsLost | kernel/switch.S:26-28 | no context on a user stack is restored by a switch on the idle thread's page table, whatever the context holds |
| Context.KernelStackIsVisible | kernel/thread.c:18-24 | a context on a kernel stack lies at the same physical words in every address space that has the kernel |
| Context.UserStackIsHidden | kernel/thread.c:172-181 | no address of a user stack translates through the page table the idle thread runs on |
| Context.MappingCallKeeps | kernel/mapping.c:41-133 | a mapping call in one address space leaves its mapped words where they are |
| Context.MappingCallKeepsOthers | kernel/mapping.c:41-133 | and those of every other address space too |
| Context.Hart.Save | kernel/switch.S:8-24 | ra, s0 to s11 and satp go to their words, satp by way of s11 |
| Context.Hart.Restore | kernel/switch.S:26-46 | the registers come from the target's context and its slot is cleared |
| Context.Hart.SwitchContext | kernel/switch.S:8-46 | both halves together |
| ContextRuns.LoadsWhatWasSaved | kernel/processor.c:103-116 | a switch to an owner loads exactly what was last saved for it |
| ContextRuns.ResumesIfVisible | kernel/switch.S:26-43 | a switch between owners restores what its target saved exactly if the old page table shows the saved satp word |
| ContextRuns.KernelStackIsSeen | kernel/thread.c:45-85 | a context on a kernel stack is seen from every address space that has the kernel, as at a thread's first dispatch |
| ContextRuns.UserStackIsNotSeen | kernel/processor.c:103-110 | a dispatch from the idle thread's page table never sees a context on a user stack |
| ContextRuns.SwitchKeeps | kernel/processor.c:103-116 | a switch consumes one context, adds one and keeps all others intact |
| ContextRuns.MappingCallIsReady | kernel/mapping.c:41-133 | the tables that a mapping call leaves are such new tables, if every address space in use is the one it is made in or shares no table with it |
| ContextRuns.TablesKeep | kernel/mapping.c:41-133 | new tables that keep what is mapped where it is leave every saved context intact |
| ContextRuns.StepKeepsOk | kernel/thread.c:45-85 | creation, work that keeps out of the others' stacks, mapping calls, dispatch, leaving and exit keep every saved context intact; no load misses memory |
| ContextRuns.RunKeepsOk | kernel/processor.c:96-123 | the same over every run |
| ContextRuns.EveryLoadUndoesASave | kernel/switch.S:8-46 | in every run each load gives back exactly the registers and address of that owner's last save, each save being used once |
| ContextRuns.DispatchResumes | kernel/processor.c:103-110 | a dispatched thread goes on with the sp, ra, satp and s registers it left with |
| ContextRuns.HeldOnRun | kernel/processor.c:96-116 | a saved context stays the last thing known of its thread until the thread is dispatched, whatever else happens |
| ContextRuns.FirstDispatch | kernel/thread.c:45-112 | the first dispatch of a thread, whatever happened since it was made, goes to the entry it was made with, with sp at its trap frame of 34 words and in its own address space |
| ContextRuns.StaleAddressIsNotLoaded | kernel/thread.c:363-365 | the address left in the pool while its thread runs is never loaded, and is replaced when the thread leaves |
| UserStacks.BootStarts | kernel/processor.c:53-68 | the boot code's switch to the idle thread restores the context that was made for it |
| UserStacks.ProgramStarts | kernel/processor.c:103-110 | the first dispatch of the program restores the context on its kernel stack, in its own address space |
| UserStacks.ProgramLeaves | kernel/processor.c:112-116 | leaving from the user stack restores the idle thread, and leaves the program's context on that stack |
| UserStacks.SecondDispatchIsBlind | kernel/switch.S:26-28 | a run from the boot code to a dispatch that is made and does not see the program's context |
| UserStacks.IdleStays | kernel/mapping.c:236-242 | what is built from free frames leaves the idle thread's address space as it was |
| UserStacks.FirstProgram | kernel/thread.c:252-286 | the address spaces that mapKernel and initThread build are ones on which that run happens |
| SimpleFs.InodeRoundTrip | mkfs/mksfs.c:244-249 | the bytes copyInodeToBlock writes read back as the same inode |
| SimpleFs.SuperRoundTrip | mkfs/mksfs.c:82-86 | the superblock's bytes read back as the same fields |
| SimpleFs.CStringOf | mkfs/mksfs.c:150-153 | a name copied with a NUL after it compares equal to itself, whatever the field held before |
| SimpleFs.BlocksFieldIff | mkfs/mksfs.c:178 | (size - 1) / BLOCK_SIZE + 1 in 32 bits is the number of blocks exactly if the file is not empty |
| FsTree.StoredKept | mkfs/mksfs.c:121-227 | what an image stores for a tree depends on the blocks of that tree alone |
| FsTree.StoredSize | mkfs/mksfs.c:121-227 | a stored tree takes exactly the blocks it needs: inodes, data, and an index block from 13 entries on |
| ImageFormat.ImageBytes | kernel/fs.h:13-20 | the superblock's words at bytes 0, 4, 8 and 12 of a packed image, and the bits of its freemap |
| ImageFormat.FileBytes | kernel/fs.h:24-33 | a stored file's inode byte by byte: size, type 0, name, block count, and its blocks in order, direct and indirect |
| ImageFormat.DirBytes | kernel/fs.h:24-33 | a stored directory's inode byte by byte: size 0, type 1, name, entry count, itself, its parent and its files in order |
| Packer.Packer.constructor | mkfs/mksfs.c:51-57 | superblock, freemap and root inode are taken, and freenum says so |
| Packer.Packer.GetFreeBlock | mkfs/mksfs.c:229-242 | the lowest free block, now taken; fails exactly when freenum is 0; freenum plus used blocks stays 256 |
| Packer.Packer.CopyInodeToBlock | mkfs/mksfs.c:244-249 | the block starts with the inode; other blocks keep their bytes |
| Packer.Packer.Link | mkfs/mksfs.c:212-222 | entry i becomes the block, direct or through an index block made when first needed; earlier entries stay |
| Packer.Packer.WritePiece | mkfs/mksfs.c:187-193 | a fresh block holds the next piece of the file |
| Packer.Packer.LinkPiece | mkfs/mksfs.c:195-205 | the piece's block becomes the next entry of the file's inode, and nothing stored before changes |
| Packer.Packer.CopyPiece | mkfs/mksfs.c:186-205 | one more piece is in place and listed in the inode |
| Packer.Packer.CopyBytes | mkfs/mksfs.c:182-206 | the whole file is in place, in blocks used for nothing else; fails only if it does not fit |
| Packer.Packer.PackFile | mkfs/mksfs.c:163-207 | succeeds exactly if the file fits; then the image stores it, in freshly taken blocks with one role each |
| Packer.Packer.PackDir | mkfs/mksfs.c:144-162 | succeeds exactly if the directory fits; then the image stores all of it |
| Packer.Packer.LinkKid | mkfs/mksfs.c:212-222 | the kid's block becomes the directory's next entry, and every kid packed before is still stored |
| Packer.Packer.PackKid | mkfs/mksfs.c:134-224 | one more file or directory is stored and listed, exactly if it fits |
| Packer.Packer.PackKids | mkfs/mksfs.c:134-224 | every kid is stored and listed, in order, after the entries for the directory itself and its parent |
| Packer.Packer.Walk | mkfs/mksfs.c:121-227 | fills in the directory's inode, and packs everything below it exactly if it fits |
| Packer.Packer.EmitFreemap | mkfs/mksfs.c:88-100 | bit b of the emitted map is set exactly if block b is used |
| Packer.Packer.EmitHead | mkfs/mksfs.c:80-103 | superblock, freemap and root inode complete the image of the tree |
| Packer.Packer.EmitSuper | mkfs/mksfs.c:59-86 | the superblock's fields read back as written, unusedBlocks being freenum, and its info text is the packer's |
| Packer.Packer.Pack | mkfs/mksfs.c:48-109 | succeeds exactly if the tree needs at most 254 blocks; then the image stores it, each used block has one role, freemap and unusedBlocks decode to just that, and the info text is the packer's |
| Reader.FileSystem.InitFs | kernel/fs.c:28-38 | the root inode's block comes right after the freemap |
| Reader.FileSystem.FindEntry | kernel/fs.c:81-112 | the direct and indirect searches together find the first entry of that name |
| Reader.FileSystem.NextComponent | kernel/fs.c:60-71 | splits off the path up to the first slash |
| Reader.FileSystem.LookupInode | kernel/fs.c:46-113 | computes Reader.Lookup, the function that LookupRefines is about |
| Reader.FileSystem.CopyByteToBuf | kernel/fs.c:115-123 | copies exactly those bytes |
| Reader.FileSystem.ReadAll | kernel/fs.c:125-171 | fills the buffer with the inode's blocks up to its size and no further, also when the block count of an empty file has wrapped around; refuses directories |
| Reader.GatherSplit | kernel/fs.c:149-170 | reading direct blocks and then indirect ones is reading them all in order |
| Paths.LookupRefines | kernel/fs.c:46-113 | on a packed image lookup is path resolution on the packed tree, for every path string and starting place |
| Paths.LookupFromNull | kernel/fs.c:54-55 | a null inode stands for the root |
| Paths.StandardPath | kernel/fs.c:40-45 | for paths of non-empty components: . stays, .. goes to the parent (the root to itself), null exactly when a component is missing or applied to a file |
| Paths.CleanPath | kernel/fs.c:60-71 | the same with any rest of a path behind it |
| Paths.DoubleSlash | kernel/fs.c:49-53 | an inner // starts again at the root once what precedes it was found |
| Paths.LeadingDoubleSlash | kernel/fs.c:49-53 | a path that starts with // is never found |
| Paths.DoubleSlashDiffers | kernel/fs.c:49-53 | so a//b and a/b can differ |
| Paths.GatherIsBytes | kernel/fs.c:132-170 | the blocks of a stored file are its bytes, in the direct and the indirect case |
| Paths.ContentsOfFile | kernel/fs.c:125-171 | the blocks of every stored file, empty ones too, are its bytes up to its size |
| Paths.ReadableIff | mkfs/mksfs.c:178 | a stored file's block count stays within an inode's range exactly if the file is not empty |
| Paths.RoundTrip | kernel/fs.c:46-171 | for every tree, packing it, looking up any file's absolute path and reading what its inode lists yields that file's size and bytes, empty files included |
| PackAndRead.ReadBack | kernel/fs.c:28-171 | on a packed image, starting the file system, looking up any file's path and reading it into a buffer of its size gives the file's bytes |
| PackAndRead.BinSh | kernel/thread.c:281-283 | on a packed image with a file sh in a directory bin, looking up /bin/sh finds that file and its bytes |
| PackAndRead.PackAndRead | mkfs/mksfs.c:48-109 | for every tree that fits, and every file in it, empty ones too, packing and reading back give the file's bytes |

## Left out

- Hardware effects: SBI calls, console output, PLIC, UART and timer registers, other control registers, TLB flushes and memory ordering. A timer tick and the arrival of a character are events.
- The accessed and dirty bits of page-table entries, address-space identifiers, the checks of section 4.3.2 that depend on the privilege mode and the kind of access, and modes of satp other than Sv39: a `Leaf` is what those checks would be made on, and its permission bits are stated.
- `kernel/entry.S`, the boot page table and the trap entry and exit code: straight-line register moves.
- What user programs compute, `sys_write`, `printf` and the string routines, the shell and the sample programs.
- Physical memory is addressed by frame, not through the kernel's linear window; `KernelTranslation` is what makes that the same.
- The step system names kernel stacks instead of taking them from the heap model, does not run the loader or `lookup` inside exec (whether the file is found is part of the event), and does not hold contexts; `ContextRuns` has those, and leaves out scheduling.
- Queue nodes and stacks are assumed to be available: running out of heap or frames inside exec and `pushBack` is a panic that is not modelled. The return of queue nodes to the heap is not modelled.
- Page-table frames and data frames of an exited program are never given back by the kernel, and nothing is claimed about them.
- Runs stop at a panic.
- Loader.NewUserMapping: asks that the program headers and the segments' bytes lie inside the bytes it is given, which the kernel does not check against the file's size; the bytes may be taken to go on behind the file. The linker's section bounds are taken to be ordered and page-aligned.
- Loader.NewUserSpace: asks the same as `NewUserMapping`.
- Scheduler.RoundRobin.Push: asks for a thread that is not in the ring already; `schedulerPush` does not test that, and would break the ring. `PlacesSuffice` shows that the kernel never does it.
- Queue.Queue.PopFront: the removed node is not given back to the heap model.
- Processor.Cpu.BackToIdle: the stack of an exited thread leaves the set of stacks in use; it is not given back to the heap model.
- Processor.Cpu.ExecuteCpu: starts after `lookup` and `newUserThread`, which other modules are about.
- ContextRuns.EveryLoadUndoesASave: is about runs whose switches see their targets; `ResumesIfVisible` says exactly which do, and what follows a switch that does not is not modelled.
- ContextRuns.DispatchResumes: the same.
- Words in `Context` and `ContextRuns` are mapped whole by the page that holds their first byte, and a word that is readable but not writable does not count as mapped; code outside `switch.S` is given only by what it may change. The words of stacks are kept apart from the frames of page tables.
- UserStacks.FirstProgram: the three kernel stacks of its run lie in the kernel's first data page, where the heap model does not put them; only their being in the kernel's data matters.
- Heap.ByteHeap.Kalloc: integer widths are not modelled beyond the range of the block count, which every int meets with the 64-byte units of kalloc.
- Heap.ByteHeap.Malloc: the same, with the 32-byte units of malloc and uint32.
- The packer's use of the host: opendir, readdir, stat and fread are the input tree, whose kids come in any order; entries that are neither files nor directories do not appear in it. Names of more than 31 bytes, which the packer would write past the filename field, are excluded, and so are the buffers in which it builds host paths.
- The packer's local inodes start with arbitrary contents except for `indirect`, which is taken to start as 0: the code tests it for 0 without setting it.
- The image is an array of blocks, and inodes are passed to and from `walk` by value.
- Reader.FileSystem.ReadAll: asks for a block count that an inode can name, or for a size that such blocks hold, so that what lies behind the index block is never used. Memory beyond the image reads as zeros in the model.
- How well the buddy search fits: it compares the longest free runs of two halves and is no best-fit policy.
- RRInfo.valid, which the scheduler writes and never reads.
