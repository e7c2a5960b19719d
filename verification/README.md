# A verified model of the kernel's memory management, scheduler and path resolution

The project models the core of a small x86-64 kernel in Dafny and proves what that core is for:

- **Memory.** The bit-packed frame allocator, the four-level page tables built from its frames, the
  page hook of the heap, and the kernel heap (`kmalloc`, `kfree`, `krealloc`) on top. Each layer is shown
  to agree with a simpler object: a set of used frames, one page map per address space, a table of heap
  pages, a collection of independent byte buffers. Loading the segments of an executable is proved
  down to the byte that a program reads through the page tables.
- **Scheduling.** Ring-buffer run queues, tick, yield, exit, thread creation, reaping, stealing and
  pairwise balancing on any number of CPUs, as one step per handler for where threads are, with whatever a
  tryLock may find, and as one step per compare-and-swap for who waits for whom.
- **Paths.** Splitting, the choice of a mount point, and resolution below it.

`dafny verify dfyconfig.toml` checks everything.

## How it is laid out

| file | models |
|---|---|
| `Common.dfy`, `FirstFit.dfy` | shared definitions, and the left-to-right search shared by three allocators |
| `Physical.dfy` | the frame bitmap |
| `PmlWord.dfy`, `Addresses.dfy` | page-table entries and addresses as 64-bit words, and the numbers they stand for |
| `PageTables.dfy`, `Boot.dfy`, `Mmu.dfy` | page tables as values, the ones the kernel boots with, and the code that writes them in place |
| `PageMaps.dfy` | runs of maps and unmaps over any number of spaces |
| `AddressSpace.dfy`, `Lifetime.dfy`, `Ranges.dfy` | searching for free pages, the life of a space, ranges of pages in either half |
| `Elf.dfy` | the segment loop of the executable loader |
| `HeapPages.dfy` | the heap's page hook |
| `HeapShape.dfy`, `LibAlloc.dfy`, `HeapRuns.dfy` | the heap: its lists, its operations, its runs |
| `Mem.dfy`, `Queue.dfy`, `QueueRuns.dfy`, `Balance.dfy` | memory moves, the ring buffer and its runs, balancing |
| `Picking.dfy` | the loop that pops threads from a run queue |
| `Scheduling.dfy`, `Scheduler.dfy`, `Handlers.dfy`, `Processors.dfy` | thread placement, whole runs, what each step does, and the handlers that refine the steps |
| `OneProcessor.dfy`, `TwoActors.dfy`, `IdleRace.dfy` | the scheduler on one CPU, and what can go wrong on several |
| `Locks.dfy`, `LockProgram.dfy` | the queue locks, and the order in which each handler takes and drops them |
| `Paths.dfy`, `Mounts.dfy` | path components, mounts and resolution |

The page tables carry a ghost map that gives each table and each owned data frame the one place it
hangs from. That is what rules out aliasing, and it is what `destroyAddressSpace` follows. The heap
carries a ghost list of regions with their chunks; the C structs are maps keyed by address that
must represent it. A panic or a failed assert of the source is a result (`None`, `false`, `Panic`,
`AssertFails`), and so is a loop that never ends (`LoopsForever`); the contracts say when they happen.

The steps of the scheduler take a handler together with its switchNext as one step, in which no other CPU
acts. Other CPUs do matter to a step through the locks it tries for: each event carries the set of run queues
that are held and whether the balance lock is, and the results hold for all of them unless they say otherwise.

## What the proofs found

- **Bitmap after a space dies.** Destroying an address space gives the frame bitmap back byte for byte
  exactly when no operation mapped a page that was mapped at that time; `mapPage` only logs that case and
  the frame mapped over stays in use (`Lifetime.Live`).
- **Virtual search.** `findFreePages` does not reset its inner indices, so it scans the remainder of the
  first page directory and no other, passing over large pages: it finds the least run there, or ends in
  "Out of virtual memory" (`AddressSpace.FindFreePages`).
- **Tables the program cannot pass.** `mapPage` links new tables for the program only below address
  0x400000000000, half of its own half, and `findFreePages` never does. So the pages that `getFreePages` finds for a
  program are within its reach exactly where their tables were there before (`Lifetime.GetUserPages`); an executable
  that lies below that address and is loaded into a new space is within its reach altogether, to be written exactly
  where its segments say so (`Elf.LoadExecutable`).
- **Copying upwards.** `memcpy` onto memory that begins inside its source repeats the bytes before it, and
  is a move exactly when the source repeats them already (`Mem.UpIsMove`).
- **Frames above 2 GiB.** `UNSHIFT` acts on a bit-field that promotes to `int`; it is right exactly for
  frames below 2^19 (`PmlWord.UnshiftExact`).
- **Idle threads.** A tick queues the idle thread like any other, so it can be balanced away or stolen, and
  a CPU that fails its tryLocks runs its idle thread although that is queued elsewhere. The assert of
  `switchTo` fails exactly when a thread exits, its CPU gets hold of no queue that is not empty, and
  another CPU is running its idle thread (`Scheduler.FailsExactly`). The pop loop of `switchNext` never
  ends exactly when the queue taken holds only idle threads that are running (`Scheduler.LoopsExactly`).
  Both are reachable from the initial state, with every destroyer thread alive, exactly on two CPUs or
  more, also when each held queue must belong to the CPU of the event just before (`IdleRace.FailsOnSeveral`). When no tryLock on a run queue fails, no run fails on any number of
  CPUs (`Scheduler.CalmRunsComplete`).
- **Locks in thread context.** `addThread` and the destroyer take a queue lock with interrupts on, the destroyer
  even that of another CPU once it has moved. A tick
  that arrives meanwhile makes the CPU wait for itself. A cycle of waits is reachable exactly because of
  that (`Locks.DeadlockExactly`).
- **Ring buffer.** `push` on a full queue and `replaceAll` on a full queue are right exactly when the front
  is in slot 0; otherwise the new element takes the place of the front and the wrapped part is lost
  (`Queue.Queue.Push`, `Queue.Queue.ReplaceAll`). A queue that never holds more elements than it has slots
  is always a sequence (`QueueRuns.Run`, `QueueRuns.WithinIsSafe`).
- **Slices of paths.** Cutting the mount's characters off agrees with dropping its components exactly when
  the mount's path begins the path as a string, which a doubled slash spoils (`Paths.SliceDrops`,
  `Mounts.DoubledSlashMisses`). When `findEntry` fails, the directory it was asked stays open
  (`Mounts.LeftOpenExactly`).
- **Segment addresses.** A segment's bytes appear from the start of its first page on, whatever
  `p_vaddr` is; that is `p_vaddr` itself exactly for page-aligned segments (`Elf.LoadSegment`).

## Model

| member | source | states |
|---|---|---|
| `Physical.FrameBitmap.SetUsed` | src/kernel/memory/physical.cpp:79-85 | the set of used frames grows by exactly the given run |
| `Physical.FrameBitmap.SetFree` | src/kernel/memory/physical.cpp:88-94 | the set of used frames shrinks by exactly the given run |
| `Physical.MaskIsShift` | src/kernel/memory/physical.cpp:83-98 | a frame's bit is 0b10000000 shifted right by its place in the byte |
| `Physical.BitUpdates` | src/kernel/memory/physical.cpp:79-99 | setting or clearing one bit of one byte adds or removes one frame and no other |
| `Physical.FrameBitmap.FindFreePages` | src/kernel/memory/physical.cpp:101-132 | the least aligned start of a free run of `count` frames; the panic happens exactly when there is none |
| `Physical.FrameBitmap.GetFreePages` | src/kernel/memory/physical.cpp:134-141 | that run was free and is exactly what becomes used |
| `Physical.FrameBitmap.FreePages` | src/kernel/memory/physical.cpp:143-147 | exactly the given run becomes free |
| `Physical.FrameBitmap.GetThenFree` | src/kernel/memory/physical.cpp:134-147 | allocating and freeing restores every byte of the bitmap |
| `Physical.UsedFramesDetermineBytes` | src/kernel/memory/physical.cpp:96-99 | the abstract set determines the bytes |
| `PmlWord.WordFields` | src/include/memory.h:25-45 | reading the fields of a packed word gives back what was packed |
| `PmlWord.TableWord` | src/kernel/memory/virtual.cpp:34-39 | the word stored for a new table has exactly the fields of a present, writable link |
| `PmlWord.PageWord` | src/kernel/memory/virtual.cpp:24-69 | the word stored for a page has exactly the frame and the flags asked for, whatever the low address bits were |
| `PmlWord.ClearPresent` | src/kernel/memory/virtual.cpp:105-111 | clearing the present bit leaves all other fields |
| `PmlWord.UnshiftExact` | src/kernel/memory/virtual.cpp:111-111 | shifting the address field back is exact if and only if the frame is below 2^19 |
| `PmlWord.PackExtracts` | src/kernel/memory/virtual.cpp:207-213 | the four indices packed into a canonical address come out of the walk's extraction again |
| `PmlWord.ExtractPacks` | src/include/memory.h:69-72 | packing the extracted indices gives back every page-aligned canonical address |
| `Addresses.NineBits` | src/kernel/memory/virtual.cpp:32-60 | shifting and masking by nine bits is quotient and remainder by 512 of the word's value |
| `Addresses.WalkIndices` | src/kernel/memory/virtual.cpp:307-310 | the walk's shifts and masks of an address compute the indices of its page number |
| `Addresses.FoundAddress` | src/kernel/memory/virtual.cpp:207-213 | the address built from the indices of a page is the canonical, aligned address of that page |
| `Boot.BootWellFormed` | src/kernel/boot.asm:150-171 | the tables that the boot code builds, large pages included, are a forest with single parents |
| `Boot.BootPages` | src/kernel/boot.asm:207-250 | at boot nothing is mapped by 4 KiB pages, and large pages lie exactly in the 512 GiB from 0xFFFF800000000000 and the 1 GiB from 0xFFFFFFFF80000000 |
| `Boot.BootMaps` | src/kernel/boot.asm:156-250 | the window and the image map each of their pages to the physical address as far into memory |
| `PageTables.SlotInjective` | src/kernel/memory/virtual.cpp:312-330 | two walks that end in one entry have the same indices, and the same tables unless they meet in a shared upper half |
| `PageTables.SameSlot` | src/kernel/memory/virtual.cpp:312-330 | two spaces use one entry for two pages if and only if the pages are equal and the paths are shared |
| `PageTables.LinkKeepsWalk` | src/kernel/memory/virtual.cpp:34-57 | installing an empty table changes no translation of any space |
| `PageTables.LinkDoors` | src/kernel/memory/virtual.cpp:34-57 | a new table leaves complete walks as open to the program as they were; a walk completed by it is open only if it was linked for the program |
| `PageTables.WriteUpdatesOnePage` | src/kernel/memory/virtual.cpp:59-69 | writing a level-1 entry changes that page for the spaces on the same path and nothing else |
| `PageTables.LowerIsClear` | src/kernel/memory/virtual.cpp:312-330 | no large page lies on a walk in a lower half |
| `PageTables.CreateKeepsWellFormed` | src/kernel/memory/virtual.cpp:251-260 | copying the kernel's upper half keeps the tables a forest with single parents |
| `PageTables.CreateTranslations` | src/kernel/memory/virtual.cpp:251-260 | a new space translates the upper half as the kernel and nothing below |
| `PageTables.SpaceIsBelowRoot` | src/kernel/memory/virtual.cpp:263-298 | what hangs below the 256 lower entries of the root is exactly the space's own frames |
| `Mmu.Mmu.MapPage` | src/kernel/memory/virtual.cpp:22-73 | where no large page lies, one page of one space (and of those sharing its path) gets the entry; all other translations, data and ownership stay; it panics only without frames; the program's way to the page stays open exactly below 0x400000000000 or where its tables were there |
| `Mmu.Mmu.UnmapPage` | src/kernel/memory/virtual.cpp:76-112 | where no large page lies, returns the mapped frame and removes that page only; panics exactly on an unmapped page |
| `Mmu.Mmu.GetPage` | src/kernel/memory/virtual.cpp:300-331 | agrees with the abstract page map, null results for absent and for large pages included |
| `Mmu.Mmu.TableFor` | src/kernel/memory/virtual.cpp:32-60 | the table of a page after installing up to three empty ones; they are linked for the program below level-4 index 128 and for the kernel above; nothing else changes and the used frames grow by the tables |
| `Mmu.Mmu.CreateAddressSpace` | src/kernel/memory/virtual.cpp:251-260 | one new frame; the lower half is empty, the upper half is the kernel's, and slots present now are shared |
| `Mmu.Mmu.FreeBelow` | src/kernel/memory/virtual.cpp:265-295 | frees exactly the frames below a table, each one in use when its turn comes |
| `Mmu.Mmu.DestroyAddressSpace` | src/kernel/memory/virtual.cpp:263-298 | frees exactly the frames of the space, and the other spaces stay well formed |
| `PageMaps.Run` | src/kernel/memory/virtual.cpp:22-112 | any run of maps and unmaps over any spaces yields what the last operation seen by each page says; a failure is an empty bitmap or an unmap of an unmapped page |
| `PageMaps.LowerIsPrivate` | src/kernel/memory/virtual.cpp:22-112 | no run in other spaces changes a lower-half page |
| `PageMaps.SharedIsShared` | src/kernel/memory/virtual.cpp:251-260 | spaces that share a level-4 slot see the same pages under it after any run |
| `AddressSpace.PageNumberIndices` | src/kernel/memory/virtual.cpp:207-207 | the page number built from four indices has these indices |
| `AddressSpace.ScanTable` | src/kernel/memory/virtual.cpp:198-216 | scanning 512 entries extends the leftmost-run search by exactly those pages |
| `AddressSpace.FindFreePages` | src/kernel/memory/virtual.cpp:114-222 | no translation changes; for a program the result is the least unmapped run between addresses 0x400000 and 0x40000000, 0x400000 itself if that is free; for the kernel the least free run of the first GiB from 0xFFFF808000000000 on that is not one large page; the panic means there is none; tables are linked for the kernel |
| `AddressSpace.SearchAddresses` | src/kernel/memory/virtual.cpp:114-143 | the slots where the two searches start and end, as addresses |
| `Lifetime.GetUserPages` | src/kernel/memory/virtual.cpp:335-349 | for user pages, the least run gets distinct new frames owned by the space, one a page, and nothing else changes; the program reaches a page exactly if its tables were there before and open |
| `Lifetime.AllocSpace` | src/kernel/memory/virtual.cpp:351-364 | the range maps to one contiguous run of new frames, all other pages and all data stay |
| `Lifetime.ReleasePages` | src/kernel/memory/virtual.cpp:366-376 | unmaps and frees the range; succeeds exactly when every page is mapped |
| `Lifetime.Step` | src/kernel/memory/virtual.cpp:335-376 | for mapping, getFreePages, allocSpace and releasePages, which pages each maps or unmaps, and with which flags; a frame leaves the accounts exactly when a mapped page is mapped over; why each may panic |
| `Lifetime.Live` | src/kernel/memory/virtual.cpp:251-298 | creation, any script of these operations, destruction: the bitmap is restored byte for byte if and only if nothing was mapped over |
| `Lifetime.MapTwiceOverlaps` | src/kernel/memory/virtual.cpp:61-69 | one page mapped twice is a script that does not restore the bitmap |
| `Ranges.GetPages` | src/kernel/memory/virtual.cpp:335-349 | in either half, the least free run gets distinct new frames, the only other frames taken are tables, other spaces see the pages only on shared paths, and the panic means the directory searched has no run |
| `Ranges.ReleaseRange` | src/kernel/memory/virtual.cpp:366-376 | in either half, unmaps the range and frees exactly its frames; succeeds exactly when every page is mapped |
| `Ranges.GetThenRelease` | src/kernel/memory/virtual.cpp:335-376 | pages obtained and released leave every translation as before and no frame in use but tables |
| `Elf.Store` | src/kernel/scheduler/elf.cpp:251-254 | bytes written through the physical window land there, and no translation or ownership changes |
| `Elf.ZeroFill` | src/kernel/lib/mem.cpp:27-49 | the word loop and the byte loop together zero exactly the range |
| `Elf.LoadSegment` | src/kernel/scheduler/elf.cpp:240-256 | file bytes then zeros are read through the page tables from the first page on, on user pages that are writable exactly if the segment is and have no other flag; every other page reads as before; failure causes are exact |
| `Elf.LoadExecutable` | src/kernel/scheduler/elf.cpp:238-257 | on every page the last segment decides; page-aligned, page-disjoint segments are all read back at their addresses; flags follow the last segment, and segments below 0x400000000000 stay within the program's reach |
| `HeapPages.HeapAtBoot` | src/kernel/memory/heap.cpp:16-20 | at boot the heap's pages are unmapped and clear of large pages, as the hook needs them |
| `HeapPages.PageHook.Alloc` | src/kernel/memory/heap.cpp:52-74 | the leftmost run of free heap pages gets new frames; its last page the lowest; NULL exactly without a run; table and page tables keep agreeing |
| `HeapPages.PageHook.Free` | src/kernel/memory/heap.cpp:76-86 | exactly the given pages lose entry, mapping and frame |
| `HeapPages.PageHook.AllocThenFree` | src/kernel/memory/heap.cpp:52-86 | table, heap mappings and data frames are as before |
| `HeapShape.GapAtMostFree` | src/kernel/memory/liballoc.c:330-372 | no gap of a region exceeds its size minus its usage |
| `HeapShape.TooFull` | src/kernel/memory/liballoc.c:341-372 | the skip of case 1 never skips a region with room |
| `HeapShape.InsertedShape` | src/kernel/memory/liballoc.c:376-539 | linking a new minor keeps order, disjointness, both link directions and the usage |
| `HeapShape.RemovedShape` | src/kernel/memory/liballoc.c:671-684 | unlinking a minor keeps them too |
| `HeapShape.ChunksApart` | src/kernel/memory/liballoc.c:241-584 | any two minors of any majors share no byte |
| `LibAlloc.PointerInChunk` | src/kernel/memory/liballoc.c:20-44 | a pointer is 16-aligned, its bytes and shift byte are in its own minor, and UNALIGN recovers the payload |
| `LibAlloc.PagesNeeded` | src/kernel/memory/liballoc.c:190-203 | the least number of pages, from 16 on, that holds the request and both headers |
| `LibAlloc.Heap.Grow` | src/kernel/memory/liballoc.c:185-236 | a new last major with room for the request, or NULL exactly as the hook says |
| `LibAlloc.Heap.Place` | src/kernel/memory/liballoc.c:376-539 | places the request in the major, or proves that no gap of it can hold it |
| `LibAlloc.Heap.Search` | src/kernel/memory/liballoc.c:313-568 | the search ends, restarts included, and makes a block only when no gap in any major fits |
| `LibAlloc.Heap.Kmalloc` | src/kernel/memory/liballoc.c:241-584 | a new chunk of the size asked for, no live byte changed, the heap consistent; the chunk goes into the first gap of the first block with room, looking from the best bet on if that has enough free bytes in all and else from the root, and into a new block only when nothing fits; the best bet afterwards is the roomiest block looked at; NULL only when the hook has no run |
| `LibAlloc.Heap.Kfree` | src/kernel/memory/liballoc.c:594-717 | exactly that chunk dies; an empty major is given back and is no best bet, one that is roomier than the best bet becomes it; counters and lists stay consistent |
| `LibAlloc.Heap.Memcpy` | src/kernel/memory/liballoc.c:115-138 | a move of the old bytes, and nothing else, unless it copies upwards into its own source; then each byte is the old one exactly if its 4-byte load came before the stores to it |
| `LibAlloc.Heap.Krealloc` | src/kernel/memory/liballoc.c:739-828 | a size that the chunk has is met in place, with the same pointer and no other change; a larger one by a new chunk with the common prefix of the bytes; every other allocation is unchanged, size 0 frees |
| `LibAlloc.Heap.NothingLeft` | src/kernel/memory/liballoc.c:686-697 | with no live chunk the lists are empty, the counters zero and every heap page is free |
| `LibAlloc.UserWrite` | src/kernel/memory/liballoc.c:20-44 | writes inside one allocation keep every shift byte and every other allocation |
| `LibAlloc.MovedData` | src/kernel/memory/liballoc.c:822-827 | allocate, copy, free keeps the prefix and the others |
| `HeapRuns.Run` | src/kernel/memory/liballoc.c:241-828 | after any legal run every pointer's bytes are what independent buffers would hold, and giving all back returns every page |
| `HeapRuns.ReallocMatches` | src/kernel/memory/liballoc.c:739-828 | replacing one chunk by its resized copy is resizing one buffer |
| `Mem.Memcpy` | src/kernel/lib/mem.cpp:3-15 | a move of the old bytes, and nothing else, unless it copies upwards into its own source; then each byte is the old one exactly if its 8-byte load came before the stores to it |
| `Mem.UpIsMove` | src/kernel/lib/mem.cpp:3-15 | a copy upwards over at least one store's width is a move if and only if its source repeats with that distance |
| `Mem.Memmove` | src/kernel/lib/mem.cpp:51-63 | a move of the old bytes for every overlap |
| `Queue.RingPush` | src/include/lib/queue.h:40-50 | writing the slot after the last appends to the ring through the wrap-around |
| `Queue.Queue.Push` | src/include/lib/queue.h:40-50 | appends, unless the ring is full with its front away from slot 0: then the new element replaces the front, so that nothing but the same element would make it an append; the part up to the old end stays behind it, and the wrapped part is outside the ring |
| `Queue.Queue.Pop` | src/include/lib/queue.h:58-64 | removes and returns the front |
| `Queue.Queue.Front` | src/include/lib/queue.h:52-56 | the front |
| `Queue.Queue.Realloc` | src/include/lib/queue.h:31-38 | keeps the slots that both buffers have, and the indices |
| `Queue.Queue.ReplaceAll` | src/include/lib/queue.h:76-87 | replaces in all queued elements, or in none exactly when the ring is full with its front away from slot 0 |
| `QueueRuns.Run` | src/include/lib/queue.h:40-64 | any run of pushes and pops is one on a sequence, as long as no push meets a full ring whose front is away from slot 0 |
| `QueueRuns.WithinIsSafe` | src/include/lib/queue.h:40-64 | which holds of every run that stays within the slots |
| `Balance.OrderSorts` | src/kernel/scheduler/scheduler.cpp:164-181 | the order is sorted by queue length and names no CPU twice |
| `Balance.OrderComplete` | src/kernel/scheduler/scheduler.cpp:164-181 | the order names every CPU |
| `Balance.OrderStable` | src/kernel/scheduler/scheduler.cpp:164-181 | of queues of one length the earlier CPU comes first |
| `Balance.InsertCpu` | src/kernel/scheduler/scheduler.cpp:166-180 | the array holds the order of one more CPU after an overlapping move |
| `Balance.Transfer` | src/kernel/scheduler/scheduler.cpp:192-197 | ends in spite of the unsigned size() - 1, having moved half the difference, front first, behind the receiver's own threads |
| `Balance.BalanceQueues` | src/kernel/scheduler/scheduler.cpp:158-204 | the array code computes the balanced queues |
| `Balance.BalancedMoves` | src/kernel/scheduler/scheduler.cpp:183-201 | of each pair the longer queue loses half the difference from its front, and these follow the other's own threads in order |
| `Balance.MiddleStays` | src/kernel/scheduler/scheduler.cpp:183-201 | the middle one of an odd number of CPUs keeps its queue |
| `Balance.BalancedPair` | src/kernel/scheduler/scheduler.cpp:183-201 | a pair keeps its total, ends within one of each other and between its old lengths |
| `Balance.BalancedWithin` | src/kernel/scheduler/scheduler.cpp:158-204 | the longest queue gets no longer, the shortest no shorter |
| `Balance.BalancedConserves` | src/kernel/scheduler/scheduler.cpp:158-204 | the multiset of queued threads is the same |
| `Balance.LongGivesHalf` | src/kernel/scheduler/scheduler.cpp:158-204 | of one long queue among empty ones, the front half goes to the first other CPU |
| `Scheduler.StepKeepsInv` | src/kernel/scheduler/scheduler.cpp:120-285 | every handler, whatever its tryLocks find, keeps the placement of threads and the agreement of their states with it |
| `Scheduler.RunKeepsPlacement` | src/kernel/scheduler/scheduler.cpp:120-285 | after any run on any number of CPUs, failed tryLocks included, each live thread that is not idle is in exactly one place, and a thread that runs is current on exactly one CPU |
| `Scheduler.FailsExactly` | src/kernel/scheduler/scheduler.cpp:216-302 | a step's assert fails if and only if a thread exits, its own queue is empty, the others are empty or held, and its CPU's idle thread runs elsewhere |
| `Scheduler.LoopsExactly` | src/kernel/scheduler/scheduler.cpp:216-261 | a step's pop loop never ends if and only if the first queue an exiting or starting CPU gets hold of holds only running threads |
| `Scheduler.CalmRunsComplete` | src/kernel/scheduler/scheduler.cpp:20-285 | while no tryLock on a run queue fails and the destroyers live, every run completes on any number of CPUs and no started CPU runs an idle thread |
| `OneProcessor.OneCpuNeverFails` | src/kernel/scheduler/scheduler.cpp:120-302 | on one CPU the asserts of the handlers and of switchTo hold and every pop loop ends |
| `OneProcessor.OneCpuRuns` | src/kernel/scheduler/scheduler.cpp:120-302 | on one CPU every run completes, exactly the current thread runs, and queued threads are distinct and stopped |
| `OneProcessor.OneCpuFromBoot` | src/kernel/scheduler/scheduler.cpp:114-302 | the same for every run from initialisation on one CPU |
| `OneProcessor.OneCpuStep` | src/kernel/scheduler/scheduler.cpp:206-302 | on one CPU every step succeeds; a switch runs the front thread and moves the others up by one |
| `OneProcessor.Waits` | src/kernel/scheduler/scheduler.cpp:206-302 | each switch brings a waiting thread one place nearer, and other events leave its place |
| `OneProcessor.DispatchedInTurn` | src/kernel/scheduler/scheduler.cpp:206-302 | with k threads ahead a thread runs at exactly the (k+1)th switch, which succeeds |
| `Scheduler.InitialInv` | src/kernel/scheduler/scheduler.cpp:114-117 | the state after initialisation satisfies the invariant, has a destroyer per CPU and no queued idle thread |
| `IdleRace.FailingRun` | src/kernel/scheduler/scheduler.cpp:120-302 | on n >= 2 CPUs, from the initial state and with the destroyers alive, a run whose last exit fails the assert; the holder of each held queue acts in the event just before |
| `IdleRace.LoopingRun` | src/kernel/scheduler/scheduler.cpp:248-261 | likewise a run whose last exit never leaves the pop loop |
| `IdleRace.FailsOnSeveral` | src/kernel/scheduler/scheduler.cpp:120-302 | a failed assert is reachable if and only if there are two CPUs or more, and so is an endless loop |
| `Scheduling.RebalanceKeeps` | src/kernel/scheduler/scheduler.cpp:158-204 | balancing keeps the invariant |
| `Picking.EndsExactly` | src/kernel/scheduler/scheduler.cpp:250-260 | the pop loop ends if and only if the queue has a stopped thread or only killed ones |
| `Picking.PickedIs` | src/kernel/scheduler/scheduler.cpp:250-260 | without killed threads it takes the first stopped one, those before it going to the back |
| `Processors.Processors.PickOrSpin` | src/kernel/scheduler/scheduler.cpp:250-260 | the loop takes that thread, or is stuck exactly when it never ends |
| `Handlers.TickDoes` | src/kernel/scheduler/scheduler.cpp:120-133 | the current thread goes last in its own queue and the first stopped thread of that queue runs, the running ones before it going to the back; queues are balanced at every hundredth tick |
| `Handlers.YieldIsTick` | src/kernel/scheduler/scheduler.cpp:135-147 | a yield does the same |
| `Handlers.ExitDoes` | src/kernel/scheduler/scheduler.cpp:216-285 | with a thread to take, the CPU runs the first stopped one of its own queue, or of the first other queue that is neither empty nor held, and every other queue keeps its threads up to a balancing that is due |
| `Handlers.ExitIdles` | src/kernel/scheduler/scheduler.cpp:265-269 | with nothing to take it runs its idle thread, which must be stopped, and the balance tick stands still |
| `Handlers.StartDoes` | src/kernel/scheduler/scheduler.cpp:149-156 | a starting CPU takes a thread likewise |
| `Handlers.StartIdles` | src/kernel/scheduler/scheduler.cpp:149-156 | or runs its idle thread |
| `Handlers.BusyRetries` | src/kernel/scheduler/scheduler.cpp:271-281 | a balancing kept out by another CPU's is made up for at the next switch |
| `Processors.Processors.Pick` | src/kernel/scheduler/scheduler.cpp:216-263 | the own queue first, else the first other that is not empty and not held |
| `Processors.Processors.DoSwitchNext` | src/kernel/scheduler/scheduler.cpp:206-285 | equals the abstract switch for every outcome of its tryLocks, failures and endless loops included |
| `Processors.Processors.SwitchTo` | src/kernel/scheduler/scheduler.cpp:287-302 | succeeds exactly on a stopped thread, which becomes current and running |
| `Processors.Processors.TickHandler` | src/kernel/scheduler/scheduler.cpp:120-133 | equals the abstract tick, and always switches |
| `Processors.Processors.YieldHandler` | src/kernel/scheduler/scheduler.cpp:135-147 | equals the abstract yield, and always switches |
| `Processors.Processors.DoExit` | src/kernel/scheduler/thread.cpp:66-80 | equals the abstract exit for every outcome of its tryLocks |
| `Processors.Processors.DoStart` | src/kernel/scheduler/scheduler.cpp:149-156 | equals the abstract start for every outcome of its tryLocks, and its asserts hold |
| `Processors.Processors.DoAddThread` | src/kernel/scheduler/thread.cpp:58-64 | equals the abstract creation |
| `Processors.Processors.DoReap` | src/kernel/scheduler/scheduler.cpp:27-36 | the destroyer's assert holds and its replaceAll finds nothing |
| `Locks.ReachableInv` | src/include/synchronization/spinlock.h:6-26 | in every interleaving, destroyers that moved included, a lock's owner is exactly the CPU whose position says so |
| `Locks.MutualExclusion` | src/include/synchronization/spinlock.h:6-26 | two CPUs never hold one queue lock |
| `Locks.OnlyBalancerHoldsAndWaits` | src/kernel/scheduler/scheduler.cpp:189-200 | with interrupts off at most one CPU spins while holding a queue lock: the balancer between its two locks |
| `Locks.NoCycle` | src/kernel/scheduler/scheduler.cpp:189-281 | no round of CPUs waits for each other |
| `Locks.DeadlockExactly` | src/kernel/scheduler/thread.cpp:58-64 | a cycle of waits is reachable if and only if queue locks are taken with interrupts on |
| `Locks.WaitsAreShort` | src/kernel/scheduler/scheduler.cpp:189-281 | in every reachable state each CPU can act or waits, over at most one balancer, for one that can |
| `LockProgram.VisitActs` | src/kernel/scheduler/scheduler.cpp:120-285 | the exact sequences of lock actions: one pair for addThread, one for the push of a tick or yield; switchNext holds its own lock while it takes and drops others one at a time in the order of the CPUs; balance takes both locks of each of the n / 2 pairs under the balance lock |
| `Locks.BoundedActions` | src/kernel/scheduler/scheduler.cpp:120-285 | a handler takes a bounded number of lock actions, a pop loop counting as part of one |
| `Paths.Split` | src/kernel/lib/string.cpp:98-122 | the loop yields exactly the maximal runs without the delimiter |
| `Paths.JoinSplits` | src/kernel/lib/string.cpp:98-122 | splitting a joined path gives the components back |
| `Paths.Cut` | src/kernel/lib/string.cpp:124-131 | cutting the joined length drops the components or leaves too many letters |
| `Paths.SliceDrops` | src/kernel/fs/fs.cpp:131-131 | slicing agrees with dropping components if and only if the mount begins the path |
| `Paths.CanonicalBegins` | src/kernel/fs/fs.cpp:131-131 | it always does for canonical paths |
| `Mounts.IsPathSubset` | src/kernel/fs/fs.cpp:57-69 | true exactly for prefixes |
| `Mounts.LongestIsDeepest` | src/kernel/fs/fs.cpp:76-90 | on canonical mounts the longest string is the mount with most matching components, earliest on ties |
| `Mounts.Vfs.FindMountPoint` | src/kernel/fs/fs.cpp:71-91 | finds that mount, or none exactly when none matches |
| `Mounts.Vfs.MountNode` | src/kernel/fs/fs.cpp:99-107 | mounts keep their order and the root is remembered |
| `Mounts.Vfs.ResolvePath` | src/kernel/fs/fs.cpp:120-149 | which of the five outcomes, and which directories stay open; the panic exactly when the mount's path is the longer |
| `Mounts.ChainDecides` | src/kernel/fs/fs.cpp:134-148 | following findEntry from directory to directory decides: the node found, not a directory, or the code of the findEntry that failed, whose directory stays open |
| `Mounts.ChainExists` | src/kernel/fs/fs.cpp:134-148 | every resolution follows such a chain to its end |
| `Mounts.ResolvesTheRest` | src/kernel/fs/fs.cpp:120-149 | on canonical mounts and paths resolution is a fold of findEntry over exactly the components after the deepest mount, and the slice never fails |
| `Mounts.LeftOpenExactly` | src/kernel/fs/fs.cpp:140-144 | one directory stays open exactly when its findEntry fails |
| `Mounts.DescendOn` | src/kernel/fs/fs.cpp:133-148 | resolving a longer path continues where the shorter ended |
| `Mounts.DoubledSlashMisses` | src/kernel/fs/fs.cpp:131-131 | a path with a doubled slash for which the slice and the components disagree |

## Left out

- Large pages lie at levels 2 and 3 of upper halves; level 4 has none, so the branches on the size bit of a level-4 entry are not taken.
- Mmu.Mmu.MapPage: pages whose walk meets a large page; mapPage and unmapPage do not look at the size bit and would take its frame for a table.
- Mmu.Mmu.UnmapPage: likewise.
- PageMaps.Run: likewise, for each of its operations.
- Machines with 2^19 frames or more, where UNSHIFT goes wrong; the page-table model keeps frames below that bound.
- TLB invalidation, the meaning of the flags other than user and write, accessed and dirty bits, and address-space locks.
- Lifetime.Step: the script works on the lower half of a space that owns its frames; `PageMaps.Run` and `Ranges` cover both halves, without the accounts of who owns what.
- Lifetime.AllocSpace: ranges in the lower half; the loader is its only caller.
- Lifetime.ReleasePages: ranges in the lower half, whose frames the space owns; `Ranges.ReleaseRange` is the one for either half.
- Lifetime.GetUserPages: user pages; `Ranges.GetPages` is the one for either half.
- Mmu.Mmu.FreeBelow: the four nested loops of destroyAddressSpace are one method that calls itself a level down.
- Boot.BootWellFormed: a processor with 1 GiB pages; the branch of the boot code for one without builds the window from 2 MiB pages.
- Elf.LoadSegment: segments whose pages lie in the lower half.
- Elf.LoadExecutable: segments in the lower half; the header checks, the read of the program headers and the entry point are not modelled; a file read is taken to deliver the file's bytes from the offset, as many as there are; what a former page table's bytes look like is not modelled and not relied on.
- LibAlloc.Heap.Kmalloc: requests are small enough for the 32-bit size fields; the lock, the debug output and the warning counters are left out.
- LibAlloc.Heap.Kfree: pointers are NULL or live; the bad-magic and double-free paths are left out.
- LibAlloc.Heap.Krealloc: when kmalloc gives NULL for a larger size the source copies to NULL, which is a panic here; the old pointer must be NULL or live.
- LibAlloc.Heap.Place: the empty-major, front-gap, tail and between-minors cases share the linking code that the source repeats.
- Heap structs live in maps keyed by address, beside the heap bytes and not inside them, so that overwriting a header through a wild pointer is not modelled.
- kcalloc, the dump routine and liballoc_memset.
- Balance.InsertCpu: memmove is taken at the grain of whole array slots; `Mem.Memmove` is the byte version.
- Balance.Transfer: queue sizes are below 2^64 - 1.
- Scheduler and Processors: no other CPU acts inside a handler except by holding what it tries for; the interleaving of the locks themselves is what `Locks` covers. Run queues are sequences there, which `Queue` refines as long as capacity is not exceeded with the front away from slot 0. The balance tick does not wrap at 2^32.
- Scheduler.Step: which queues are held is part of the event; that their holders are in handlers of their own is required of the runs in `IdleRace` only (`TwoActors.Tied`).
- Processors.Processors.DoReap: the release of the dead thread's stacks and process is not modelled.
- Locks.BoundedActions: a spinning CPU need not ever be served, since the compare-and-swap lock is not fair, and the pop loops are taken to end.
- Locks: the destroy-queue locks, and a thread that is preempted while it holds or waits for a lock and goes on on another CPU.
- Mounts.Vfs.ResolvePath: `isDirectory` and `findEntry` are parameters and do not change during a resolution; open and close are counted, their own results are ignored as in the source.
- Mounting through a driver, directory listings, devfs, initrd and ext2.
- HashMap, List, Tree and Vector, string concatenation, number printing.
- Interrupt controllers, timers, descriptor tables, serial, terminal, log and keyboard; multiboot and ACPI parsing; module loading; system-call argument checks.
