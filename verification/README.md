# Linux 0.95 in Dafny

A model of the parts of the Linux 0.95 kernel that keep whole-system promises, with proofs of those promises.
`dafny verify dfyconfig.toml` checks everything.

The classes keep the source's own state: reference counts, page tables, queue heads, link fields, request slots,
block pointers and machine words are updated in place by methods that follow the C functions. Beside them stand
functions and lemmas over the same state as a value (`View()`), in which the invariants and the main theorems are
stated.

- **Virtual memory** (`Paging`, `FrameUse`, `SwapUse`, `PagingSteps`, `Calmness`, `SwapClock`, `PagingRanges`,
  `PagingKernel`, `PrivateMemory`, `PagingTheorems`, `PagingSamples`): page tables, `mem_map`, the swap bitmap and the swap
  area. `Machine.Run` shows that fork by sharing, copy on write, demand loading, page sharing between tasks of one
  executable, dropping clean pages and swapping cannot be told from a model in which every fork copies everything at once,
  but for one window in exec, whose exact condition is proved. The invariant behind it gives the meaning of every `mem_map`
  count and of every swap slot. `SwapOutSome` says exactly when the clock of swap_out finds a page. `Memory.prog` is what the
  pages of a task were loaded from, `Now` what its executable and library fields say; they differ inside exec only.
  `gaveUp` counts how often get_free_page returned nothing, and `misled` tells that share_page took a wrong page; neither
  is part of the code.
- **Sleeping** (`SleepQueues`, `SleepKernel`): wait queues are stacks threaded through the sleepers' own local variables.
  The processor changes hands only where `schedule()` is called; each method is the code between two such points. No wake
  is lost and no set of sleepers, selects on many queues included, waits for itself.
- **Scheduling** (`Scheduler`): counters, recharging, and how long a runnable task can be passed over.
- **Elevator** (`ElevatorOrder`, `Elevator`): the request queues. Ranks order the requests; a queue is at most two
  ascending sweeps, and no request is overtaken for ever.
- **Buffer cache** (`BufferLists`, `BufferState`, `BufferKernel`, `BufferProcesses`): hash chains, the ring of buffers and
  `getblk`. A sleep lets other processes do anything that keeps the invariants and the buffers held here (`Rely`), and what
  this process does between two sleeps is such a step for the others (`PromiseIsRely`). `SleepIsSafe` puts any number of
  processes together: in every run each finds what it relies on.
- **Minix file system** (`MinixBlocks`, `MinixKernel`, `MinixDirs`, `MinixNames`): the three-level block tree with its bit
  maps, truncation with retries, reading and writing as one byte array per file; the directory tree under mkdir, rmdir and
  rename.
- **Path walk** (`PathWalk`, `PathMeaning`): what a path means, links and mount points included, and the balance of inode
  counts on every way through the walk.
- **Kernel malloc** (`MallocState`, `MallocKernel`): buckets whose free chains live inside the pages.
- **Mathematics emulator** (`MathWords`, `MathReals`, `MathMulDiv`, `MathConvert`, `MathBcd`): 64-bit products and quotients,
  conversions between the real formats of sections 3.2 and 3.3 of IEEE 754-1985, rounding to integers and packed decimal.
  `Value` is the real number that words stand for, and the results are stated over it.

`Kernel`, `Sequences` and `Wrappers` hold the constants and small types they share.

## Main results

`PrivateMemory.Machine.Run`, `PagingKernel.Memory.DoNoPage`, `PagingTheorems.NoFrameHasTwoUses`,
`PagingKernel.Memory.SwapOutSome`, `PrivateMemory.MisleadsExposed`, `SleepQueues.NoDeadlock`,
`SleepKernel.WaitQueues.Settle`, `ElevatorOrder.NoStarvation`, `BufferKernel.BufferCache.Bread`,
`BufferProcesses.SleepIsSafe`, `MinixKernel.MinixVolume.Truncate`, `MinixKernel.MinixVolume.FileWrite`,
`MinixNames.Directories.Rename`, `PathWalk.Walker.OpenNamei`, `PathMeaning.PathJoin`, `PathMeaning.ChainFollowed`,
`MallocKernel.Allocator.Malloc` and `FreeS`, `MathMulDiv.FMul` and `FDiv`, `MathConvert.ShortRounding`,
`MathConvert.LongRounding`, `MathConvert.LongRoundTrip`, `MathBcd.RoundedValue`, `MathBcd.BcdRoundTrip`,
`Scheduler.BoundedWait`.

## Where the code falls short of its intent

- `mm/swap.c:153-191` gives up before its clock has gone round: it charges 1024 for every directory entry it turns and one
  more for every page it tries, out of 1024 for every entry there is. `SwapOutSome` finds a page if and only if one that
  can go is `Tried`; `LoneTable` and `GivesUpEarly` are an input on which it misses the only page, and `OwnTableMissed`
  says that it never gets back to the table it starts from.
- `fs/exec.c:370-383` sets the new executable, may then sleep while it closes files, and frees the old pages only afterwards.
  In between, `mm/memory.c:429-451` may hand a page of the old executable to another task (`MisledByExec`). `MisleadsExposed`
  says exactly when that is possible, and `DoNoPage` when it happens. `fs/exec.c:56-60` avoids it for libraries.
- `mm/memory.c:267-270` only prints a message for a frame that put_page would refuse, and maps it. `PutPage` keeps the
  invariant if and only if the kernel owned the frame.
- `fs/buffer.c:45-64` walks the free list across sleeps, during which buffers move. `SyncBuffers` is complete when no buffer
  is locked at the call, which is exactly when it does not sleep.
- `fs/buffer.c:199` stores through `b_next` without a test for NULL; `InsertIntoQueues` has the test, as
  `fs/buffer.c:130` has it on removal.
- `mm/swap.c:201-204` sets the scan registers once, before `repeat`; `GetFreePage` starts each scan afresh.
- `fs/minix/bitmap.c:183` makes the scanned address an output; `FindFirstZero` only reads.
- `fs/minix/bitmap.c:238-243` sets a bit before it tests the range; the map bits past the last zone are set from the start,
  so the test never fails.
- `fs/minix/namei.c:704-750` lets a file be renamed onto a directory. `Rename` keeps the tree if and only if that is not what
  happens, and `SampleBreaks` is a tree it destroys.
- `kernel/math/convert.c:101-112` tests the wrong word of the mantissa. `LongRounding` says exactly when temp_to_long rounds
  as its mode asks, `LongRoundTrip` which 64-bit reals survive in which mode, and `MisroundedExample` is one that does not.
- `kernel/math/convert.c:66-77` looks at eight of the forty bits it drops. `ShortRounding` says exactly when the result is
  right: not for a number just above one half in nearest, nor for one just above a 32-bit real that should go away from zero.
- `kernel/math/convert.c:31-35` and `:48-52` take denormals for normalised numbers, and `:61-65` and `:87-92` take a mantissa
  without its top bit for one that has it. `ShortToTempValue` and `LongToTempValue` say that the value is kept if and only if
  the real is no denormal, and `Unnormalised` that such a mantissa always comes out too large.
- `kernel/math/convert.c:194-227` turns zero into one when rounding up, and does not see what is shifted out below 32 bits
  after the point. `RoundedValue` says exactly when the integer is right, `BcdRoundTrip` that zero is the only integer lost.
- `kernel/sched.c:424-426` lets a priority reach zero. `Nice` says exactly when; the theorems about waiting assume positive
  priorities.

## Model

| member | source | states |
|---|---|---|
| `PrivateMemory.Machine.Run` | mm/memory.c:164-534 | In every run of spawn, fork, exit, exec (in two steps, with anything between them), uselib, loads, stores, swapon and page-outs, each answer is one the eager-copy model gives (a load returns the bytes of the task's own private page) and the state still agrees with that model; no operation that is due is refused unless the task table is full or some get_free_page found no frame free and swap_out no page; the run goes wrong only at an access to a page of an executable that some task inside exec is changing to |
| `PrivateMemory.Machine.Step` | mm/memory.c:164-534 | One operation keeps the invariant and agrees with one step of the eager model; what is due is refused only if get_free_page found no frame free and swap_out no page; only a load or store can be misled, and only while another task inside exec has a clean page of its old executable at that place |
| `PrivateMemory.Machine.Fork` | kernel/fork.c:88-166 | The child sees a private copy of every page of its parent and nobody else sees a change; after a failed fork every task sees what it saw, and tasks and their structures are as before; it fails only for want of a task slot or when get_free_page gave up |
| `PrivateMemory.Machine.NewTask` | kernel/fork.c:97-105 | A task slot that was free and a frame for its structure; the new task shows the initial pages of its program; otherwise nothing changes |
| `PrivateMemory.Machine.FindEmptyProcess` | kernel/fork.c:67-80 | The lowest free slot of 1..63, or none exactly when all are taken |
| `PrivateMemory.Machine.Exit` | mm/memory.c:108-145 | A task that exits loses all its pages and tables, then its structure, and no other task sees a change |
| `PrivateMemory.Machine.Exec` | fs/exec.c:368-381 | From here to ExecEnd the task has its new executable and its old pages; nothing any task sees changes |
| `PrivateMemory.Machine.ExecEnd` | fs/exec.c:382-383 | Every page of the task starts over from the new executable (library pages from its library); other tasks see no change |
| `PrivateMemory.Machine.UseLib` | fs/exec.c:42-66 | The library area starts over from the new library, the rest of the task and all other tasks stay |
| `PrivateMemory.Machine.Install` | mm/memory.c:261-283 | The page that exec prepared is what the task sees at that place from then on; refused only if something is mapped there or memory lacks |
| `PrivateMemory.Machine.Fault` | mm/memory.c:331-343 | Page faults change nothing any task sees; the access faults again until the page is there, and writable if a write is wanted, which ends, or get_free_page has given up; it is misled only if a task inside exec exposes an old page, and it is misled if that task comes first |
| `PrivateMemory.Machine.Bring` | mm/memory.c:453-534 | The page is there, or get_free_page has given up; misled exactly when do_no_page is, and then some task inside exec exposes a page of its old executable |
| `PrivateMemory.Machine.Load` | mm/memory.c:453-534 | A load returns the bytes of the eager model, or other bytes exactly when it is misled; of a page never touched these are the bytes of the file after its header block, below end_data, or zeros; it fails only when get_free_page gave up |
| `PrivateMemory.Machine.Store` | mm/memory.c:331-343 | A store changes one byte of one page of one task in the eager model, whoever shared the frame; it fails only when get_free_page gave up |
| `PrivateMemory.MisleadsExposed` | fs/exec.c:368-383 | share_page can be misled if and only if a task inside exec, changing to the executable of the faulting task, still has a clean page below LIBRARY_OFFSET there whose bytes are not those of the new executable |
| `PagingSamples.MisledByExec` | fs/exec.c:368-383 | A concrete state, with everything in order, in which share_page hands out a page of the old executable |
| `PrivateMemory.Machine.SwapOn` | mm/swap.c:284-340 | The swap area comes into use once, with exactly the slots its bitmap marks good; refused only for a missing signature, an empty map, an area in use, or want of memory |
| `PagingTheorems.CountIsOwners` | mm/memory.c:91-102 | mem_map is, for every usable frame, the number of entries that map it plus one for a table or a kernel owner, and USED elsewhere |
| `PagingTheorems.NoFrameHasTwoUses` | mm/memory.c:207-214 | A mapped frame is neither a table nor kernel-owned; a writable entry is its only reference; entries that share a frame are read-only, at one offset, in different tasks |
| `PagingTheorems.TablesAreDistinct` | mm/memory.c:190-193 | No frame is the table of two directory entries |
| `PagingTheorems.CountStaysSmall` | include/linux/mm.h:36-42 | The count of a usable frame stays below 64 and so below USED and never wraps its byte |
| `PagingTheorems.SlotFreeOrNamedOnce` | mm/swap.c:71-92 | A usable swap slot is free in the bitmap exactly when no entry names it, and never has two names |
| `PagingKernel.Memory.constructor` | mm/memory.c:536-550 | After mem_init the frames of the given range are free, all others USED, and the invariant holds |
| `PagingKernel.Memory.FreePage` | mm/memory.c:91-102 | One reference to the frame goes, and with the last one the frame is free; nothing happens above memory or at count zero |
| `PagingKernel.Memory.GetSwapPage` | mm/swap.c:71-81 | The lowest free slot is taken, or there is none |
| `PagingKernel.Memory.TryToSwapOut` | mm/swap.c:120-147 | It succeeds exactly for a page that is clean, or dirty, mapped once and with a free slot; then a dirty page has a slot, a clean one no entry, and no task sees a difference |
| `PagingKernel.Memory.NextTable` | mm/swap.c:160-171 | The clock stops at the next directory entry in use, having used up 1024 for each entry it turned, and gives up exactly when the counter does not last to any |
| `PagingKernel.Memory.SwapOutSome` | mm/swap.c:153-191 | It finds a page if and only if some page that can go is tried, which the page directory, the clock and the counter decide beforehand; then the first such page has gone, the clock stands there, and no task sees a difference |
| `PagingKernel.Memory.ScanTable` | mm/swap.c:179-188 | The first page after the clock that can go has gone, or none of the entries the counter lasts for could go |
| `PagingKernel.Memory.SearchTable` | mm/swap.c:159-190 | One turn of the search: a page has gone that is the cheapest of those tried, or the search goes on with what is left, or no page that is tried can go |
| `SwapClock.TriedHere` | mm/swap.c:160-188 | Which entries of a table the search looks at: those from where it starts in the table for as long as the counter lasts |
| `SwapClock.OwnTableMissed` | mm/swap.c:153-191 | The search never looks at the table on which the clock stands |
| `SwapClock.CheapestHere` | mm/swap.c:179-188 | The first page found that can go is the one with the least cost of all that are tried |
| `SwapClock.SearchOver` | mm/swap.c:160-175 | When the counter does not last to the next table in use, no page that is tried can go |
| `SwapClock.ScannedTable` | mm/swap.c:179-188 | A table gone through in vain uses up one for each entry and the step past its end |
| `PagingSamples.LoneTable` | mm/swap.c:153-191 | With its clock on the only page table in use, swap_out finds nothing |
| `PagingSamples.GivesUpEarly` | mm/swap.c:153-191 | A concrete state with a clean page in memory in which swap_out finds nothing, wherever in the table the clock stands |
| `PagingKernel.Memory.GetFreePage` | mm/swap.c:197-276 | The highest free frame, zeroed, with no page moved, if there was one; otherwise pages go until there is one; it gives up only with no frame free and nothing that swap_out tries able to go |
| `PagingKernel.Memory.NeedTable` | mm/memory.c:241-249 | The page table is there afterwards, without effect on what tasks see; failure only for want of memory |
| `PagingKernel.Memory.PutPage` | mm/memory.c:227-283 | The page is mapped writable at a place that was empty and is what the task sees there; put_page refuses a frame above memory or not held once, put_dirty_page maps it all the same; the invariant survives if and only if the kernel owned the frame |
| `PagingKernel.Memory.GetEmptyPage` | mm/memory.c:358-366 | A zero page is mapped and tasks see no difference; otherwise the frame is given back |
| `PagingKernel.Memory.SwapInPage` | mm/swap.c:94-118 | The page is back, dirty and writable, its slot free, and tasks see no difference |
| `PagingKernel.Memory.UnWpPage` | mm/memory.c:285-322 | If the page is in memory afterwards it is writable, and tasks see no difference; it is gone only when pages had to leave to make room, and a single one was not in the table the clock stood on |
| `SwapClock.Slipped` | mm/memory.c:331-343 | When making room for a copy takes the page itself away, another page has gone too or the clock has come to its table; so an access faults finitely often |
| `PagingKernel.Memory.TryToShare` | mm/memory.c:376-419 | It shares exactly when the other task has the page in memory and clean: both entries read-only, the count one higher, nothing else changed |
| `PagingKernel.Memory.SharePage` | mm/memory.c:429-451 | It succeeds exactly when some other task that now has that executable or library has the page clean, and takes the highest-numbered one; it is misled exactly when that one's page started from other bytes |
| `PagingKernel.Memory.LoadIn` | mm/memory.c:516-533 | The page of the file, cleared past its data, is mapped; otherwise the frame is given back |
| `PagingKernel.Memory.DoNoPage` | mm/memory.c:453-534 | The page is in memory afterwards, from swap, another task, a file or zeros, and tasks see no difference, unless the first task share_page comes to has a page of another executable; a page never touched holds byte x mod 1024 of block 1 + x / 1024 of its file for each address x below end_data and zeros from there on, in the library area counted from LIBRARY_OFFSET; it fails only when get_free_page gave up |
| `PagingKernel.Memory.FetchPage` | mm/memory.c:514-533 | A page of a file is there afterwards, from another task that has it clean or from the disk; tasks see no difference unless share_page is misled, which happens exactly when the first task it comes to has a page of another executable |
| `Paging.ImageBytes` | mm/memory.c:500-529 | Byte for byte, the page loaded at an address holds the bytes of the executable or library behind its header block, zeros from end_data on |
| `Paging.ImageUntouched` | mm/memory.c:500-529 | So the initial page is what a task that never touched it must see |
| `PagingKernel.BroughtIn` | mm/memory.c:453-534 | What is brought in without effect on what tasks see holds those bytes |
| `PagingKernel.Memory.FreePageTables` | mm/memory.c:108-145 | Entries and tables of the range are gone, their frames and slots given back, and everything outside is as it was |
| `PagingKernel.Memory.CopyPageTables` | mm/memory.c:164-219 | The child shows what the parent shows at every page, the parent and all others show what they showed, also when memory lacks half way |
| `PagingKernel.ReadBlocks` | fs/buffer.c:371-390 | Four blocks of a file make up the page, zeros where the file has none |
| `PagingKernel.LoadPage` | mm/memory.c:518-529 | The page is the image of the program: its file's bytes, zeros past end_data |
| `PagingSteps.MapKeeps` | mm/memory.c:241-252 | Mapping a held frame keeps the invariant, provided it is marked dirty or holds the initial page; only that page changes, to the bytes of the frame |
| `PagingSteps.UnmapKeeps` | mm/memory.c:130-138 | Dropping an entry keeps the invariant and what is seen elsewhere |
| `PagingSteps.SwapOutKeeps` | mm/swap.c:130-141 | Writing a page to a free slot keeps the invariant and what all tasks see |
| `PagingSteps.SwapInKeeps` | mm/swap.c:112-117 | Swapping a page out and in again gives the task its bytes back |
| `PagingSteps.ShareKeeps` | mm/memory.c:207-214 | One more read-only mapper keeps the invariant, and the new place shows what the old one shows |
| `PagingSteps.SplitSlotKeeps` | mm/memory.c:199-206 | Child keeps the slot, parent gets the frame: both show the page |
| `PagingSteps.CopyOnWriteKeeps` | mm/memory.c:318-321 | A copy keeps the invariant and what all tasks see |
| `PagingSteps.StoreKeeps` | mm/memory.c:331-343 | A store through a writable entry changes one byte of one page of one task |
| `Calmness.CleanIsInitial` | mm/swap.c:142-146 | A present page that is not dirty equals its image in the executable, the library, or zeros |
| `Calmness.OneLess` | mm/swap.c:130-146 | Each page-out leaves exactly one present entry fewer |
| `Calmness.MapUnheld` | mm/memory.c:261-283 | Mapping a frame that the kernel does not own always breaks the invariant |
| `Calmness.ShareExact` | mm/memory.c:376-419 | Sharing a clean page keeps the invariant and what all tasks see if and only if both pages start from the same bytes; otherwise exactly the one page shows other bytes |
| `SleepQueues.QueueListsItsSleepers` | kernel/sched.c:181-205 | From the head of a queue the saved links list exactly its sleepers, each once, newest first |
| `SleepQueues.ChainDescends` | kernel/sched.c:181-205 | Along the links, the times of falling asleep strictly decrease |
| `SleepQueues.NeverNull` | fs/select.c:62-80 | free_wait and __sleep_on never find NULL in the queue; if somebody else is on top, that is a newer sleeper |
| `SleepQueues.OnlyTheTopLeaves` | kernel/sched.c:193-204 | Only the top of a queue leaves it, and no other task's entry changes |
| `SleepQueues.NoDeadlock` | fs/select.c:62-80 | From a sleeper that passed its wake on, a chain of ever newer sleepers ends in one that can run, even for selects on many queues |
| `SleepQueues.Settled` | kernel/sched.c:193-226 | When no sleeper can run, every woken queue is empty and nobody waits for a wake |
| `SleepQueues.TurnMakesProgress` | kernel/sched.c:193-204 | Each turn of a sleeper takes an entry off for good or hands a wake to a newer sleeper |
| `SleepQueues.BeginKeeps` | kernel/sched.c:181-192 | Falling asleep keeps the invariant of all queues: links, order of sleep, and no lost wake |
| `SleepQueues.PushKeeps` | fs/select.c:47-60 | Entering a queue that one is not on keeps the invariant of all queues: links, order of sleep, and no lost wake |
| `SleepQueues.PopKeeps` | fs/select.c:62-80 | Leaving a queue from its top keeps the invariant of all queues: links, order of sleep, and no lost wake |
| `SleepQueues.YieldKeeps` | kernel/sched.c:193-199 | Waking the top and sleeping again keeps the invariant of all queues: links, order of sleep, and no lost wake |
| `SleepQueues.WakeUpKeeps` | kernel/sched.c:217-226 | A wake of the top keeps the invariant of all queues: links, order of sleep, and no lost wake |
| `SleepQueues.SignalKeeps` | kernel/sched.c:125-141 | A signal or timeout for a sleeper keeps the invariant of all queues: links, order of sleep, and no lost wake |
| `SleepQueues.FreeWaitKeeps` | fs/select.c:62-80 | A whole free_wait, up to its next sleep, keeps the invariant of all queues: links, order of sleep, and no lost wake |
| `SleepKernel.WaitQueues.SleepOn` | kernel/sched.c:181-192 | The task is on top of the queue and asleep; no queue, no effect |
| `SleepKernel.WaitQueues.ResumeSleep` | kernel/sched.c:193-204 | It leaves exactly when it is on top; else it wakes the top and sleeps again |
| `SleepKernel.WaitQueues.WakeUp` | kernel/sched.c:217-226 | The top of the queue is runnable |
| `SleepKernel.WaitQueues.Signal` | kernel/sched.c:125-141 | An interruptible sleeper is runnable, an uninterruptible one stays asleep |
| `SleepKernel.WaitQueues.AddWait` | fs/select.c:47-60 | The task is on top of the queue unless it is on it already |
| `SleepKernel.WaitQueues.FreeWaits` | fs/select.c:62-80 | Entries are taken off from the top while possible; done exactly when none is left |
| `SleepKernel.WaitQueues.Select` | fs/select.c:178-208 | The task waits on exactly the queues named, or, with something ready, on none; nobody else's entry changes |
| `SleepKernel.WaitQueues.Settle` | kernel/sched.c:193-226 | Letting runnable sleepers run in any order ends, with all woken queues empty and no other entry changed |
| `ElevatorOrder.RankIsOrder` | kernel/blk_drv/blk.h:40-43 | IN_ORDER is the strict order of cmd, device, sector, and equal ranks mean equal keys |
| `ElevatorOrder.InsertKeeps` | kernel/blk_drv/ll_rw_blk.c:76-104 | Adding a request keeps the queue at most two ascending sweeps and never displaces the one in service |
| `ElevatorOrder.PopKeeps` | kernel/blk_drv/blk.h:119-135 | Serving the head keeps the queue at most two sweeps |
| `ElevatorOrder.AlwaysTwoSweeps` | kernel/blk_drv/ll_rw_blk.c:76-104 | Every queue that any run of additions and completions builds is at most two sweeps |
| `ElevatorOrder.NoStarvation` | kernel/blk_drv/ll_rw_blk.c:76-104 | A queued request has been served once more requests have completed than its distance from the head, whatever is added meanwhile |
| `ElevatorOrder.DistanceBounded` | kernel/blk_drv/ll_rw_blk.c:76-104 | That distance is at most twice the number of keys |
| `ElevatorOrder.InsertDistance` | kernel/blk_drv/ll_rw_blk.c:76-104 | A later request never increases the distance of one already queued |
| `ElevatorOrder.PopDistance` | kernel/blk_drv/blk.h:119-135 | Each completion brings every queued request strictly closer |
| `ElevatorOrder.InsertAll` | kernel/blk_drv/ll_rw_blk.c:76-104 | The queue holds the old requests and the new one |
| `ElevatorOrder.InsertDistinct` | kernel/blk_drv/ll_rw_blk.c:76-104 | Distinct keys stay distinct |
| `Elevator.KeysAreDistinct` | kernel/blk_drv/ll_rw_blk.c:125-129 | Because a buffer is locked before it is queued, no two requests have the same key |
| `Elevator.AddKeeps` | kernel/blk_drv/ll_rw_blk.c:76-104 | Adding a request keeps all device queues, locks and sweeps |
| `Elevator.EndKeeps` | kernel/blk_drv/blk.h:119-135 | Completing a request keeps all device queues, locks and sweeps |
| `Elevator.TestIsFits` | kernel/blk_drv/ll_rw_blk.c:96-99 | The three comparisons of the search say exactly whether the request fits between two neighbours |
| `Elevator.BlockDevices.FindPlace` | kernel/blk_drv/ll_rw_blk.c:90-100 | The search stops at the first place where the request fits |
| `Elevator.BlockDevices.AddRequest` | kernel/blk_drv/ll_rw_blk.c:76-104 | The queue of the device gains the request where the elevator puts it, other queues stay, the buffer is clean |
| `Elevator.BlockDevices.TakeSlot` | kernel/blk_drv/ll_rw_blk.c:130-165 | The last free slot allowed for the command is filled and queued: any of the 32 for a read, only the first 21 for a write, so that reads always have a third to themselves; without one, read-ahead gives up and unlocks, others wait with the buffer locked |
| `Elevator.BlockDevices.LockBuffer` | kernel/blk_drv/ll_rw_blk.c:51-58 | It locks exactly an unlocked buffer |
| `Elevator.BlockDevices.LlRwBlock` | kernel/blk_drv/ll_rw_blk.c:106-166 | When a request is queued, when it sleeps and for what, and when nothing is done, each with its exact cause; a queued buffer is locked and clean |
| `Elevator.BlockDevices.EndRequest` | kernel/blk_drv/blk.h:119-135 | The head of the queue goes, its slot is free, its buffer unlocked with the result |
| `BufferKernel.BufferCache.Bread` | fs/buffer.c:313-327 | What it returns is up to date and holds the bytes last stored for the block, under any eviction and write-back; for a block only this process stores to, its own last bytes; no buffer only after a sleep |
| `BufferKernel.BufferCache.GetBlk` | fs/buffer.c:247-297 | A held buffer of exactly the wanted block, with all invariants kept whatever happened in the sleeps; it starts over only after it has slept |
| `BufferKernel.BufferCache.Reassign` | fs/buffer.c:284-297 | Only an unreferenced, clean, unlocked buffer is given to a block, and only to one that is cached nowhere; all lists stay in order |
| `BufferKernel.BufferCache.Settle` | fs/buffer.c:274-281 | Afterwards the buffer is unreferenced, unlocked and clean, or it was lost during a sleep; without a sleep nothing has changed |
| `BufferKernel.BufferCache.FindVictim` | fs/buffer.c:255-269 | No buffer only if all are held; otherwise none that was free was better: clean and unlocked goes before clean and locked, that before dirty |
| `BufferKernel.BufferCache.GetHashTable` | fs/buffer.c:219-234 | The buffer of the block, held once more and unlocked, or proof that no buffer has it |
| `BufferKernel.BufferCache.FindBuffer` | fs/buffer.c:202-210 | The buffer of the block; none exactly when no buffer has it |
| `BufferKernel.BufferCache.WaitOnBuffer` | fs/buffer.c:37-43 | The buffer is unlocked; an unlocked one costs nothing |
| `BufferKernel.BufferCache.SyncBuffers` | fs/buffer.c:45-64 | It does not sleep if and only if no buffer is locked at the call, and then every dirty buffer is on its way to the disk and nothing else has changed; in any case what the process holds is kept |
| `BufferKernel.BufferCache.SyncDev` | fs/buffer.c:73-79 | What the process holds is kept |
| `BufferKernel.BufferCache.Forget` | fs/minix/bitmap.c:202-212 | The buffer of a freed block loses its contents exactly if nobody else uses it; no other block and no held buffer is touched |
| `BufferKernel.BufferCache.LlRwBlock` | kernel/blk_drv/ll_rw_blk.c:106-129 | For an unlocked buffer, exactly one transfer is started if there is something to do; for a locked one it sleeps first |
| `BufferKernel.BufferCache.WriteAhead` | kernel/blk_drv/ll_rw_blk.c:106-129 | A write is started or nothing happens; it never sleeps |
| `BufferKernel.BufferCache.Update` | fs/minix/file_dev.c:82-96 | The bytes stored are what the block holds from then on |
| `BufferKernel.BufferCache.Sleep` | kernel/sched.c:212-215 | Others may do anything that keeps the invariants and the buffers held here |
| `BufferKernel.BufferCache.EndRequest` | kernel/blk_drv/blk.h:119-135 | The transfer is done: the disk or the buffer has the bytes, the buffer is unlocked |
| `BufferState.AssignKeeps` | fs/buffer.c:284-297 | Giving a free buffer another block keeps all invariants, and is a step others can rely on |
| `BufferState.RenameKeeps` | fs/buffer.c:284-297 | The evicted block loses nothing, for the disk has its bytes; the new block has no other buffer |
| `BufferState.PromiseIsRely` | fs/buffer.c:247-297 | What this process does between two sleeps is what the others assume of it |
| `BufferState.UpToDate` | fs/buffer.c:313-327 | An up-to-date buffer holds the bytes last stored for its block |
| `BufferState.HeldName` | fs/buffer.c:226-232 | A held buffer keeps its block across sleeps |
| `BufferState.EndIoKeeps` | kernel/blk_drv/blk.h:119-135 | Finishing a transfer keeps all invariants, with coherent disk and cache |
| `BufferState.StoreKeeps` | fs/minix/file_dev.c:82-96 | Storing into a held buffer keeps all invariants |
| `BufferState.ForgetKeeps` | fs/minix/bitmap.c:202-212 | Giving up the contents of a buffer nobody else holds keeps all invariants |
| `BufferProcesses.SleepIsSafe` | kernel/sched.c:193-204 | For any number of processes and any run: while a process sleeps, whatever turns the others take, the buffers it holds keep their blocks and do not go out of date, and its own blocks hold its last stores |
| `BufferProcesses.RunSound` | fs/buffer.c:247-297 | In every reachable state the lists are in order, disk and cache agree, and each b_count is the sum of the references of all processes |
| `BufferProcesses.TurnKeeps` | fs/buffer.c:247-297 | One turn of one process keeps all that, and every other process finds what it relies on |
| `BufferProcesses.SoundGood` | fs/buffer.c:247-297 | Each process starts its turn with everything the code of the cache assumes |
| `BufferState.HashedUnlink` | fs/buffer.c:128-137 | The hash chains after an unlink hold exactly the other buffers |
| `BufferState.HashedLink` | fs/buffer.c:192-199 | The hash chains after a link hold the buffer in the chain of its block |
| `BufferState.RingedLeave` | fs/buffer.c:139-148 | The ring without the buffer passes through all others |
| `BufferState.RingedJoin` | fs/buffer.c:187-191 | The ring with the buffer passes through all |
| `BufferLists.UnlinkChain` | fs/buffer.c:128-137 | A doubly linked chain without one buffer, links inverse both ways |
| `BufferLists.LinkChain` | fs/buffer.c:192-199 | A doubly linked chain with one more buffer in front |
| `BufferLists.LeaveRing` | fs/buffer.c:139-148 | A ring without one buffer is still one cycle |
| `BufferLists.JoinRing` | fs/buffer.c:177-182 | A ring with one more buffer at the back is still one cycle |
| `BufferLists.TurnRing` | fs/buffer.c:173-176 | Moving the front to the back only turns the ring |
| `MinixKernel.MinixVolume.FileWrite` | fs/minix/file_dev.c:55-105 | Exactly the bytes written change, in exactly that file, and its size; fewer are written only when the volume is full |
| `MinixKernel.MinixVolume.FileRead` | fs/minix/file_dev.c:18-53 | Exactly the bytes of the file from the position on, as many as there are, zeros where no block is |
| `MinixKernel.MinixVolume.Truncate` | fs/minix/truncate.c:69-102 | Every block of the tree becomes free once, all nine pointers are zero, the size is zero, other files are untouched; it gives up only after as many busy passes as allowed |
| `MinixKernel.MinixVolume.TruncatePass` | fs/minix/truncate.c:75-95 | A pass only removes blocks of this file; it is busy exactly when a buffer was in use, and otherwise leaves no pointer |
| `MinixKernel.MinixVolume.FreeInd` | fs/minix/truncate.c:15-40 | All blocks named in it that are not busy are freed once; the block itself only when none was busy |
| `MinixKernel.MinixVolume.FreeDind` | fs/minix/truncate.c:42-67 | The same one level up |
| `MinixKernel.MinixVolume.FreeBlock` | fs/minix/bitmap.c:192-221 | The bit of exactly that block is cleared unless the count of its buffer is above one |
| `MinixKernel.MinixVolume.NewBlock` | fs/minix/bitmap.c:223-253 | The lowest block nobody owned, zeroed, its bit set; none only when every block is owned |
| `MinixKernel.MinixVolume.FindFirstZero` | fs/minix/bitmap.c:143-188 | The first clear bit of a map block, 8192 if there is none |
| `MinixKernel.MinixVolume.Bmap` | fs/minix/inode.c:16-82 | The disk block of that file block, created where wanted without changing any byte of any file; none only if absent or the volume is full |
| `MinixKernel.MinixVolume.AddInode` | fs/minix/bitmap.c:291-329 | A new inode has no blocks and changes no file |
| `MinixBlocks.AllFreed` | fs/minix/truncate.c:69-102 | The free blocks after truncation are the old ones and the blocks of the tree, in number their sum |
| `MinixBlocks.ReachedIsTree` | fs/minix/inode.c:16-82 | The blocks of the tree are exactly those some pointer of the file reaches |
| `MinixBlocks.DistinctBlocks` | fs/minix/inode.c:16-82 | Different blocks of files lie in different blocks of the disk |
| `MinixBlocks.BlockBitInverse` | fs/minix/bitmap.c:213-241 | Block to bit and bit to block are inverse, and the first zone is bit 1 of the first map block |
| `MinixBlocks.FileLayout` | fs/minix/inode.c:16-82 | Where block k of a file is named: in the inode below 7, then in word k - 7 of the indirect block, then in word (k - 519) mod 512 of the block named in word (k - 519) / 512 of the double indirect block, each a little-endian pair of bytes |
| `MinixBlocks.BlockBytes` | fs/minix/file_dev.c:18-53 | Bytes 1024 k to 1024 k + 1023 of a file are the bytes of that block, zeros where there is none |
| `MinixBlocks.BitSet` | fs/minix/bitmap.c:238-243 | Setting a bit changes the state of exactly one block |
| `MinixBlocks.AttachKeeps` | fs/minix/inode.c:16-82 | Hanging a new block into the tree keeps the volume sound |
| `MinixBlocks.AttachByte` | fs/minix/inode.c:16-82 | No byte of any file changes, for the new block is zeroed |
| `MinixBlocks.DetachKeeps` | fs/minix/truncate.c:15-102 | Removing a bare block from the tree keeps the volume sound and only prunes that file |
| `MinixBlocks.PrunedByte` | fs/minix/truncate.c:69-102 | A byte of a pruned file is what it was or zero; other files keep theirs |
| `MinixBlocks.EmptiedAll` | fs/minix/truncate.c:92-101 | With all nine pointers zero, the whole tree is gone and freed |
| `MinixBlocks.PatchByte` | fs/minix/file_dev.c:82-95 | Exactly the bytes written change, in exactly one file |
| `MinixBlocks.PatchKeeps` | fs/minix/file_dev.c:82-95 | Writing bytes moves no pointer, keeps the volume sound and the bytes past the size zero |
| `MinixBlocks.AddInodeGood` | fs/minix/bitmap.c:291-329 | A new inode keeps the volume sound and all bytes |
| `MinixNames.Directories.Rename` | fs/minix/namei.c:677-771 | It succeeds exactly under the conditions the source checks, and each error has its exact cause; then exactly the two entries, the ".." of a moved directory and the link counts change; the tree survives if and only if no file was put over a directory |
| `MinixNames.Directories.Mkdir` | fs/minix/namei.c:343-402 | An empty directory under an unused name, its parent one link more, nothing else changed; the errors with their exact causes |
| `MinixNames.Directories.Rmdir` | fs/minix/namei.c:451-500 | It succeeds exactly for an unused, empty directory other than the parent itself, and then removes exactly it; each error has its exact cause |
| `MinixNames.Directories.Create` | fs/minix/namei.c:271-301 | A new file under the name, nothing else changed; fails exactly without inode or room |
| `MinixNames.Directories.Unlink` | fs/minix/namei.c:502-539 | It succeeds exactly for a file; the entry is cleared and one link gone, nothing else changes; each error has its exact cause |
| `MinixNames.Directories.FindEntry` | fs/minix/namei.c:93-138 | The first used entry of that name cut to 14 characters, or none |
| `MinixNames.Directories.AddEntry` | fs/minix/namei.c:212-269 | The first unused entry, or one at the end; it fails exactly for an empty name, or when no block is found and all entries are used and fill whole blocks of 1024 bytes at 16 bytes each |
| `MinixDirs.EntriesInBlocks` | include/linux/minix_fs.h:10-44 | A block holds 64 entries, and entry i lies in block i / 64 of the directory |
| `MinixDirs.Trunc` | fs/minix/namei.c:105-109 | A name of more than 14 characters stands for its first 14 |
| `MinixNames.Directories.EmptyDir` | fs/minix/namei.c:407-449 | True exactly when no entry after ".." is used |
| `MinixNames.Directories.Subdir` | fs/minix/namei.c:633-659 | The climb ends and detects exactly the ancestors |
| `MinixDirs.ReachesRoot` | fs/minix/namei.c:633-659 | In a tree every directory reaches the root by ".." |
| `MinixDirs.ClimbStep` | fs/minix/namei.c:643-656 | One turn of the climb goes up, towards the same answer |
| `MinixDirs.MoveDirKeeps` | fs/minix/namei.c:746-760 | Moving a directory outside itself keeps the tree: ".." names the real parent, links are 2 plus subdirectories |
| `MinixDirs.MoveFileKeeps` | fs/minix/namei.c:746-750 | Moving a file into a free entry or over a file keeps the tree |
| `MinixDirs.MoveAfterAdd` | fs/minix/namei.c:716-760 | The checks of rename are enough for the move |
| `MinixDirs.FileOver` | fs/minix/namei.c:704-750 | Putting a file over an entry keeps the tree if and only if the entry names no directory |
| `MinixDirs.ReplaceBreaks` | fs/minix/namei.c:704-750 | A file put over a directory leaves no tree, whatever is taken for depths |
| `MinixDirs.SampleBreaks` | fs/minix/namei.c:704-750 | A concrete tree that such a rename destroys |
| `MinixDirs.AddDirKeeps` | fs/minix/namei.c:343-402 | Adding an empty directory keeps the tree |
| `MinixDirs.RemoveDirKeeps` | fs/minix/namei.c:451-500 | Removing an empty directory keeps the tree, and its link count was 2 |
| `MinixDirs.DotsNotRemovable` | fs/minix/namei.c:469-480 | Neither "." nor ".." can be what rmdir removes |
| `PathWalk.Walker.Namei` | fs/namei.c:152-176 | For every graph of links, cycles included, the walk ends with the inode the path means and all counts as before but one on it |
| `PathWalk.Walker.OpenNamei` | fs/namei.c:200-255 | When it succeeds and with which inode, the exact cause of each error, and on every path all counts balanced |
| `PathWalk.Walker.DirNamei` | fs/namei.c:114-150 | The directory and last name of the path, the reference to the start used up |
| `PathWalk.Walker.FollowLink` | fs/namei.c:94-106 | The target of a link within the budget of links, both references used up |
| `PathWalk.Walker.Lookup` | fs/namei.c:61-92 | The entry or the error, the reference to the directory used up |
| `PathWalk.Walker.Iget` | fs/inode.c:191-246 | One reference more, to the root of what is mounted there |
| `PathWalk.Walker.Iput` | fs/inode.c:96-139 | One reference less, and it was there |
| `PathMeaning.PathJoin` | fs/namei.c:114-176 | "p/q" is "q" from the directory "p" leads to, for all paths p and q |
| `PathMeaning.DirJoin` | fs/namei.c:114-150 | The same of the directory part: the first path is walked to its end, links included, before the second starts |
| `PathMeaning.NameAlone` | fs/namei.c:152-176 | A name without a slash is the entry of that name in the directory it starts from, followed if it is a link |
| `PathMeaning.LookupStep` | fs/namei.c:61-92 | A name is found exactly in a directory that may be searched and has the entry, across mount points; -EACCES and -ENOENT exactly otherwise |
| `PathMeaning.DotDot` | fs/namei.c:61-92 | ".." of the root is the root; of a mounted root, the parent of the directory it covers |
| `PathMeaning.DownAndUp` | fs/namei.c:61-92 | Into a mounted volume and out by ".." leads back |
| `PathMeaning.AnyPwd` | fs/namei.c:114-176 | A walk with a base, or of an absolute path, does not depend on the working directory, whatever links it meets |
| `PathMeaning.FollowAnyPwd` | fs/minix/namei.c:139-174 | What a link stands for does not depend on the working directory |
| `PathMeaning.FromRoot` | fs/namei.c:114-150 | An absolute path does not depend on the directory it is read in |
| `PathMeaning.FromPwd` | fs/namei.c:114-150 | A relative path without a base starts from the working directory |
| `PathMeaning.LinkToName` | fs/minix/namei.c:167-167 | A link whose text has no slash stands for the entry of that name in the directory the link was found in |
| `PathMeaning.LinkToPath` | fs/minix/namei.c:167-167 | A link whose text is a relative path is walked from the directory the link was found in |
| `PathMeaning.LinkFromRoot` | fs/minix/namei.c:167-167 | A link with absolute text does not depend on that directory |
| `PathMeaning.ChainFollowed` | fs/minix/namei.c:158-170 | A chain of links leads to its end if it has at most as many links as the budget, which starts at six, and nowhere otherwise |
| `MallocKernel.Allocator.Malloc` | lib/malloc.c:117-186 | A new object of the least power of two from 16 to 4096 that is large enough, all live ones and their contents kept; a page is taken exactly when no object of that size is free; it fails exactly for too large a request or for want of pages |
| `MallocKernel.Allocator.FreeS` | lib/malloc.c:195-244 | Exactly that object is no longer live; its page goes back exactly when it was the last one; no descriptor is lost |
| `MallocKernel.Allocator.InitBucketDesc` | lib/malloc.c:97-115 | 256 new spare descriptors, nothing else changed |
| `MallocKernel.Allocator.ThreadPage` | lib/malloc.c:172-177 | The free objects of the page in a chain, other pages untouched |
| `MallocKernel.Allocator.PickSize` | lib/malloc.c:127-134 | The smallest size that is large enough |
| `MallocKernel.Allocator.FindBucket` | lib/malloc.c:138-141 | A bucket of that size with a free object; none exactly when all are used up |
| `MallocKernel.Allocator.UserWrite` | lib/malloc.c:117-186 | Anything may be written into a live object |
| `MallocKernel.Allocator.FindPage` | lib/malloc.c:203-216 | The bucket of the page |
| `MallocKernel.Allocator.FindPrev` | lib/malloc.c:226-230 | The descriptor before the bucket, whatever was found earlier |
| `MallocState.LiveApart` | lib/malloc.c:117-186 | Live objects are pairwise disjoint |
| `MallocState.UserApart` | lib/malloc.c:117-186 | No word of a free chain lies in a live object |
| `MallocState.ObjectsApart` | lib/malloc.c:172-177 | Objects of a page are at least their size apart |
| `MallocState.BucketFacts` | lib/malloc.c:52-95 | In each bucket the count and the free chain make up the page |
| `MallocState.EmptyBucket` | lib/malloc.c:221-243 | A count is zero exactly when no object of the page is live |
| `MallocState.TakeKeeps` | lib/malloc.c:181-185 | Taking an object keeps the heap sound and makes exactly it live |
| `MallocState.GiveKeeps` | lib/malloc.c:217-220 | Giving an object back keeps the heap sound and ends exactly its life |
| `MallocState.DropKeeps` | lib/malloc.c:221-243 | Dropping an empty bucket keeps the heap sound and all live objects |
| `MallocState.NewBucketKeeps` | lib/malloc.c:152-179 | A new bucket keeps the heap sound and all live objects |
| `MallocState.StockKeeps` | lib/malloc.c:97-115 | New descriptors keep the heap sound, each in exactly one list |
| `MallocState.UserKeeps` | lib/malloc.c:117-186 | Writing into a live object keeps the heap sound |
| `MathMulDiv.Mul64` | kernel/math/mul.c:22-44 | The exact 128-bit product; no carry is lost |
| `MathMulDiv.Div64` | kernel/math/div.c:40-61 | For a divisor whose top bit is set, the exact floor of the quotient |
| `MathMulDiv.FMul` | kernel/math/mul.c:46-73 | The product of the two signed values, cut toward zero by less than one unit of the last place; negative exactly when one operand is; overflow, underflow and zero exactly where they are |
| `MathMulDiv.FDiv` | kernel/math/div.c:63-109 | The quotient of the two signed values, cut toward zero by less than one unit of the 64-bit quotient before normalisation; negative exactly when one operand is; zero divide, underflow and overflow exactly where they are |
| `MathMulDiv.TrySub` | kernel/math/div.c:28-38 | The difference, and success exactly when there is no borrow |
| `MathMulDiv.TrialStep` | kernel/math/div.c:47-60 | One trial subtraction gives one quotient bit |
| `MathMulDiv.Normalise` | kernel/math/mul.c:63-67 | The number shifted up until the top bit is set or the exponent is used up |
| `MathMulDiv.ShiftUp` | kernel/math/div.c:86-89 | The divisor shifted until its top bit is set |
| `MathMulDiv.Deliver` | kernel/math/div.c:91-108 | The result of a quotient: normalised, overflow kept out, denormals flagged |
| `MathMulDiv.DividedTaken` | kernel/math/div.c:47-60 | A subtraction that succeeds keeps the division invariant |
| `MathMulDiv.DividedSkipped` | kernel/math/div.c:47-60 | One that fails keeps it too |
| `MathMulDiv.Finished` | kernel/math/div.c:40-61 | After 64 steps the bits are the floor of the quotient |
| `MathConvert.ShortRoundTrip` | kernel/math/convert.c:21-79 | Every 32-bit real survives the way to a temporary real and back, in every rounding mode |
| `MathConvert.LongRoundTrip` | kernel/math/convert.c:38-114 | A 64-bit real survives if and only if the mode is not directed away with the tested bits set; always in modes nearest and chop |
| `MathConvert.ShortToTempValue` | kernel/math/convert.c:21-36 | A 32-bit real becomes a temporary real of the same value and sign if and only if it is no denormal |
| `MathConvert.LongToTempValue` | kernel/math/convert.c:38-53 | The same of 64-bit reals |
| `MathConvert.ShortRounding` | kernel/math/convert.c:55-79 | For every normalised temporary real in range and each mode: the result is less than one unit away, keeps the sign, and is rounded as the mode asks exactly under a condition on the bits dropped; ties go toward zero |
| `MathConvert.LongRounding` | kernel/math/convert.c:81-114 | The same of 64-bit reals: nearest is always right, with ties toward zero, and the directed modes exactly when the byte they test is zero just if the bits dropped are |
| `MathConvert.Unnormalised` | kernel/math/convert.c:55-114 | A mantissa without its top bit always comes out too large, by about the missing bit |
| `MathConvert.MisroundedExample` | kernel/math/convert.c:101-112 | A 64-bit real that rounding down changes |
| `MathConvert.LongAddsOne` | kernel/math/convert.c:94-113 | One is added exactly in the misrounded cases |
| `MathConvert.LongTruncated` | kernel/math/convert.c:38-92 | Without rounding, the way back restores all bits |
| `MathBcd.BcdRoundTrip` | kernel/math/get_put.c:110-240 | Every integer of at most 18 digits survives real, BCD and back, but for zero when rounding up |
| `MathBcd.IntToReal` | kernel/math/convert.c:238-254 | The normalised real whose value is the integer, with its sign |
| `MathBcd.RealOfValue` | kernel/math/convert.c:238-254 | That real is the integer exactly |
| `MathBcd.RealToInt` | kernel/math/convert.c:183-236 | The integer rounded in the current mode, with its sign; overflow is flagged exactly for exponents of 64 bits and more |
| `MathBcd.RoundWords` | kernel/math/convert.c:215-235 | One is added exactly when the mode rounds up |
| `MathBcd.RoundBit` | kernel/math/convert.c:215-235 | The carry of the source's additions says exactly when to round up |
| `MathBcd.RoundedExact` | kernel/math/convert.c:183-254 | An integer that became a real comes back, but for zero rounded up |
| `MathBcd.RoundedValue` | kernel/math/convert.c:183-236 | For every real below 2^64: the integer is the floor or one more, ties go to even, and it is rounded as the mode asks exactly under a condition on the fraction |
| `MathBcd.FixedUnits` | kernel/math/convert.c:194-214 | The 96 bits that are kept stand for the number but for less than one in the last |
| `MathBcd.RoundedFits` | kernel/math/convert.c:183-236 | Rounding never leaves 64 bits |
| `MathBcd.GetBcd` | kernel/math/get_put.c:110-129 | The real of the decimal number in the bytes, whatever their nibbles, with its sign |
| `MathBcd.PutBcd` | kernel/math/get_put.c:219-240 | The last 18 digits of the rounded number and its sign |
| `MathBcd.Div10` | kernel/math/get_put.c:214-217 | Quotient and remainder by ten of the two-word number |
| `MathBcd.DigitsDecimal` | kernel/math/get_put.c:110-240 | Digits written and read again are the number modulo the power of a hundred |
| `MathBcd.DecimalDigit` | kernel/math/get_put.c:110-129 | Digit i of the number is half of byte i / 2, the low half first |
| `Scheduler.BoundedWait` | kernel/sched.c:145-162 | With priorities fixed, a task that stays runnable is picked within twice the sum of 2*priority-1 over the other tasks, and what task 0 has left, in user-mode ticks |
| `Scheduler.StepUses` | kernel/sched.c:340-378 | Each user-mode tick uses up some of that bound and no other event adds to it |
| `Scheduler.PatienceBound` | kernel/sched.c:145-162 | The measure never exceeds that bound |
| `Scheduler.PatienceLasts` | kernel/sched.c:145-162 | Over any run the ticks spent come off the measure |
| `Scheduler.ScheduleFacts` | kernel/sched.c:145-162 | Choosing a task does not raise the measure, and the choice has time left |
| `Scheduler.RechargeKeeps` | kernel/sched.c:157-160 | Counters stay below twice the priority and are positive after a recharge |
| `Scheduler.RechargeGap` | kernel/sched.c:157-160 | What a task lacks of twice its priority is halved by a recharge, rounding up |
| `Scheduler.SleeperFills` | kernel/sched.c:157-160 | After n recharges a sleeper that lacked at most 2^n has 2 * priority - 1, the most it can have |
| `Scheduler.SleeperFirst` | kernel/sched.c:157-160 | After a recharge a sleeper with some time left is ahead of every task of its priority whose time was spent |
| `Scheduler.Processor.Schedule` | kernel/sched.c:145-162 | It recharges at most once and picks a runnable task with the most time left |
| `Scheduler.Processor.Scan` | kernel/sched.c:146-155 | The most time left among the runnable, and who has it |
| `Scheduler.Processor.Tick` | kernel/sched.c:374-377 | The running task pays, task 0 as well; in user mode with nothing left another is chosen |
| `Scheduler.Processor.Nice` | kernel/sched.c:420-428 | A raise is refused to all but the superuser; the new priority is positive unless the increment equals the old one |

## Left out

- Task 0: its identity map of all memory and the fork from it (frames below LOW_MEM are never counted, mm/memory.c:209); `Spawn` starts a task that maps nothing.
- Page table words are kept in a map from places to entries, not in the bytes of the frame that holds the table.
- Disk transfers of pages are atomic and succeed: no other task runs inside one paging operation.
- `oom()` and its do_exit become an outcome of the operation; `gaveUp` counts how often get_free_page gave up.
- Kernel writes to user pages (verify_area, write_verify) and the thrashing check of do_no_page (last_pages).
- The branches that print "bad page address" and the like, which the invariant excludes.
- i_count of an executable is a parameter of page sharing.
- PagingKernel.Memory.FreePageTables: clears the directory entry together with its table, after the entries and not before them, because nothing runs in between.
- PagingKernel.Memory.TryToShare: requires the table of the receiving page to be there, as it always is when do_no_page calls it.
- PrivateMemory.Machine.Exec: a task inside exec does nothing but sleep until ExecEnd, and nobody kills it; of its close-on-exec files only the sleep is modelled.
- PrivateMemory.Machine.Run: stops at the first misled access, after which the bytes of that page are another task's.
- PrivateMemory.Machine.Install: stands for all argument pages of exec, one page at a time.
- add_timer, alarms and itimers; the floppy timer in do_timer; signals beyond what they do to a sleeper.
- Scheduler.BoundedWait: alarms, timeouts and signals are changes of state of other tasks.
- Task 0 never sleeps; the flags saved by __sleep_on are not modelled.
- Swap requests in the request queue; the driver's request_fn; I/O errors and retries of the drivers.
- BufferKernel.BufferCache.Sleep: its body stands for no other process; callers know its contract only.
- BufferKernel.BufferCache.LlRwBlock: takes a locked buffer as one whose transfer is under way; waiting for a request slot is in the elevator only.
- BufferKernel.BufferCache.GetBlk: `patience` bounds the jumps back, which nothing the process does can bound.
- BufferKernel.BufferCache.SyncBuffers: promises nothing of other buffers when some buffer is locked at the call, because others may move buffers behind the walk.
- BufferKernel.BufferCache.SyncDev: sync_inodes counts as a sleep.
- b_count as a byte; writes that fail; invalidate_buffers, check_disk_change, put_first_free and breada.
- MinixKernel.MinixVolume.Truncate: `patience` bounds the passes that find a buffer busy; `refusals` counts the busy buffers.
- MinixKernel.MinixVolume.FreeBlock: the count of the buffer is a parameter, any number; the buffer half is BufferKernel.BufferCache.Forget.
- MinixKernel.MinixVolume.AddInode: stands for the inode bit map, whose search is that of the zone map.
- Failing reads of file and map blocks, the dates of inodes, and the type check of minix_truncate.
- MinixNames.Directories.Rename: runs without interference, so the check that sends it back to the start always passes.
- Directories on mounted volumes, holes in directories, link counts as a byte, minix_link, minix_symlink and minix_mknod.
- An unlinked inode stays in the model; its release by iput is not part of it.
- PathWalk.Walker.Iput: does not release inodes of deleted files, write them back or handle pipes.
- PathWalk.Walker.Iget: the search of the inode table, which a sleep may split from the fill, is not part of it.
- PathWalk.Walker.OpenNamei: permissions and the new inode are parameters; what the walk reads stays as it is while it runs.
- MallocKernel.Allocator.Malloc: get_free_page is two parameters, a panic the result 0; interrupts are off where the source turns them off.
- MallocKernel.Allocator.FindPrev: any `prev` at all stands for what an interrupt may have done before cli().
- Bucket descriptors are kept in a map from addresses to records; refcnt is unbounded, and never exceeds 256.
- Status flags of the emulator other than those returned, and the precision flag; frndint, fadd, comparison, the opcode decoder and the effective address.
- Exponents out of the range of the smaller format wrap around unchecked; no value is promised for them, nor for infinities and NaNs, which the conversions take for numbers.
- Drivers, the console, terminals, pipes, ptrace, system call stubs, boot code and assembly, but for its meaning.
