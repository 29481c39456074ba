# LycheeOS in Dafny

A model of four parts of the LycheeOS kernel, and of its clock arithmetic, with proofs of what they
promise.

- **Copy-on-write paging** (`Paging*.dfy`). Frames carry a byte count of references, fork shares them
  read-only, a write fault splits them. Over every run the counts are exactly the references, and the
  shared frames behave as private memory: page by page (`PagingRefinement.dfy`), and byte by byte at
  linear addresses, as the processor walks from address to frame (`PagingAddresses.dfy`,
  `PagingPrivate.dfy`).
- **Files over a buffer cache** (`Files*.dfy`, `Cache*.dfy`, `BlockDev.dfy`, `BufferCache.dfy`). The
  tree of 7 + 512 + 512 * 512 block pointers, the data map, truncate, reading and writing, first on a
  plain disk; the write-back cache, which shows a logical disk of valid cached blocks laid over the
  device; and the file operations carried out on the buffers of that cache (`FilesCached.dfy`),
  proved to be those on the plain disk, call by call and over whole runs (`FilesSeen*.dfy`,
  `FilesQuiet*.dfy`, `FilesCachedRuns.dfy`).
- **Scheduler and wait chains** (`Sched*.dfy`, `Scheduler.dfy`, `WaitChain.dfy`). Tick budgets with a
  halving refill, and the chain of sleepers threaded through their stacks.
- **Disk requests** (`Elevator.dfy`, `Disk*.dfy`, `HardDisk.dfy`). The elevator queue over a pool of 32
  slots, and transfers driven by interrupts with bounded retries; `DiskCache.dfy` and
  `DiskCacheRuns.dfy` show that the requests of the cache, served by this machine, do what the cache
  model says of its device.
- **Time** (`Ktime.dfy`). Seconds since 1970 in 32-bit arithmetic.

Each part has a state as a datatype with its operations as functions on it, lemmas about single
operations and about whole runs, and a class in which the operations are carried out in place, with
arrays and loops, and proved equal to those functions. `Base.dfy` holds what all parts share. A
function such as `Paging.Memory.Abs` or `Files.FileSystem.Abs` gives the state that an object stands
for. Hardware answers are parameters: which blocks cannot be read (`bad`), whether a device answers
(`ok`), what an interrupt reports.

`dafny verify dfyconfig.toml` checks everything.

## Repairs

Several lines of the kernel do not do what the comments beside them say, and most operations could
not work with them as they stand. The model has the repaired line; where a module name follows, that
module also has the line as written and states exactly when it is right.

Paging:

- mm/memory.c:58-74: get_phy_page never marks the frame used. (PagingAsWritten)
- mm/memory.c:95: free_phy_page tests `mem_map[0]` for `mem_map[i]`. (PagingAsWritten)
- mm/memory.c:139: free_page_tables counts `size`, not the number of directory entries.
  (PagingAsWritten)
- mm/memory.c:167 calls a function that does not exist where free_phy_page is meant.
- mm/memory.c:144, mm/memory.c:225, mm/memory.c:263: `continue` skips the pointer advance, and the
  directory pointers never advance. (PagingAsWritten)
- mm/memory.c:207-208: the address of the page directory is not added.
- mm/memory.c:314, mm/memory.c:353: map_page reads a variable before it is set, joins the two
  bounds with `&&`, and returns the wrong variable.
- kernel/fork.c:41-42: copy_memory sets the parent's segment bases.
- kernel/fork.c:45: success is taken for failure. (PagingAsWritten: never right)

Scheduler:

- kernel/sched.c:57: unsigned ticks are compared with -1. (SchedAsWritten)
- kernel/sched.c:79-80: the shift is by 1 + priority. (SchedAsWritten)
- kernel/sched.c:86: with nobody runnable the process to switch to is not set; the model stays with
  the current one.
- kernel/buffer.c:41 and other callers pass the address of a wait head to wake_up, which takes a
  process. (WaitChain)

Files:

- fs/bitmap.c:94: new_block clears the map's changed flag; fs/bitmap.c:102 and fs/bitmap.c:124 do not
  return a value.
- fs/bitmap.c:48: the header of the map buffer is passed for its data.
- fs/inode.c:101: the limit should be `>=`. (FilesAsWritten.LimitOffByOne)
- fs/inode.c:122-156: the single-indirect block is read only in the branch that allocates it, and
  fs/inode.c:152 stores at the wrong index. (FilesAsWritten)
- fs/inode.c:196-203, fs/inode.c:222-228: the buffers of index blocks are not marked changed.
  (CacheRuns.UnmarkedIsLost)
- fs/truncate.c:32-38, fs/truncate.c:64-70: the pointers never move, and the second loop makes one turn
  too many. (FilesAsWritten)
- fs/truncate.c:95-99: empty direct slots are freed. (FilesAsWritten)
- fs/file_dev.c:114: the loop test of file_read is inverted. (FilesAsWritten.ReadAgrees)
- fs/file_dev.c:41, fs/file_dev.c:44: so is that of file_write, which also compares where it should
  assign, on a variable that is not set; file_write does not grow the size and file_read does not
  store the offset.

Cache and disk:

- kernel/buffer.c:147-150: nobody clears the changed flag when a write is done, so the loop does not
  end; the model clears it in end_request. (CacheRuns.WriteLoopNeverEnds)
- kernel/buffer.c:65: `ll_rw` means rw_blk.
- kernel/blk/rw_blk.c:129: the pool initialiser writes one slot too many.
- kernel/blk/hd.c:330-333: the bounds test uses the request's length instead of the partition's, lets
  one minor number too many through (DiskAsWritten.OneMinorTooMany), and goes on after ending the
  request. (DiskAsWritten)
- kernel/blk/hd.c:324: an empty queue is dereferenced.
- kernel/blk/hd.c:44-48: the handler of the last command stays installed, and int_unexpected_hd
  (kernel/blk/hd.c:245) never is; an interrupt on an empty queue would work on a null request. The
  model ignores it.

The test `block + 2` at kernel/blk/hd.c:330 is kept as it is for retries as well;
`DiskAsWritten.LastBlockIsNotRetried` says what follows. sys_pause is kept as written too: its comment
speaks of sleeping, the code only gives way (`SchedAsWritten.PauseOnlyYields`). The factor 4 in
kernel/blk/rw_blk.c:114 (`block << 2`, for blocks of two sectors) is kept.

## Model

| member | source | states |
|---|---|---|
| `Paging.Memory.constructor` | mm/memory.c:478-496 | the machine after start-up: no frame counted, no process table, the kernel's identity tables and the 640KB of process 0 below main memory (the state `Booted`, which satisfies the invariant) |
| `Paging.Memory.GetPhyPage` | mm/memory.c:51-75 | the first frame with count 0 is marked used, zeroed and returned; 0 and no change if there is none |
| `Paging.Memory.FreePhyPage` | mm/memory.c:82-102 | frames outside main memory and free frames are left alone, any other loses one reference |
| `Paging.Memory.FreePageTables` | mm/memory.c:112-181 | every present entry of the range gives up its frame, then each table is given up; a bad address changes nothing |
| `Paging.Memory.ClearTable` | mm/memory.c:147-165 | one table: each present entry gives up its frame and becomes absent |
| `Paging.Memory.CopyPageTables` | mm/memory.c:193-298 | the slots of the range in order: stops at the first slot without a free frame or with a table of the child, skips the parent's absent slots |
| `Paging.Memory.CopyEntry` | mm/memory.c:258-290 | one entry: the child gets the frame read-only; in main memory the parent loses its write bit too and the byte count goes up |
| `Paging.Memory.CopyMemory` | kernel/fork.c:18-53 | the whole of copy_memory with its checks of base and limit and its rollback |
| `Paging.Memory.MapPage` | mm/memory.c:309-354 | the entry at the address takes the frame; a missing table is made first, and 0 is returned with no change if that fails |
| `Paging.Memory.GetEmptyPage` | mm/memory.c:454-474 | a fresh zero page at the address, or everything as before |
| `Paging.Memory.DoWpPage` | mm/memory.c:370-410 | the write fault: an unshared frame becomes writable, a shared one is copied and its count goes down |
| `Paging.Memory.MoveTo` | mm/memory.c:389-406 | the splitting half of the fault: new frame, new contents, old count minus one |
| `PagingInvariant.FreeMeansNoRefs` | mm/memory.c:42 | a frame with count 0 is in no directory entry, no table entry and no kernel hand |
| `PagingInvariant.TablesAreNotMapped` | mm/memory.c:193-298 | no page of any process is a page table of any process |
| `PagingInvariant.MappedAlone` | mm/memory.c:382-403 | a frame with count 1 is mapped by one entry of one process only |
| `PagingSteps.SharersBounded` | kernel/fork.c:39 | a mapped frame has at most one reference in each process window, so the byte counter cannot overflow |
| `PagingSteps.ClearEntryKeeps` | mm/memory.c:154-160 | giving up one entry keeps the invariant and changes no other entry |
| `PagingSteps.CopyEntryKeeps` | mm/memory.c:258-290 | sharing one entry keeps counts equal to references, leaves the frame writable through none of them, and touches only the two entries |
| `PagingSteps.CopyEntriesKeeps` | mm/memory.c:253-291 | the child's table holds the parent's frames, no other entry changes its frame, and outside the two slots none changes at all |
| `PagingTables.GetPhyPageKeeps` | mm/memory.c:51-75 | the frame handed out was referred to by nothing, is zero, and is now held once; every mapped page keeps its contents |
| `PagingTables.GaveKeeps` | kernel/fork.c:118-124 | giving back a frame that the kernel had taken keeps the invariant, every entry and every page |
| `PagingTables.InstallTableKeeps` | mm/memory.c:231-246 | making a held zero frame a process's table keeps the invariant |
| `PagingTables.DropTableKeeps` | mm/memory.c:166-170 | dropping an empty table keeps the invariant and every other entry |
| `PagingFork.FreeSlotsKeeps` | mm/memory.c:112-181 | free_page_tables unmaps exactly its slots, keeps the invariant, every other entry and all page contents |
| `PagingFork.CopySlotsKeeps` | mm/memory.c:193-298 | copy_page_tables with every outcome: what the child's slots hold, that nothing outside parent and child changes, and that a halt means the child had a table |
| `PagingFork.ForkCopies` | kernel/fork.c:18-53 | after a successful fork every page of the child equals the parent's page and nobody else's pages changed |
| `PagingFork.ForkRollsBack` | kernel/fork.c:45-49 | when frames run out at any point, the rollback restores every count, the directory and every page; outside the parent no entry changed, inside it at most write bits were cleared |
| `PagingFork.ForkNeverHalts` | mm/memory.c:216-236 | a fork into an empty process slot ends with success or with the lack of a frame, never with the halt |
| `PagingFork.SameRefsSameCounts` | mm/memory.c:42 | the counts are determined by the entries and the held frames |
| `PagingFrames.TookFrame` | mm/memory.c:51-75 | get_phy_page fails exactly when no count is 0, and otherwise takes the first such frame and no other |
| `PagingFrames.ForkFrames` | mm/memory.c:210-299 | a fork into empty slots succeeds exactly when a frame is free for each table that the parent has there |
| `PagingFrames.GetEmptyPageFrames` | mm/memory.c:454-474 | get_empty_page succeeds exactly when there is a frame for the page, and one more if its table is missing |
| `PagingProcess.CopyProcessKeeps` | kernel/fork.c:65-124 | copy_process succeeds exactly when there is a frame for the record and one for each table of the parent; then the record has a frame that nothing else uses and the child's pages are the parent's; when any frame is missing, every count, the directory, the kernel's frames and every page are as before |
| `PagingWrites.DoWpPageKeeps` | mm/memory.c:370-410 | the fault keeps the invariant and every page, and the entry is writable afterwards exactly when the frame was unshared or a frame was free |
| `PagingWrites.UserWriteKeeps` | mm/memory.c:370-410 | a store by a process changes that byte of its own page and of no other page; it fails exactly when the page is absent, or shared with no frame free |
| `PagingMap.MapPageExact` | mm/memory.c:309-354 | map_page fails exactly when a table is missing and no frame is free; it keeps the invariant exactly when the entry did not already hold a main-memory frame |
| `PagingMap.EnterLeaks` | mm/memory.c:309-354 | mapping over a present page leaves the old frame's count one too high |
| `PagingMap.GetEmptyPageKeeps` | mm/memory.c:454-474 | success adds a zero page and changes nothing else, failure changes nothing at all |
| `PagingRefinement.StepRefines` | mm/memory.c:193-410 | fork, exit, store, new page and the kernel's own frames each act on the shared frames as on one private map from (process, address) to page |
| `PagingRefinement.RunRefines` | mm/memory.c:193-410 | over every run each process reads what it would read with a private copy of its memory |
| `PagingRefinement.BootKeeps` | mm/memory.c:478-496 | the state after start-up satisfies the invariant |
| `PagingRefinement.EveryRunIsSound` | mm/memory.c:42 | over every run from start-up, with frames that the kernel takes, stores to and gives back: the count of each main-memory frame is its number of references in table entries, directory entries and kernel hands, at most one a process, and a frame with two is writable through none |
| `PagingRefinement.KernelWriteSeen` | mm/memory.c:86-90 | a kernel store to a low frame is seen by a process exactly when it maps that frame and the byte differs |
| `PagingAddresses.Indices` | mm/memory.c:33-36 | the directory and table index of an address are its bits 22-31 and 12-21; with the offset they give the address back |
| `PagingAddresses.SlotsForIs` | mm/memory.c:211 | the number of tables for a size is that size in 4MB, rounded up; past 2^32 - 4MB the sum wraps to none |
| `PagingAddresses.FreeLeftAlone` | mm/memory.c:119-132 | a range off a 4MB boundary, or from inside physical memory, is left alone |
| `PagingAddresses.FreeByAddress` | mm/memory.c:112-181 | after free_page_tables no byte reads from any 4MB slot that the range touches, and every other byte of every process reads as before |
| `PagingAddresses.CopyMisaligned` | mm/memory.c:200-204 | copy_page_tables fails for an address off a 4MB boundary, exactly, and copies nothing then |
| `PagingAddresses.ForkByAddress` | kernel/fork.c:18-53 | copy_memory at linear addresses: it succeeds exactly when there are frames for the parent's tables; then each byte of the child, by the processor's own walk, is the parent's, and each other byte of linear memory is as before; if it fails every byte, count and directory slot is as before |
| `PagingAddresses.ChildReadsParent` | kernel/fork.c:39-49 | in particular every byte below the limit, and the first 640KB when the parent is process 0 |
| `PagingAddresses.UnequalSegmentsHalt` | kernel/fork.c:23-37 | copy_memory halts exactly when the two bases or the two limits differ, before it has copied anything |
| `PagingAddresses.FaultByAddress` | mm/memory.c:370-410 | do_wp_page at an address changes no byte anywhere; the page that holds the address can be written afterwards exactly when it could be, or is not shared, or some frame is free; no other page changes its write bit |
| `PagingAddresses.StoreByAddress` | mm/memory.c:370-410 | a store at an address, with its fault, changes that byte and no other byte of any process; it fails exactly when the address is not mapped, or its page is shared and no frame is free |
| `PagingAddresses.MapRefused` | mm/memory.c:313-325 | map_page refuses a frame outside main memory or one not counted exactly once, and changes nothing |
| `PagingAddresses.MapByAddress` | mm/memory.c:309-354 | otherwise the page of the address is the frame and writable, and every other byte is as before; it fails exactly when a table is missing and no frame is free |
| `PagingAddresses.GrowByAddress` | mm/memory.c:454-474 | get_empty_page at an address makes its page read 0 and writable, and no other byte changes; when it fails nothing does |
| `PagingPrivate.StepFollows` | mm/memory.c:112-474 | fork, exit, store, new page and the kernel's own frames: each byte of linear memory afterwards is one stored now, 0, gone, or one of the bytes before, and this says which |
| `PagingPrivate.BytesArePrivate` | mm/memory.c:112-474 | over every run each byte of each process is what it stored there last, or else what its parent had there at the fork, and so on back |
| `PagingPrivate.EveryRunIsPrivate` | init/kmain.c:56-64 | in particular from start-up, with physical memory ending at 64MB or below, when only process 0 has any memory |
| `PagingAsWritten.UnmarkedFrame` | mm/memory.c:58-74 | without the missing line get_phy_page hands out one frame for ever; it is right exactly when no frame is free |
| `PagingAsWritten.WrongGuard` | mm/memory.c:95 | testing mem_map[0]: exactly when free_phy_page then does the right thing |
| `PagingAsWritten.SkippedAdvance` | mm/memory.c:263 | with the skipped pointer advance a table is copied whole exactly when no present entry follows an absent one |
| `PagingAsWritten.StuckDirectory` | mm/memory.c:214-226 | with the directory pointers never moving, copying into empty slots is right exactly for at most one slot, when the first finds no frame, or when there is no table to copy |
| `PagingAsWritten.FreesTooMuch` | mm/memory.c:139-144 | counting bytes for slots and stopping at an absent one, free_page_tables is right exactly when the present slots of the range come first and do not run on into the next process, or off the end of the directory |
| `PagingAsWritten.NoForkSucceeds` | kernel/fork.c:45 | with success taken for failure copy_memory reports the opposite of what happened, unless it halts: a child whose pages were copied loses them, and one that has none is said to have them |
| `Scheduler.Scheduler.constructor` | kernel/sched.c:234-240 | process 0 alone with 15 ticks and priority 15 |
| `Scheduler.Scheduler.FindMost` | kernel/sched.c:43-62 | the loop returns the largest tick count of a runnable process and the first slot that has it |
| `Scheduler.Scheduler.RefillAll` | kernel/sched.c:75-82 | every process, asleep or not, gets ticks / 2 + priority |
| `Scheduler.Scheduler.Schedule` | kernel/sched.c:34-87 | the loop ends unless all runnable processes have neither ticks nor priority; it switches to the process chosen before or after one refill, and changes nobody's state |
| `Scheduler.Scheduler.IrqTimerHandler` | kernel/sched.c:188-211 | the unsigned decrement, and the switch when no tick is left |
| `Scheduler.Scheduler.SysPause` | kernel/sched.c:226-231 | the caller gives way but stays runnable, as the code has it |
| `Scheduler.Scheduler.WakeUp` | kernel/sched.c:179-185 | the process becomes runnable, a null argument changes nothing |
| `Scheduler.Scheduler.SleepOn` | kernel/sched.c:94-114 | the caller becomes the head of the chain and sleeps, its local variable holds the old head, and another process is chosen |
| `Scheduler.Scheduler.LeaveSleepOn` | kernel/sched.c:116-123 | the sleeper hands the head back to the one it remembers and wakes it |
| `Scheduler.Scheduler.CopyProcess` | kernel/fork.c:83 | the child starts with its parent's ticks and priority |
| `SchedProofs.ScheduleChooses` | kernel/sched.c:34-87 | if some runnable process has a tick or a priority, schedule ends after at most one refill with the first runnable process of most ticks, and that has at least one |
| `SchedProofs.SpinsForEver` | kernel/sched.c:40-83 | the refill loop never ends exactly when every runnable process has 0 ticks and priority 0 |
| `SchedProofs.StepKeeps` | kernel/sched.c:188-211 | every event keeps ticks within 2 * priority - 1 and the current process at 1 or more, so the unsigned decrement never wraps |
| `SchedProofs.EveryRunIsBounded` | kernel/sched.c:234-240 | those bounds hold over every run from start-up, with forks |
| `SchedProofs.SleeperTicks` | kernel/sched.c:73-80 | after k refills an idle sleeper holds 2p - 1 - floor((2p - 1 - t) / 2^k) ticks |
| `SchedProofs.RefillTable` | kernel/sched.c:75-82 | k refills of the table act on each process as on it alone |
| `SchedFairness.TimersBetweenRefills` | kernel/sched.c:188-211 | between refills each clock interrupt takes exactly one tick from the system, so at most T fall between two refills, T the sum of 2 * priority - 1 |
| `SchedFairness.WaitShrinks` | kernel/sched.c:34-87 | no sleep, wake or yield lengthens a runnable process's wait, and each interrupt that passes it by shortens it |
| `SchedFairness.NoStarvation` | kernel/sched.c:34-124 | a process that stays runnable is charged a tick within 2T - 1 clock interrupts, whatever forks, sleeps, wakes and yields the others do, T taken at the end |
| `SchedFairness.StarvationBound` | kernel/sched.c:73-82 | in numbers: 1951 clock interrupts for a table of 16 |
| `SchedTurns.TimerEffect` | kernel/sched.c:200-210 | with n > 1 ticks the current process keeps the processor, has n - 1, and no other record changes; with its last tick gone the processor goes to the first runnable process of most ticks, after a refill if none has any |
| `SchedTurns.TimerWraps` | kernel/sched.c:204 | at 0 ticks the unsigned count becomes 2^32 - 1 and the process goes on |
| `SchedTurns.SleepEffect` | kernel/sched.c:107-114 | sleep_on takes the current process out of the choice and changes no other record, but for a refill |
| `SchedTurns.YieldEffect` | kernel/sched.c:226-231 | sys_pause leaves the current process in the choice |
| `SchedTurns.WakeForkEffect` | kernel/fork.c:82-158 | a new process is runnable with its parent's ticks and priority, and a woken one with its own; nothing else changes, the current process included |
| `SchedTurns.KeepsItsTurn` | kernel/sched.c:204 | over every run a process with n ticks stays current for its next n - 1 clock interrupts, unless it sleeps or yields, and each takes one tick |
| `SchedTurns.TurnEnds` | kernel/sched.c:206-210 | and at the n-th it loses the processor, to the one that schedule picks |
| `SchedTurns.FirstTurn` | kernel/sched.c:234-240 | process 0 has the processor for the first 14 clock interrupts, unless it sleeps or yields |
| `SchedTurns.ChildRuns` | kernel/fork.c:154-158 | a forked child gets a tick within 1951 clock interrupts unless it goes to sleep itself |
| `WaitChain.SleepersFormChain` | kernel/sched.c:94-114 | any number of sleepers form a chain through their local variables, newest first, and only they stop running |
| `WaitChain.ResumeKeeps` | kernel/sched.c:116-123 | only the head of a chain can resume; the rest is a chain whose head it has woken, and nobody else starts or stops |
| `WaitChain.DrainsInOrder` | kernel/sched.c:94-124 | under every interleaving sleepers leave one at a time, newest first, and a woken chain keeps an awake head until it is empty |
| `WaitChain.OneWakeUpDrains` | kernel/sched.c:179-185 | one wake_up drains a chain of any length: everybody leaves, newest first, and the head is null |
| `WaitChain.JoinerIsDropped` | kernel/sched.c:117 | a process that joins after the head was woken and before it resumed is pointed at by nobody afterwards |
| `WaitChain.LostForEver` | kernel/sched.c:117 | no run ever wakes such a process |
| `WaitChain.WakeCellLosesChain` | kernel/buffer.c:41 | passing the address of the head to wake_up wakes nobody and loses the chain; it is right exactly when nobody sleeps |
| `SchedAsWritten.HitIsNeverSet` | kernel/sched.c:57 | the comparison with unsigned ticks never chooses anybody; it agrees with the comment exactly when nobody is runnable |
| `SchedAsWritten.ShiftAgrees` | kernel/sched.c:79-80 | the shift by 1 + priority, taken modulo 32 as the processor does, agrees with the comment's formula exactly for priority 0, or when the shift comes to nothing and half the ticks happen to be the priority |
| `SchedAsWritten.NoTicksForEver` | kernel/sched.c:79-80 | with the shift a process at 0 ticks stays there through any number of refills |
| `SchedAsWritten.PauseOnlyYields` | kernel/sched.c:226-231 | sys_pause leaves its caller runnable: it is a switch and nothing more |
| `Files.FileSystem.constructor` | fs/bitmap.c:47-53 | a disk with no file blocks: only the reserved bit and the bits past the zone are set |
| `Files.FileSystem.NewBlock` | fs/bitmap.c:58-125 | the first clear bit is set before its block number is compared with the disk size; the block is zeroed and returned |
| `Files.FileSystem.FreeBlock` | fs/bitmap.c:13-55 | halts outside the zone or on a clear bit, otherwise clears it |
| `Files.FileSystem.IbMapHelper` | fs/inode.c:95-246 | ib_map and ib_map_new in one, through the three levels, with failing reads of index blocks |
| `Files.FileSystem.FreeLevel1` | fs/truncate.c:16-44 | every named block of a readable index block, then the index block |
| `Files.FileSystem.FreeLevel2` | fs/truncate.c:47-77 | every index block of a readable double index block, then that block |
| `Files.FileSystem.Truncate` | fs/truncate.c:81-115 | the whole of truncate; it reaches no halt |
| `Files.FileSystem.FileWrite` | fs/file_dev.c:21-99 | the loops of file_write over the block map and the data blocks, with the new size and offset |
| `Files.FileSystem.FileRead` | fs/file_dev.c:102-163 | the loops of file_read; bytes of the buffer past the count read stay as they were |
| `FilesInvariant.NewBlockExact` | fs/bitmap.c:70-124 | new_block fails exactly when the zone is full; otherwise it takes the least free block, zeroes it and changes no other |
| `FilesInvariant.SoundMeans` | fs/bitmap.c:47-53 | the invariant in plain words: a bit of the zone is set exactly when some slot of some file names the block |
| `FilesInvariant.SafeMeans` | fs/inode.c:95-234 | every block that a file names is in the zone and marked, and no two slots name the same one |
| `FilesInvariant.AttachVal` | fs/inode.c:109-229 | a new block stored in an empty slot is named by that slot; what every other slot names is unchanged |
| `FilesMap.LeafInjective` | fs/inode.c:107-232 | different (file, block) pairs use different slots of the tree |
| `FilesMap.LeafOnto` | fs/inode.c:107-232 | every data slot is some block of its file |
| `FilesMap.TakeKeeps` | fs/inode.c:109-117 | taking a block for one slot keeps the invariant, all sizes and all data blocks, and fails exactly when the slot is empty and the zone full |
| `FilesMap.IbMapNewKeeps` | fs/inode.c:95-246 | ib_map_new keeps the invariant; only slots on the path to its block change, fresh data blocks are zero |
| `FilesMap.NewChangesOneEntry` | fs/inode.c:243-246 | as a finite map, ib_map_new changes no entry but its own, never a non-zero one, and ib_map then returns what it returned |
| `FilesFree.NewTakesHead` | fs/bitmap.c:70-124 | new_block takes the head of the list of free blocks, and fails exactly on the empty list |
| `FilesFree.NewFails` | fs/inode.c:95-246 | ib_map_new returns 0 exactly when the number is out of range, an index block on the way, there already or newly taken, cannot be read, or fewer blocks are free than are missing on the way; all in terms of the state before |
| `FilesLayout.WordBytes` | fs/inode.c:145-152 | an index word is its low byte plus 256 times its high byte; storing v changes these two bytes, to v modulo 256 and v / 256, and no other |
| `FilesLayout.MapIsWalk` | fs/inode.c:107-232 | ib_map is the walk over the bytes of the disk: 7 numbers in the inode, 512 words in the block of its eighth, 512 times 512 under that of its ninth, for every set of unreadable blocks |
| `FilesLayout.NewIsWalked` | fs/inode.c:95-246 | after ib_map_new that walk leads to the block returned, every other to where it did |
| `FilesLayout.FreedBit` | fs/bitmap.c:24-53 | free_block clears bit b - first + 1 for block b of the zone, and halts outside it or on a clear bit |
| `FilesLayout.TakenBit` | fs/bitmap.c:70-124 | new_block sets the first clear bit i, and zeroes and returns block first + i - 1 if the disk has it |
| `FilesShort.WriteStops` | fs/file_dev.c:44-88 | with any reads failing, file_write stops short only at the start of a block that ib_map_new cannot map or bread cannot read in that turn, all before it written |
| `FilesShort.ReadStops` | fs/file_dev.c:114-150 | likewise file_read |
| `FilesTruncate.TruncateKeeps` | fs/truncate.c:81-115 | truncate never halts, leaves the file's map empty and its size 0, and every other file's map, size and bytes unchanged |
| `FilesTruncate.TruncateFrees` | fs/truncate.c:16-115 | the blocks that become free are exactly the file's blocks whose index blocks could be read |
| `FilesTruncate.TruncateSoundIff` | fs/truncate.c:30-40 | no block is lost exactly when every index block with something below it was read |
| `FilesTruncate.EntriesSwept` | fs/truncate.c:30-39 | the loop over an index block frees each named block once, in any state reached by truncate |
| `FilesData.FileWriteKeeps` | fs/file_dev.c:21-99 | file_write keeps the invariant and other sizes, sets size and offset; with all reads answered it is short only at the largest file or on a full disk |
| `FilesData.FileWriteBytes` | fs/file_dev.c:21-99 | it stores an exact prefix of the data; missing bytes of the blocks it mapped become zero, and every other byte of every file is as it was |
| `FilesData.WriteMapsBlocks` | fs/file_dev.c:40-80 | the blocks it maps are those of the bytes it wrote and, when it is short, at most the one after |
| `FilesData.ReadGives` | fs/file_dev.c:102-163 | what is read is what the file holds from the offset on; with all reads answered it stops only at a missing block |
| `FilesData.ReadBack` | fs/file_dev.c:21-163 | file_read at the start of a file_write returns the bytes written, through all three pointer levels |
| `FilesRuns.StepKeeps` | fs/inode.c:95-246 | each of file_write, ib_map_new and truncate keeps the invariant |
| `FilesRuns.EveryRunIsSound` | fs/bitmap.c:47-100 | over every run from an empty disk: no block is reachable twice or outside the zone, and unless a truncate missed an index block the set bits are exactly the reachable blocks and the reserved bit |
| `FilesRuns.EntriesStay` | fs/inode.c:95-246 | an entry of a file's map stays the same until that file is truncated |
| `FilesRuns.NewIsReturnedLater` | fs/inode.c:237-246 | what ib_map_new returns, every later ib_map returns until the file is truncated |
| `FilesPrivate.WriteView` | fs/file_dev.c:21-99 | file_write acts on the disk as on a size and bytes for each file alone, given the count it reports and whether one more block was mapped |
| `FilesRuns.FilesArePrivate` | fs/file_dev.c:21-163 | over every run the disk is one private array for each file, with a size of its own from which appends start: a byte is the last one written there since its last truncate, zero if only its block was mapped since, missing otherwise, whatever happened to other files |
| `FilesRuns.EveryRunIsPrivate` | fs/file_dev.c:21-163 | in particular from an empty disk, where the arrays have no bytes |
| `FilesAsWritten.Level1Agrees` | fs/truncate.c:32-38 | with the pointer never moved, freeing the single index block halts exactly when it can be read and its first word is set, and is right exactly when there is none, it cannot be read or it is empty |
| `FilesAsWritten.Level2Agrees` | fs/truncate.c:64-70 | the same of the double index block, whose loop makes one turn too many |
| `FilesAsWritten.DirectAgrees` | fs/truncate.c:95-99 | freeing empty direct slots halts exactly when one of the seven is empty |
| `FilesAsWritten.SingleAgrees` | fs/inode.c:122-156 | over the whole single-indirect range the written ib_map_new is right exactly when it cannot add a block: with the index block missing, when at most one block is free or the one that becomes the index block cannot be read; with it there, when the unset value is by chance the right one and nothing is to be added |
| `FilesAsWritten.StoredElsewhere` | fs/inode.c:152 | the block that it allocates is found under block n + 7 afterwards if n is below 512, and nothing under block n |
| `BufferCache.BufferCache.constructor` | kernel/buffer.c:227-270 | no buffer is bound, held, valid or changed |
| `BufferCache.BufferCache.FindBuffer` | kernel/buffer.c:93-107 | the first buffer of the block, with one more reference |
| `BufferCache.BufferCache.GetBuffer` | kernel/buffer.c:110-171 | the block's buffer, or the first idle one written back and bound to it; the write-back loop ends |
| `BufferCache.BufferCache.Brelease` | kernel/buffer.c:174-193 | one reference less, or the halt on a count of 0 |
| `BufferCache.BufferCache.Bread` | kernel/buffer.c:196-224 | the buffer with valid data, or none when the device does not answer, the reference then given back; the sleep and the halt are its other outcomes |
| `BufferCache.BufferCache.SyncDev` | kernel/buffer.c:52-69 | every changed buffer of the device is written |
| `BufferCache.BufferCache.InvalidDevBuffers` | kernel/buffer.c:72-90 | every buffer of the device loses its changed and valid flags |
| `BufferCache.BufferCache.FreeBuffer` | fs/bitmap.c:31-44 | free_block's treatment of a cached block |
| `BufferCache.BufferCache.BlockWrite` | fs/block_dev.c:22-82 | the two nested loops, with block and offset kept in step; the position moves by the count returned, however the loop ends |
| `BufferCache.BufferCache.BlockRead` | fs/block_dev.c:88-144 | likewise for reading; the rest of the caller's buffer is untouched |
| `CacheProofs.WriteBackInvisible` | kernel/buffer.c:147-150 | writing a buffer back changes no logical block and puts its own on the device |
| `CacheProofs.RebindInvisible` | kernel/buffer.c:163-170 | taking an idle clean buffer for another block changes no logical block |
| `CacheProofs.GetBufferKeeps` | kernel/buffer.c:110-171 | get_buffer changes no logical block and no held buffer, returns the one buffer of the block, and sleeps exactly when the block has none and all are held |
| `CacheProofs.BreleaseKeeps` | kernel/buffer.c:174-193 | brelease halts exactly when the count of references is 0 modulo 256, and is otherwise invisible |
| `CacheProofs.BreadKeeps` | kernel/buffer.c:196-224 | bread returns the logical block and changes none; it sleeps exactly when get_buffer does, fails only when the device did not answer, and halts only then and at a count of the 256th reference |
| `CacheProofs.StoreKeeps` | fs/block_dev.c:70-76 | a store to a held buffer changes exactly its own logical block |
| `CacheProofs.SyncKeeps` | kernel/buffer.c:52-69 | sync_dev is invisible and clears exactly the changed flags of its device |
| `CacheProofs.SyncReachesDevice` | kernel/buffer.c:52-69 | after sync_dev the device holds the logical disk |
| `CacheProofs.InvalidKeeps` | kernel/buffer.c:72-90 | invalid_dev_buffers turns its device's logical blocks into what is on the device, and changes no others |
| `CacheProofs.FreeBufferKeeps` | fs/bitmap.c:31-44 | free_block discards the cached block exactly when its count is 0; otherwise it frees nothing and leaves one reference behind |
| `CacheRuns.RunRefines` | kernel/buffer.c:52-224 | over every run the logical disk is a plain disk that only stores and discards change |
| `CacheRuns.EveryRunRefines` | kernel/buffer.c:227-270 | in particular from start-up, when it equals the device |
| `CacheRuns.HeldIsNeverRebound` | kernel/buffer.c:124-170 | while its count is not 0 a buffer stays the buffer of its block, over every run |
| `CacheRuns.CountWraps` | kernel/buffer.c:101 | the byte count looks idle exactly at every 256th reference |
| `CacheRuns.WrappedIsTaken` | kernel/buffer.c:124-170 | a held buffer is handed to the next who asks exactly when its count has wrapped to 0 and no buffer before it is idle |
| `CacheRuns.UnmarkedIsLost` | fs/inode.c:196-203 | a word stored without the changed flag survives the next eviction exactly when it changed nothing |
| `CacheExact.GetsOwn` | kernel/buffer.c:93-108 | a block's own buffer gets one more reference, in a byte, and nothing else changes |
| `CacheExact.GetsIdle` | kernel/buffer.c:124-170 | else the first idle buffer becomes the block's, not valid and with one reference; what it held goes to the device if it was changed, and nothing else does |
| `CacheExact.BreadAnswers` | kernel/buffer.c:196-224 | bread gives a buffer exactly when one can be had and it is valid or the device answers; else the references are as before |
| `BlockDev.WriteIsFlat` | fs/block_dev.c:22-82 | however block_write ends, it has written an exact prefix to one flat array of bytes and nothing else, all of it when it is done |
| `BlockDev.WriteIsReady` | fs/block_dev.c:22-82 | it neither sleeps nor halts while a buffer is idle and no count is about to wrap, and is done if the device answers |
| `BlockDev.ReadIsFlat` | fs/block_dev.c:88-144 | however block_read ends, it has returned the array's bytes from the position on and changed none |
| `BlockDev.ReadAfterWrite` | fs/block_dev.c:22-144 | reading what was written returns it as far as either gets, across any number of blocks; all of it when a buffer is idle, no count is about to wrap and the device answers |
| `FilesSeen.NewBlockSeen` | fs/bitmap.c:58-125 | new_block on buffers is new_block of the file model; it sleeps exactly when the block has no buffer and all are held, and halts exactly when somebody holds the buffer of the block it took |
| `FilesSeen.FreeBlockSeen` | fs/bitmap.c:13-55 | free_block on buffers is free_block of the model, up to what a free block holds; it returns early exactly when somebody holds the block's buffer, and otherwise halts exactly when the model does |
| `FilesSeenMap.UnderIndexSeen` | fs/inode.c:129-149 | reading an index block, taking its word with new_block in between, and giving the buffer back does what the model does with that slot |
| `FilesSeenMap.IbMapSeen` | fs/inode.c:95-246 | ib_map and ib_map_new on buffers give what the model gives, the blocks that the device did not answer for being the unreadable ones; every reference is given back |
| `FilesSeenData.FileWriteSeen` | fs/file_dev.c:21-99 | file_write on buffers is file_write of the model |
| `FilesSeenData.FileReadSeen` | fs/file_dev.c:102-163 | file_read on buffers is file_read of the model, and what the file layer sees is unchanged |
| `FilesSeenTruncate.FreeIndexesShows` | fs/truncate.c:64-70 | the loop over the double index block, which frees single ones while it holds its own buffer, ends where the model's does |
| `FilesSeenTruncate.TruncateSeen` | fs/truncate.c:81-115 | truncate on buffers is truncate of the model, up to what free blocks hold |
| `FilesReads.IndexFails` | fs/inode.c:129-134 | an index block counts as unreadable exactly when the device does not answer for it and no buffer holds it |
| `FilesReads.DataFails` | fs/file_dev.c:57-62 | a data block of file_write or file_read likewise; no byte goes in or out exactly then |
| `FilesReads.Level1Fails` | fs/truncate.c:25-43 | a single index block of truncate likewise; the blocks that it names then stay in use |
| `FilesQuiet.IbMapRuns` | fs/inode.c:95-246 | ib_map and ib_map_new neither sleep nor halt when nobody else holds a block of the zone and two buffers are idle |
| `FilesQuiet.FileWriteRuns` | fs/file_dev.c:21-99 | nor does file_write |
| `FilesQuietTruncate.TruncateRuns` | fs/truncate.c:81-115 | nor does truncate, and it finds no block held, its own index blocks included, when it frees it |
| `FilesCachedRuns.StepFollows` | fs/bitmap.c:13-125 | each file operation on the cache is one step of the file model and leaves the cache fit for the next |
| `FilesCachedRuns.FilesArePrivate` | fs/file_dev.c:21-163 | over every run of file operations on the cache, with evictions, write-backs and reuse of blocks in between, each file is an array of its own, sizes and bytes; the arrays know nothing of disk and cache, only what the calls report |
| `FilesCachedRuns.ReadIsPrivate` | fs/file_dev.c:102-163 | what file_read then returns are the bytes of that array; with all reads answered it stops only at a byte never mapped |
| `FilesCachedRuns.EveryRunIsPrivate` | kernel/buffer.c:227-270 | from start-up with two buffers or more and an empty disk: every file is such an array, empty at first, and file_read returns what it holds |
| `FilesCachedRuns.SyncIsElsewhere` | kernel/buffer.c:52-69 | sync_dev may come between any two of them |
| `Elevator.InOrderIsStrict` | kernel/blk/rw_blk.c:16-38 | the order of requests is a strict total order on (command, device, sector) |
| `Elevator.InsertKeeps` | kernel/blk/rw_blk.c:41-66 | inserting keeps the request in service first, the others in order, and adds the new one once |
| `Elevator.PlacedAtCrossing` | kernel/blk/rw_blk.c:53-62 | a request with a key of its own lands between two neighbours around it exactly when it lies strictly between the least and the greatest key queued |
| `Elevator.ElevatorStaysOnCourse` | kernel/blk/rw_blk.c:41-66 | it then adds no change of direction, and no sector travel when all concern one command and device |
| `HardDisk.HardDisk.constructor` | kernel/blk/rw_blk.c:125-133 | 32 free slots and an empty list |
| `HardDisk.HardDisk.AddRequest` | kernel/blk/rw_blk.c:41-66 | the walk along the next pointers and the splice put the request where the elevator rule says; an empty queue starts the drive |
| `HardDisk.HardDisk.Splice` | kernel/blk/rw_blk.c:64-65 | two pointer stores insert the slot after the t-th of the list |
| `HardDisk.HardDisk.RwBlk` | kernel/blk/rw_blk.c:68-122 | the device, lock and flag tests, the search for a free slot and the request filled in |
| `HardDisk.HardDisk.EndRequest` | kernel/blk/blk.c:17-35 | the buffer gets its result and is unlocked, the slot is free, the list moves on |
| `HardDisk.HardDisk.DoHdRequest` | kernel/blk/hd.c:317-378 | requests that their partition cannot hold end in error until one is put to the drive or none is left |
| `HardDisk.HardDisk.HdCmdOut` | kernel/blk/hd.c:335-350 | the cylinder, head and sector computed for the drive denote the sector asked for: the request's, counted from the start of its partition, on the drive of its minor number |
| `HardDisk.HardDisk.FailedRw` | kernel/blk/hd.c:251-255 | one more error, and the end of the request at the seventh |
| `HardDisk.HardDisk.IntHdRead` | kernel/blk/hd.c:257-279 | a sector copied to the buffer, or an error; buffer, sector and count move together |
| `HardDisk.HardDisk.IntHdWrite` | kernel/blk/hd.c:282-302 | a sector on the drive, or an error |
| `HardDisk.HardDisk.IrqHdHandler` | kernel/blk/hd.c:44-48 | the handler of the command under way; without one the interrupt is ignored |
| `HardDisk.SlotsInUse` | kernel/blk/rw_blk.c:92-95 | a slot's dev is not -1 exactly when the list from current_request visits it |
| `DiskProofs.SplitInverts` | kernel/blk/hd.c:337-348 | the cylinder, head and sector of a sector number lead back to it and lie on the drive |
| `DiskProofs.SplitOfAbsolute` | kernel/blk/hd.c:337-348 | and every cylinder, head and sector is the split of its number |
| `DiskProofs.EndFreesOne` | kernel/blk/blk.c:17-35 | each end_request frees one slot and unlocks one buffer, and keeps locked buffers and queued requests in step |
| `DiskProofs.DoHdRequestKeeps` | kernel/blk/hd.c:317-378 | after do_hd_request the drive is at the next sector of the first request, or idle with an empty queue |
| `DiskProofs.HeadStepKeeps` | kernel/blk/hd.c:251-302 | one interrupt ends the first request or keeps buffer, sector and count aligned and shortens what it can still take |
| `DiskProofs.InterruptKeeps` | kernel/blk/hd.c:44-302 | every interrupt keeps the invariant |
| `DiskTransfer.EndsInTime` | kernel/blk/hd.c:251-302 | over every run with new requests, whatever is first in the queue ends within 7 interrupts for each sector it still wants, less the errors it has had |
| `DiskTransfer.RequestServed` | kernel/blk/hd.c:251-302 | over every run with new requests and with callers at work on other buffers, a request ends by its 14th interrupt; if the last answer was good, a read left exactly the block's sectors in the buffer and a write put exactly the buffer on them, otherwise a proper part of that; nothing else on the drive and no other buffer's data changed |
| `DiskService.RwBlkKeeps` | kernel/blk/rw_blk.c:68-122 | rw_blk keeps the invariant, whatever is queued |
| `DiskService.EveryRunIsSound` | kernel/blk/rw_blk.c:68-122 | after every run a buffer is locked exactly when one queued request names it, and no slot is used twice |
| `DiskService.QueueDrains` | kernel/blk/hd.c:251-302 | without new requests 14 interrupts for each queued one empty the queue |
| `DiskService.WorkBalances` | kernel/blk/rw_blk.c:68-122 | with new requests, as long as the queue does not run empty there are at most 14 interrupts for each request, those added on the way included |
| `DiskAsk.RwBlkCases` | kernel/blk/rw_blk.c:74-110 | rw_blk makes its caller sleep exactly while the buffer is locked, or a transfer is wanted (a changed buffer to write, one not valid to read) and all 32 slots are used; where none is wanted, or the device is another, nothing changes |
| `DiskAsk.RwBlkQueues` | kernel/blk/rw_blk.c:50-121 | otherwise the buffer is locked and one request is added, where the elevator has its place: this command, device and buffer, two sectors from four times the block number on |
| `DiskAsk.RwBlkStarts` | kernel/blk/rw_blk.c:46-51 | with an empty queue it goes to the drive at once, or has ended at once with the buffer not valid where the partition does not hold the block |
| `DiskAsk.DoHdRequestExact` | kernel/blk/hd.c:317-378 | do_hd_request ends exactly the requests before the first that its partition holds, and puts that one to the drive: drive, sector and bytes to write |
| `DiskAnswers.AnswerEffect` | kernel/blk/hd.c:251-302 | each answer: a good one moves 512 bytes and takes the request to its second sector with no errors counted, or ends it; a bad one counts one error, and ends it at seven in a row or where the partition would not hold two more sectors |
| `DiskAnswers.RequestTurnsOut` | kernel/blk/hd.c:251-302 | over every run, from the answers alone: with s < 7 errors before the first good answer and u < 7 before the second a request ends well at answer s + u + 2, with seven in a row it ends badly at the seventh, and no sooner (one instead of seven on the second sector of a block that ends its partition) |
| `DiskAnswers.InvalidIff` | kernel/blk/hd.c:251-255 | so its buffer is not valid in the end exactly when one of its sectors had that many errors in a row |
| `DiskDone.AskedIsDone` | kernel/blk/rw_blk.c:68-122 | rw_blk and then any run: when no request names the buffer any more it is unlocked, and after a last answer that was good, as it is when all are, buffer and block on the device are the same, a write having left the data as it was and the buffer clean |
| `DiskFairness.InsertOnTheWay` | kernel/blk/rw_blk.c:53-62 | a new request lengthens the way of the drive to no waiting one, counted in ranks of (command, device, block) |
| `DiskFairness.NobodyStarves` | kernel/blk/rw_blk.c:41-66 | over every run, whatever new requests come, a queued one is over after at most 14 interrupts for each rank on the way to it and 14 for itself |
| `DiskFairness.PatienceBound` | kernel/blk/rw_blk.c:92-95 | in numbers: with 32 slots that is at most 14 times 31 lengths of the line of ranks, plus 14 |
| `DiskCache.WriteServed` | kernel/buffer.c:147-150 | a write of the cache that the disk has served is the write-back of the cache model; one that failed has put part of the block on the device and left the buffer changed and not valid |
| `DiskCache.ReadServed` | kernel/buffer.c:212-224 | a read that was served fills the buffer with the block that the cache model has on the device |
| `DiskCache.FailedWriteIsLost` | kernel/blk/blk.c:17-35 | after a failed write, bread reads the device again: what was stored is gone exactly when it differs from what had reached the device |
| `DiskCache.TriedAgain` | kernel/buffer.c:147-150 | writing it again instead leaves everything as if the write had not failed |
| `DiskCacheRuns.CompletedIs` | kernel/buffer.c:147-150 | the end of a good request is the cache model's write-back, or a fill that nobody sees |
| `DiskCacheRuns.StepJoins` | kernel/blk/hd.c:251-302 | each new request, interrupt and use of an unlocked buffer keeps disk and cache account in step, rejected and failed requests included |
| `DiskCacheRuns.EveryRunJoins` | kernel/blk/rw_blk.c:68-122 | over every run with any number of requests queued, served in the elevator's order: unlocked buffers and the blocks of all partitions in use are what the cache's account says, and only the first request can be half done |
| `DiskAsWritten.OnlyTheFirstBlock` | kernel/blk/hd.c:330 | the bounds test against the request's own length accepts exactly a new request for sector 0, and is right exactly when that is also all that fits the partition |
| `DiskAsWritten.GoesOnAgrees` | kernel/blk/hd.c:330-378 | without a return after end_request the drive gets the ended request's place with the next one's buffer: right exactly when no request had to be ended, or the next one is good and wants the very same sector |
| `DiskAsWritten.LastBlockIsNotRetried` | kernel/blk/hd.c:330 | when the second sector of a block fails, it is tried again exactly when the block does not end at the end of its partition |
| `Ktime.NextDayNumber` | kernel/ktime.c:12-25 | the closed form for days goes up by one from each date to the next |
| `Ktime.LeapDays` | kernel/ktime.c:40 | the wrap of year - 3 in 1970, 1971 and 1972 cancels modulo 2^32 |
| `Ktime.StartupTimeIs` | kernel/ktime.c:27-53 | get_startup_time is the closed form for days, and the time of day, modulo 2^32, for every year |
| `Ktime.CountsDays` | kernel/ktime.c:27-53 | n days after 1 January 1970, counted one day at a time with every fourth year leap, it gives n * 86400 and the time of day |
| `Ktime.EveryDateIsCounted` | kernel/ktime.c:27-53 | every valid date is reached by that count |
| `Ktime.AgreesWithPosix` | kernel/ktime.c:27-53 | for every valid time it equals the formula of section 4.16 of POSIX.1-2017 Base Definitions exactly before 1 March 2100 |
| `Ktime.StrictlyIncreasing` | kernel/ktime.c:27-53 | in every year a later time has more seconds, so a greater value as long as these are below 2^32; the first time past that has the value 0 |
| `Ktime.LastTotal` | kernel/ktime.c:27-53 | that is 06:28:16 on 6 February 2106, in the calendar with a 29 February 2100 |

## Left out

- PagingRefinement.RunRefines: the kernel's own stores to low frames are not events of a run, those to frames it has taken are; KernelWriteSeen states what one of the former does.
- PagingPrivate.BytesArePrivate: likewise.
- PagingPrivate.EveryRunIsPrivate: likewise.
- FilesTruncate.TruncateKeeps: the contents of freed blocks are left as they are, where the kernel drops the cached copy; FilesSeenTruncate.TruncateSeen says that this is the only difference.
- Files.FileSystem.NewBlock: works on blocks, not buffers; the halt on a held buffer and the wait for one (fs/bitmap.c:106-117) are in FilesSeen.NewBlockSeen.
- Files.FileSystem.FreeBlock: likewise; the early return on a held buffer (fs/bitmap.c:31-44) is in FilesSeen.FreeBlockSeen.
- FilesSeenMap.IbMapSeen: no buffer of a zone block has a count of 255, because one more reference would let it wrap, and the buffer could be taken for another block while the call holds it (CacheRuns.WrappedIsTaken). When nobody else holds a block of the zone, as in FilesQuiet and FilesCachedRuns, that is no condition.
- FilesSeenMap.UnderIndexSeen: as FilesSeenMap.IbMapSeen.
- FilesSeenData.FileWriteSeen: as FilesSeenMap.IbMapSeen.
- FilesSeenData.FileReadSeen: as FilesSeenMap.IbMapSeen.
- FilesSeenTruncate.TruncateSeen: likewise no count of 254 or 255, because a double index block that names itself would be held twice.
- FilesSeenTruncate.FreeIndexesShows: as FilesSeenMap.IbMapSeen, for the state in which the double index block is held.
- The file operations on buffers (FilesCached) are functions on a state, not methods; the in-place forms of their two halves are Files.FileSystem and BufferCache.BufferCache. The data map's own buffers, held as long as the device is mounted, are an array of bits.
- WaitChain.OneWakeUpDrains: no process joins while the chain drains; JoinerIsDropped and LostForEver state what happens to one that does.
- DiskService.EveryRunIsSound: a caller that finds its buffer locked or the pool full is not part of the run until it can go on, so the wake-up that kernel/blk/blk.c:31-34 owes to those waiting for a slot is not modelled.
- CacheRuns.RunRefines: each cache call is atomic; a get_buffer that sleeps does not look again (kernel/buffer.c:121-168) and two of them could bind one block twice.
- A frame is seen either as a table or as bytes; the kernel never reads one as the other.
- Paging: the user, accessed and dirty bits of an entry, the translation cache, do_no_page and write_verify.
- PagingAddresses.FreeByAddress: for ranges from 64MB on, where processes are; below lie the kernel's own tables, which no caller frees.
- PagingAddresses.MapByAddress: for a frame that the kernel holds and an address without a page; PagingMap.EnterLeaks says what happens over a page.
- Segment descriptors: copy_memory takes the parent's bases and limits as values.
- Files: access times, file modes, the writing back of inodes and the inode cache, mounts and path lookup.
- Positions and counts are unbounded; a position past 2^31 is not reached by files, whose largest size is below 2^29 bytes, and is not modelled for block devices.
- CacheProofs.SyncKeeps: a device that fails to write a block is not an event of the cache's runs; DiskCache and DiskCacheRuns have it, with what is lost.
- FilesAsWritten.SingleAgrees: the brelease of a pointer that is not set (fs/inode.c:158), which comes with the value that is not set.
- HardDisk.HardDisk.IrqHdHandler: an interrupt on an empty queue is ignored, where kernel/blk/hd.c:44-48 would work on a null request (see Repairs).
- DiskCacheRuns.EveryRunJoins: the partitions in use do not overlap, so a whole disk (minor numbers 0 and 5) is not used together with its partitions; the cache keeps no account of such overlaps.
- DiskFairness.NobodyStarves: no two buffers are of one block, which the cache keeps (CacheProofs.GetBufferKeeps); with two, requests for the block under way could keep a third waiting.
- Disk: port input and output, the widths of the drive's registers, the wait for the data request bit, reset and recalibration.
- interruptible_sleep_on, signals, the idle loop and process exit codes.
- Consoles, keyboard, printing and descriptor packing: plumbing that would add easy members only.
