# Verification of the xv6 kernel's storage, process, memory and device protocols

This project models the hard parts of xv6 for RISC-V in Dafny and proves what the code is for. It
covers the crash-safe storage stack, sleeping and scheduling, process exit, virtual memory, the
virtio disk queue, pipes, and two user-level algorithms. Check it with `dafny verify dfyconfig.toml`.

There are two kinds of model. Code that several processes run at once is a state machine: a `Step`
is what one process does between two points where another may interfere, `Apply` is its effect, and
the theorems speak about every state that any sequence of steps can reach from the start. Beside what
every step keeps, there are theorems about what the operations achieve: from any reachable state in which
nothing stands in the way, the steps of the operation are a run, and its end is stated. Code that
one process runs at a time is a class whose methods have the loops and the updates of the source,
proved against functions and predicates on values. A `panic` is an outcome that is proved
unreachable, or an assertion that stands where the source panics. The memory is sequentially
consistent, and a critical section of a spin lock that nothing else can look into is one step.

| file | models |
|---|---|
| `Blocks.dfy`, `Finite.dfy` | disk blocks as 32-bit words and as bytes; a fact about sets |
| `LogDisk.dfy`, `Log.dfy` | the redo log on the disk, commit and recovery (kernel/log.c) |
| `LogMachine.dfy` | system calls, group commit, crashes and recoveries, interleaved (kernel/log.c) |
| `FsState.dfy`, `Fs.dfy` | bitmap, block maps, file contents (kernel/fs.c) |
| `Dinodes.dfy` | inodes as bytes in their blocks (kernel/fs.h, kernel/fs.c) |
| `File.dfy`, `Crash.dfy` | the chunks of filewrite (kernel/file.c), and what a crash leaves of them |
| `Lru.dfy`, `Bio.dfy` | the linked list and the buffer cache (kernel/bio.c) |
| `Itable.dfy` | the inode table (kernel/fs.c) |
| `SleepWakeup.dfy` | sleep and wakeup, and sleep locks (kernel/proc.c, kernel/sleeplock.c) |
| `Sched.dfy` | spin locks, the scheduler and the hand-off through swtch (kernel/spinlock.c, kernel/proc.c) |
| `ExitWait.dfy` | fork, exit, wait (kernel/proc.c) |
| `VmState.dfy`, `PageTables.dfy` | page allocator and Sv39 page tables (kernel/kalloc.c, kernel/vm.c) |
| `Bytes.dfy`, `Loading.dfy`, `Exec.dfy` | the bytes of words, a program's image, and building its address space (kernel/exec.c, kernel/proc.c) |
| `Virtio.dfy`, `VirtioDisk.dfy` | descriptors and requests of the disk driver (kernel/virtio_disk.c) |
| `Pipe.dfy` | pipes (kernel/pipe.c) |
| `UmallocState.dfy`, `Umalloc.dfy` | malloc and free (user/umalloc.c) |
| `Grep.dfy` | the regular expression matcher (user/grep.c) |

## Where the code is weaker than its comments

- A write within its operation's budget is accepted by `log_write` exactly when the log region has
  more than LOGSIZE blocks, because the header takes one (`LogMachine.BudgetSuffices`,
  `LogMachine.SmallLogRefuses`). mkfs lays out exactly LOGSIZE.
- The capacity test of `log_write` comes before absorption, so a full log refuses a rewrite too
  (`LogMachine.FullLogRefusesRewrite`).
- A writer that leaves `pipewrite` with -1 in the middle of a write wakes nobody. In any state, that
  return leaves every sleeping reader asleep, and there are bytes for it exactly if the writer had put
  some since the last wakeup or one before it had left so (`Pipe.LeaveStrands`). No other step strands
  a reader (`Pipe.StrandsExactly`), and no run without such a return ever does (`Pipe.StraysByLeaving`).
- A process that is killed between its test of killed() and its sleep in a pipe sleeps on, and only then
  (`Pipe.SleepsKilledExactly`, `Pipe.KilledReaderSleeps`).
- `ilock` finds a typed inode in every run whose lookups name inodes that are linked or that the process
  has open (`Itable.IlockFindsType`). A lookup that gets an entry panics in `ilock` exactly if the dinode
  is free at that moment (`Itable.LookupPanics`).
- An unlocked inode in memory is the one on the disk as long as everybody calls `iupdate` before `iunlock`
  (`Itable.CopyIsDinode`), and ceases to be exactly when somebody does not (`Itable.AgreesUnless`).
- `sched` panics exactly if the process still holds another spin lock; its other tests, and those of
  acquire, release and pop_off, never fail (`Sched.PanicsExactly`, and `Sched.HoldingPanics` for a run).
- When the source of a `writei` cannot be read to the end of a block, the bytes before that are already
  in the buffer, which is not logged, and the return value does not count them. With `good` readable bytes
  the file is the old one overwritten by the bytes that the return value counts, exactly if the readable bytes
  from the start of the block with the first bad one on are behind the end of the file or equal to those there
  (`FsState.SpillSeen` and, for filewrite, `File.FileSpillSeen`; `FsOps.SpillExample` is a case where they are
  not). After a crash they are gone (`Crash.CrashLeavesChunks`).
- `malloc` gets the units it asks sbrk for exactly below 2 GB, where the int argument of sbrk wraps
  (`Umalloc.SbrkAsksForAll`); beyond that its new block reaches past the memory it has (`Umalloc.WrappedBlock`).

## Model

| member | source | states |
|---|---|---|
| LogDisk.HeaderRoundTrip | kernel/log.c:87-114 | the header that write_head stores is the one read_head gets back |
| LogDisk.ReplayAt | kernel/log.c:69-83 | installing the whole log gives a home block its log slot if the header lists it, and leaves it alone otherwise |
| LogDisk.ReplayDependsOnLog | kernel/log.c:69-83 | installing again, on a disk whose home blocks have changed, gives the same listed blocks |
| Log.InstallKeepsMeaning | kernel/log.c:69-83 | a crash after any number of installed blocks leaves a disk that recovery takes to the same state |
| Log.ClearKeepsMeaning | kernel/log.c:117-123 | erasing the header after a complete install leaves a clean log and that state |
| Log.RecoveryAfterCrashes | kernel/log.c:117-123 | after any number of recoveries that crash anywhere and one that completes, the home blocks are what the first disk meant |
| Log.HeadWriteCommits | kernel/log.c:103-114 | the header write makes all blocks of the transaction take effect at once |
| Log.CommitIsAtomic | kernel/log.c:178-203 | after each single write of a commit the disk means the old state or the new one, the new one exactly from the header write on |
| Log.Log.constructor | kernel/log.c:55-65 | the log starts empty over the given disk |
| Log.Log.WriteLog | kernel/log.c:179-191 | the cached logged blocks are copied to the log slots in order, and nothing else is written |
| Log.Log.WriteHead | kernel/log.c:103-114 | the header block on the disk lists exactly the logged blocks |
| Log.Log.ReadHead | kernel/log.c:87-97 | the in-memory header becomes the one on the disk |
| Log.Log.InstallTrans | kernel/log.c:69-83 | every logged block is copied home, and unpinned unless recovering; each write on the way is recorded |
| Log.Log.Commit | kernel/log.c:194-203 | the sequence of disks commit goes through is atomic, and it ends with an empty log and the logged contents at home |
| Log.Log.RecoverFromLog | kernel/log.c:117-123 | recovery brings home what the disk meant, whatever write it is interrupted after |
| Log.Log.LogWrite | kernel/log.c:215-235 | both guards, in the source's order, and then absorption or a new entry and a pin |
| LogMachine.CrashSafety | kernel/log.c:127-203 | in every run with crashes at any point, also inside recovery, the disk means exactly the operations that were committed, whole operations only; while no operation is outstanding that is all of them, and the log is empty |
| LogMachine.LogProtocol | kernel/log.c:127-175 | committing implies no operation is outstanding, logged blocks and unspent budgets stay within LOGSIZE, logged blocks are distinct, and the panic of end_op is unreachable |
| LogMachine.LastEndCommits | kernel/log.c:147-203 | the end_op of the last outstanding operation, with k blocks logged, and 2k + 5 steps of commit bring every block home as the operations left it, and free the log |
| LogMachine.OperationHome | kernel/log.c:127-235 | begin_op, log_write of a block, end_op and the commit put exactly that contents on the disk and leave every other block alone |
| LogMachine.GroupCommit | kernel/log.c:147-203 | of two operations that overlap the first end_op commits nothing, and the second brings both home in the order of their writes |
| LogMachine.RecoveryCompletes | kernel/log.c:117-123 | after a crash anywhere, recovery takes one step for each block the header lists and three more, and brings home exactly what was durable |
| LogMachine.IdleBegins | kernel/log.c:127-143 | begin_op does not wait when no operation is outstanding and no commit under way |
| LogMachine.BudgetSuffices | kernel/log.c:215-235 | a write that adds a block within its budget passes both guards if the log has more than LOGSIZE blocks |
| LogMachine.SmallLogRefuses | kernel/log.c:220-221 | with LOGSIZE blocks or fewer there is a run that refuses such a write |
| LogMachine.FullLogRefusesRewrite | kernel/log.c:215-230 | a rewrite of a logged block is refused when all LOGSIZE blocks are taken |
| LogMachine.StepKeeps | kernel/log.c:127-235 | every step of any process, of commit, recovery or a crash keeps the invariant, and panics exactly on an overfull log |
| Bio.CacheRefinesDisk | kernel/bio.c:59-151 | in every run no block is cached twice, the list has every buffer once, and valid buffers hold the logical contents |
| Bio.ReadLatest | kernel/bio.c:93-112 | a process that holds a buffer sees the last logical contents of its block, whatever the others do |
| Bio.GetChooses | kernel/bio.c:59-89 | bget returns the cached buffer, else the unreferenced one released longest ago, else fails, exactly when all are in use |
| Bio.Bread | kernel/bio.c:93-104 | bread as a run: the caller holds the locked buffer, and it has the latest contents of the block, those of the disk if no buffer had it |
| Bio.Bwrite | kernel/bio.c:107-112 | the disk gets the latest contents of the block, and no other block changes |
| Bio.ReadModifyWrite | kernel/bio.c:59-137 | bread, a change, bwrite and brelse are a run that puts the change on the disk and leaves counts, pins and all other blocks as they were |
| Bio.FreeIsUnlocked | kernel/bio.c:59-89 | for a block that is not cached, such a run exists as soon as one buffer is not referred to |
| Bio.ReleasedLast | kernel/bio.c:117-137 | a buffer whose last reference was just dropped is recycled only if there is no other unreferenced one |
| Bio.PinnedStays | kernel/bio.c:139-151 | a pinned buffer keeps its block, with the latest contents, in every run until it is unpinned |
| Bio.ModifyPin | kernel/log.c:215-235 | a change that is pinned and released without being written is still the block's contents, and the disk is as before |
| Bio.WriteUnpin | kernel/log.c:69-83 | writing such a block and unpinning it puts it on the disk |
| Bio.StepKeeps | kernel/bio.c:59-151 | every step of every process keeps the invariant of the cache |
| Bio.BufferCache.constructor | kernel/bio.c:37-53 | all buffers are empty, unreferenced and on the list |
| Bio.BufferCache.Bget | kernel/bio.c:59-89 | the two pointer loops choose the buffer of the specification |
| Bio.BufferCache.Brelse | kernel/bio.c:117-137 | the count drops, and a buffer that reaches zero moves to the front |
| Lru.List.constructor | kernel/bio.c:37-53 | pushing the buffers one by one gives a doubly linked list of all of them |
| Lru.List.MoveToFront | kernel/bio.c:125-133 | unlinking and relinking in place moves the buffer to the front and keeps prev and next inverse |
| Lru.ToFrontPermutes | kernel/bio.c:125-133 | the list stays a permutation of all buffers |
| FsState.OwnershipExact | kernel/fs.c:66-105 | a block is marked used exactly if it is metadata or held by one position of one inode |
| FsState.ReadBack | kernel/fs.c:472-539 | the bytes a write reports as written are those at that place afterwards |
| FsState.SpillSeen | kernel/fs.c:506-539 | a writei that returns r leaves the file overwritten by r bytes of the source and nothing else exactly if, before the call, the readable bytes of the block with the first bad one are behind the file's end or already there |
| FsOps.SpillExample | kernel/fs.c:521-524 | a write of two bytes, one readable, over a file of one byte: it returns 0 and has changed the file |
| FsState.RoundsBound | kernel/file.c:149-162 | a chunk touches at most seven data and bitmap blocks, since an unaligned start is already allocated |
| FsState.TruncatedValid | kernel/fs.c:426-453 | without the blocks of one inode the bitmap is again exact and no file has a hole |
| FsOps.FileSystem.constructor | mkfs/mkfs.c:72-126 | an empty file system, with the metadata marked, is well formed |
| FsOps.FileSystem.Balloc | kernel/fs.c:66-88 | the first free block, which was owned by nobody, is marked, zeroed and logged; 0 exactly if none is free |
| FsOps.FileSystem.Bmap | kernel/fs.c:383-421 | an existing block is returned and nothing changes; otherwise one is attached, 0 means the disk is full, and every changed block is logged |
| FsOps.FileSystem.Writei | kernel/fs.c:506-539 | the file becomes the old bytes overwritten at off by the first tot bytes of the source, and by those of a copy that stopped halfway; other files keep theirs, no holes appear; every block changed is logged but the one of such a copy, which is not if the file had it before; at most MAXOPBLOCKS for a chunk; -1 exactly in the source's cases, and tot is short only at the start of a round whose bytes cannot all be read or whose block is missing on a full disk |
| FsOps.FileSystem.Readi | kernel/fs.c:472-496 | exactly the requested slice, cut off at the end of the file, and nothing is allocated |
| FsOps.FileSystem.Bfree | kernel/fs.c:92-105 | clears the bit, or reports a block that was free |
| FsOps.FileSystem.Itrunc | kernel/fs.c:426-453 | frees exactly the blocks of the inode, never one that is free, leaves the other files alone, and logs exactly the bitmap blocks of the freed ones and the inode's block |
| FsState.FewBits | kernel/fs.c:426-453 | which on a disk of at most BPB blocks are one bitmap block |
| FsOps.FileSystem.Iupdate | kernel/fs.c:226-241 | the dinode on the disk is the inode in memory, and its block is logged |
| Dinodes.PutGet | kernel/fs.c:226-241 | the 64 bytes that iupdate writes read back as the inode, and the other inodes of the block as before |
| Dinodes.IupdateBlock | kernel/fs.c:226-241 | the block that is logged is the only one whose bytes change |
| File.WriteChunk | kernel/file.c:149-174 | one transaction continues the write where the last one ended, logs at most MAXOPBLOCKS blocks and among them all it changed, and is short exactly for one of writei's reasons, at the start of the chunk or of a block |
| File.FileWrite | kernel/file.c:135-181 | all chunks together are one write of the bytes done; there are exactly as many transactions as chunks, each within MAXOPBLOCKS; the write is short only if a chunk was refused, a byte of the next block is unreadable or that block is missing on a full disk; n is returned exactly if all of it was written |
| File.FileSpillSeen | kernel/file.c:149-174 | SpillSeen for a whole filewrite, with its chunks and refusals |
| Crash.CommitExact | kernel/log.c:194-203 | installing the logged blocks of a transaction brings the disk up to date with everything it changed, but for a block that was not logged |
| Crash.CrashLeavesChunks | kernel/file.c:149-174 | after any number of committed transactions of a filewrite, recovery finds a well-formed file system, with that many whole chunks written and in the end exactly the bytes done; bytes copied beyond them are gone |
| Itable.TableProtocol | kernel/fs.c:247-362 | in every run: at most one referenced entry per inode, ref counts the references, a lock holder has one, and a valid unlocked entry is of an inode that is not free |
| Itable.CopyIsDinode | kernel/fs.c:221-362 | in every run that calls iupdate before iunlock, a valid unlocked entry is the dinode on the disk |
| Itable.AgreesUnless | kernel/fs.c:221-362 | an entry ceases to be so exactly when it is unlocked changed |
| Itable.IputNeverSleeps | kernel/fs.c:337-362 | the acquiresleep inside iput finds the lock free |
| Itable.IlockFindsType | kernel/fs.c:293-317 | the panic of ilock on a free inode is unreachable in such runs when lookups name inodes that are linked or open, also while references are handed to other processes and ialloc reuses a number that iput is freeing |
| Itable.LookupPanics | kernel/fs.c:247-317 | in any reachable state, a lookup that gets an unlocked entry reaches it exactly if the dinode is free |
| Itable.IputFrees | kernel/fs.c:337-362 | iput of the last reference to an inode without links, as a run: the dinode is free and empty, the entry unused, nothing else changes |
| Itable.IputDrops | kernel/fs.c:337-362 | any other iput drops one reference and changes no dinode and no inode |
| Itable.DupGives | kernel/fs.c:282-288 | idup and handing the copy to another process leave each with a reference, so that neither iput alone frees the inode |
| Itable.UpdateReturns | kernel/fs.c:226-334 | lookup, ilock, a change, iupdate, iunlock and iput leave exactly the changed inode on the disk and in the entry |
| Itable.IallocReturns | kernel/fs.c:199-219 | ialloc makes a free dinode an empty one of the type, and the caller has a reference to it |
| Itable.StepKeeps | kernel/fs.c:199-362 | every step of iget, idup, ilock, iunlock, iput, iupdate and ialloc keeps the invariant |
| Itable.InodeTable.Iget | kernel/fs.c:247-277 | one pass finds the entry of the inode, else the first empty one, else fails |
| Itable.InodeTable.Ialloc | kernel/fs.c:199-219 | the first free dinode is cleared and typed; 0 exactly if there is none |
| SleepWakeup.NoLostWakeup | kernel/proc.c:548-592 | a process asleep on a true condition has a wakeup on its way, from the holder of lk; so none sleeps on one while lk is free |
| SleepWakeup.WakeupReaches | kernel/proc.c:579-592 | that wakeup, run on, makes runnable exactly the processes that sleep on the channel, of those it has not passed, and ends |
| SleepWakeup.FallsAsleep | kernel/proc.c:548-565 | sleep with a false condition, as a run: both locks are free and the process sleeps on the channel |
| SleepWakeup.SleeperReturns | kernel/proc.c:548-592 | when another process then makes the condition true, the sleeper returns, with the lock, to a true condition |
| SleepWakeup.KilledReturns | kernel/proc.c:598-616 | a process that is killed in its sleep returns with the lock, whatever the condition |
| SleepWakeup.HoldersMove | kernel/proc.c:548-574 | only a process itself holds its p->lock across steps, and it can always go on |
| SleepWakeup.StepKeeps | kernel/proc.c:548-616 | every step of sleep, wakeup, kill and the scheduler keeps the invariant |
| SleepLock.MutualExclusion | kernel/sleeplock.c:22-52 | a sleep lock has at most one holder, the one its pid names, exactly while it is locked |
| SleepLock.NobodyLeftBehind | kernel/sleeplock.c:22-41 | nobody sleeps for a free lock unless its wakeup is under way |
| SleepLock.AcquiresleepReturns | kernel/sleeplock.c:22-31 | acquiresleep of a free lock, as a run: the caller is its holder |
| SleepLock.ReleasesleepReturns | kernel/sleeplock.c:34-41 | releasesleep, as a run: the lock is free, and exactly those that slept for it are runnable |
| Sched.PanicsExactly | kernel/proc.c:491-508 | in every reachable state a step panics exactly if a process calls sched with another spin lock held |
| Sched.HoldingPanics | kernel/proc.c:491-508 | a run that does, on any CPU and with any process that can run |
| Sched.NoPanic | kernel/spinlock.c:22-110 | so no run that releases such locks first reaches a panic of acquire, release, pop_off or sched |
| Sched.HandOff | kernel/proc.c:445-543 | with p->lock free, p is RUNNING exactly if one CPU has it, and otherwise its context is saved and no CPU is on its stack |
| Sched.InterruptsRestored | kernel/proc.c:491-508 | when a thread releases its last lock, on any CPU, interrupts are as they were before its first |
| Sched.WasRecorded | kernel/spinlock.c:89-97 | only taking the first lock records that state |
| Sched.Dispatches | kernel/proc.c:445-485 | the scheduler that looks at a RUNNABLE process runs it, on its CPU, without locks, and with the interrupts the process had |
| Sched.PassesBy | kernel/proc.c:459-482 | one that is not RUNNABLE it leaves as it is |
| Sched.GivesUp | kernel/proc.c:491-518 | yield, sleep and exit end with the process in its new state, its context saved, its lock free and the scheduler back in its loop |
| Sched.ActsOn | kernel/proc.c:579-616 | wakeup, kill, allocproc, fork and wait at a process change its state as they should, and nothing else, and leave the interrupts as they were |
| Sched.RunsElsewhere | kernel/proc.c:445-592 | a process that sleeps on one CPU, is woken by a second and run by a third goes on there with its interrupts as they were |
| Sched.LocksNest | kernel/spinlock.c:22-110 | interrupts are off from the first of k nested acquires to the last release, and afterwards as before |
| Sched.StepKeeps | kernel/proc.c:445-543 | every step of every CPU keeps the invariant |
| ExitWait.FamilyTree | kernel/proc.c:280-435 | parents are alive, every process but init has one, and with wait_lock free nobody sleeps in wait with a ZOMBIE child |
| ExitWait.ReapedOnce | kernel/proc.c:347-435 | every exited process is a ZOMBIE or was returned by exactly one wait, with its pid and status, never both |
| ExitWait.GivesUpChildless | kernel/proc.c:391-435 | a wait that gives up without being killed has no children |
| ExitWait.ScanReaps | kernel/proc.c:402-425 | at a ZOMBIE child off its stack wait returns its pid and exit status and frees the slot; if copyout fails it returns with the child untouched |
| ExitWait.ZombieEndsWait | kernel/proc.c:391-435 | a wait whose caller has a ZOMBIE child neither gives up nor sleeps before it reaches it |
| ExitWait.WaitReturns | kernel/proc.c:391-435 | such a call, as a run, returns the pid and status of a ZOMBIE child |
| ExitWait.WaitEnds | kernel/proc.c:391-435 | without a ZOMBIE child it returns -1 exactly if there is no child or the caller was killed, and else sleeps with wait_lock free |
| ExitWait.ExitReturns | kernel/proc.c:347-387 | exit, as a run: a ZOMBIE with its status, children given to init, wait_lock free, the parent awake |
| ExitWait.ForkReturns | kernel/proc.c:280-326 | fork, as a run: a running child with a pid that was never used |
| ExitWait.ForkFails | kernel/proc.c:280-303 | a fork that fails after allocproc frees the slot |
| ExitWait.ForkExitWait | kernel/proc.c:280-435 | fork, exit of the child and wait: wait returns the pid of the child and the status it passed to exit |
| ExitWait.SleeperReaps | kernel/proc.c:347-435 | the same for a parent that sleeps in wait when the child exits |
| ExitWait.KillWakes | kernel/proc.c:598-616 | kill marks the process and ends its sleep in wait |
| ExitWait.OrphansToInit | kernel/proc.c:331-341 | a process gets a new parent only when its parent exits, and that is init |
| ExitWait.StepKeeps | kernel/proc.c:280-435 | every step of fork, exit, wait and kill keeps the invariant |
| VmState.EntryParts | kernel/riscv.h:360-371 | a page-table entry gives back its page and its flags |
| VmState.EntryFits | kernel/riscv.h:366-369 | the entry of any 56-bit physical address fits its 64-bit word |
| VmState.Indices | kernel/riscv.h:373-376 | the three indices of a virtual page determine it |
| VmState.TreeRefinesMap | kernel/vm.c:86-103 | what the hardware finds in the three-level tree is the map from virtual pages to entries |
| VmState.Conservation | kernel/kalloc.c:47-82 | every page is free, in the page table, mapped or held by a caller of kalloc, and only one of these |
| VmState.UsersFit | kernel/vm.c:233-256 | user memory runs out of pages before it reaches the trapframe |
| VmState.TreeFreed | kernel/vm.c:279-294 | freewalk gives back exactly the pages of the table |
| PageTables.AddressSpace.constructor | kernel/kalloc.c:27-40 | all pages of the range are on the free list |
| PageTables.AddressSpace.Kalloc | kernel/kalloc.c:69-82 | the first free page, or 0 exactly if there is none |
| PageTables.AddressSpace.Kfree | kernel/kalloc.c:47-63 | the page becomes the first of the free list |
| PageTables.AddressSpace.Walk | kernel/vm.c:86-103 | the place of the entry; free pages may become page-table pages, no mapping changes; null exactly if a table is missing and may not or cannot be made |
| PageTables.AddressSpace.Mappages | kernel/vm.c:144-172 | inserts the mappings into the map, all of them or as many as memory allowed; no remap; two free pages for each suffice |
| PageTables.AddressSpace.Uvmunmap | kernel/vm.c:178-199 | deletes the mappings and frees their pages if asked, and nothing else changes |
| PageTables.AddressSpace.Uvmcreate | kernel/vm.c:204-212 | an empty page table, or nothing |
| PageTables.AddressSpace.Uvmalloc | kernel/vm.c:233-256 | user memory is mapped without gaps to zeroed pages of its own up to the new size; on failure all mappings are as before, and there were not three free pages for each new one |
| PageTables.AddressSpace.Uvmdealloc | kernel/vm.c:263-274 | user memory ends at the new size, and its pages are free |
| PageTables.AddressSpace.Uvmcopy | kernel/vm.c:313-340 | equal contents and flags on pages of its own, the parent untouched; on failure the mappings are as before, and there were not three free pages for each |
| PageTables.AddressSpace.Freewalk | kernel/vm.c:279-294 | frees the page and every page-table page below it, level by level |
| PageTables.AddressSpace.Uvmfree | kernel/vm.c:299-304 | every page of user memory and of the table is free again |
| PageTables.AddressSpace.Uvmclear | kernel/vm.c:345-353 | one page is closed to the user; its other flags, all contents and all other mappings stay |
| Exec.ProcPagetable | kernel/proc.c:177-206 | a table with the trampoline, to read and execute, and the trapframe, to read and write, both closed to the user; on failure every page is free again, and there were not five |
| Exec.ProcFreepagetable | kernel/proc.c:211-216 | every page of the address space is free again |
| Exec.Walkaddr | kernel/vm.c:109-126 | the page of a mapping that is open to the user, else 0 |
| Exec.Loadseg | kernel/exec.c:148-166 | the byte at va + i becomes byte i of the file for every i below filesz, and no other byte of user memory changes; the address always exists; -1 exactly if the file is short |
| Loading.FlagsToPerm | kernel/exec.c:12-20 | bit 0 gives execution and bit 1 writing, and nothing else is given |
| Bytes.MixByte | kernel/exec.c:157-161 | a word with its first bytes read and the rest kept has exactly those bytes |
| Loading.PatchByte | kernel/exec.c:157-161 | reading n bytes into a page replaces exactly its first n bytes |
| Loading.SamePage | kernel/exec.c:157-161 | a page of 64-bit words is its 4096 bytes |
| Loading.ImageByte | kernel/exec.c:48-71 | a byte of the image is that of the file in the last segment that covers its address, and zero if none does |
| Loading.PushArguments | kernel/exec.c:90-111 | succeeds exactly if there are at most MAXARG strings and they and their pointers fit into the page of stack; they are then aligned and do not overlap |
| Exec.LoadSegment | kernel/exec.c:53-71 | the image afterwards is the one before with this segment's zeroed pages, permissions and file contents; it fails only for a malformed or empty segment, a short file or too few free pages |
| Exec.Exec | kernel/exec.c:48-136 | user memory is exactly the image of the segments, every byte and all permissions, then the closed guard page and the stack with the arguments, with trampoline and trapframe at the top; a failed exec leaks no page, and it fails only if a segment is refused, the arguments do not fit or memory is short |
| Virtio.Queue.constructor | kernel/virtio_disk.c:143-145 | all descriptors start out free |
| Virtio.Queue.AllocDesc | kernel/virtio_disk.c:157-166 | the first free descriptor, or -1 exactly if there is none |
| Virtio.Queue.FreeDesc | kernel/virtio_disk.c:170-182 | the descriptor is cleared and free |
| Virtio.Queue.Alloc3Desc | kernel/virtio_disk.c:201-213 | three free descriptors, or nothing changes, exactly if fewer than three are free |
| Virtio.Queue.FreeChain | kernel/virtio_disk.c:186-197 | terminates, having freed exactly the chain |
| VirtioDisk.Partition | kernel/virtio_disk.c:216-292 | a descriptor is free or in the chain of exactly one request |
| VirtioDisk.Chained | kernel/virtio_disk.c:242-270 | a request's three descriptors are linked, and header, data and status say what it wants: sector, direction, buffer |
| VirtioDisk.NothingMissed | kernel/virtio_disk.c:295-327 | handler and device find work exactly while a report or a request is open, although their counters wrap around |
| VirtioDisk.CompletionClears | kernel/virtio_disk.c:295-327 | each completion, in any order and across 16-bit wrap-around, is handled, and clears the buffer of the reported request and no other, once |
| VirtioDisk.FetchInOrder | kernel/virtio_disk.c:272-279 | the device gets every submitted request, once and in order |
| VirtioDisk.NoIdleDescriptors | kernel/virtio_disk.c:228-235 | nobody sleeps for descriptors while three are free |
| VirtioDisk.RequestMoves | kernel/virtio_disk.c:216-327 | the next step of every request is enabled, for the device, the handler or the process |
| VirtioDisk.WaiterMoves | kernel/virtio_disk.c:228-235 | whoever waits for descriptors can try, or a request that has some can move |
| VirtioDisk.RequestReturns | kernel/virtio_disk.c:216-327 | those steps bring every request to its end: the process returns, its descriptors are free, those that waited for some are awake |
| VirtioDisk.DiskRwReturns | kernel/virtio_disk.c:216-327 | a whole call of virtio_disk_rw: the device is asked for the block, buffer and direction of the caller, and the call returns |
| VirtioDisk.StepKeeps | kernel/virtio_disk.c:216-327 | every step of processes, device and handler keeps the invariant, and the status panic is unreachable |
| Pipe.Counters | kernel/pipe.c:88-113 | the wrapping counters tell full from empty |
| Pipe.PutHolds | kernel/pipe.c:95-95 | a byte that is put goes behind the others |
| Pipe.TakeHolds | kernel/pipe.c:121-123 | the byte that is taken is the oldest |
| Pipe.Buffer.PutSome | kernel/pipe.c:83-98 | as much of the buffer as fits is appended |
| Pipe.Buffer.TakeSome | kernel/pipe.c:118-124 | the oldest bytes, as many as asked for or there are |
| Pipe.FirstInFirstOut | kernel/pipe.c:77-130 | in every run the calls of piperead get the bytes in the order of insertion, at most one lost per call, by a failing copyout |
| Pipe.NobodyStranded | kernel/pipe.c:77-130 | with the lock free, writers sleep only on a full pipe that is open for reading, and readers only on one that is open for writing, which is empty exactly if no writer has strayed |
| Pipe.WriteReturns | kernel/pipe.c:77-103 | pipewrite with room, as a run, appends all bytes and wakes the readers |
| Pipe.WriteSleeps | kernel/pipe.c:77-103 | with less room it fills the pipe, wakes the readers and sleeps |
| Pipe.ReadReturns | kernel/pipe.c:106-130 | piperead that finds bytes, or the pipe closed for writing, returns the oldest ones, as many as asked for or there are, and wakes the writers |
| Pipe.SleeperReads | kernel/pipe.c:106-130 | a reader asleep on the empty pipe gets what the next writer puts |
| Pipe.SleeperWrites | kernel/pipe.c:77-103 | a writer asleep on the full pipe puts the rest once a reader has made room |
| Pipe.EndOfFile | kernel/pipe.c:59-130 | however long after pipeclose of the write end, nobody sleeps in piperead, and a read of the drained pipe returns 0 bytes at once |
| Pipe.BrokenPipe | kernel/pipe.c:59-103 | after pipeclose of the read end no byte is ever put, nobody sleeps in pipewrite, and a write fails at once |
| Pipe.KilledReaderReturns | kernel/pipe.c:106-119 | a reader killed in its sleep returns |
| Pipe.FaultSpills | kernel/pipe.c:118-124 | a piperead whose first copyout fails returns nothing and has taken one byte |
| Pipe.LeaveStrands | kernel/pipe.c:84-87 | a writer that returns -1 leaves all sleeping readers asleep, with bytes to read exactly if it put some since the last wakeup or a writer had strayed before |
| Pipe.StrandsExactly | kernel/pipe.c:59-130 | where none has strayed, a step strands a reader exactly if it is such a return and the reader slept |
| Pipe.StraysByLeaving | kernel/pipe.c:84-87 | a run without such a return strands nobody |
| Pipe.KilledWriterStrands | kernel/pipe.c:84-87 | with one it happens, to any reader, with any number of processes |
| Pipe.SleepsKilledExactly | kernel/pipe.c:84-119 | a process sleeps unwoken though killed exactly if it was killed between its test and its sleep |
| Pipe.KilledReaderSleeps | kernel/pipe.c:113-119 | which happens, to any process |
| Pipe.StepKeeps | kernel/pipe.c:59-130 | every step of readers, writers, pipeclose and kill keeps the invariant |
| UmallocState.Disjoint | user/umalloc.c:24-90 | blocks, free or in use, do not overlap |
| UmallocState.Conservation | user/umalloc.c:24-90 | the units obtained from sbrk are those free and those in use |
| UmallocState.FreeResult | user/umalloc.c:33-43 | the headers free writes make the list with the block in it, joined to its neighbours |
| Umalloc.Allocator.FindPlace | user/umalloc.c:30-32 | the search in free ends, at the block's place |
| Umalloc.Allocator.Free | user/umalloc.c:25-44 | the list stays one ordered, coalesced cycle; other blocks in use are untouched |
| Umalloc.Allocator.Morecore | user/umalloc.c:47-61 | at least nu and at least 4096 new units join the free list |
| Umalloc.SbrkAsksForAll | user/umalloc.c:54-54 | sbrk is asked for all the units exactly below 2 GB |
| Umalloc.WrappedBlock | user/umalloc.c:54-59 | otherwise the block reaches beyond the process's memory, and where sbrk did not shrink it the next block begins inside |
| Umalloc.Allocator.Malloc | user/umalloc.c:64-90 | a block of the right size that was not in use; 0 only if none is large enough and sbrk fails or its argument wraps; it ends within one cycle after morecore |
| Grep.MatchHere | user/grep.c:85-96 | true exactly if the text begins with a string of the pattern's language |
| Grep.MatchStar | user/grep.c:99-106 | true exactly if it does after some run of the starred character |
| Grep.Match | user/grep.c:73-82 | true exactly if some position, or under a caret the first, has a split of the text in the language |

## Left out

- Whole system: apart from the log under filewrite (Crash), the machines of the separate files are not composed; each takes what it uses of the others as its steps.
- Runs of single operations: a theorem about what one operation achieves follows the steps of its processes alone; what others may do in between is left to the invariants, and that every process is scheduled in the end is not modelled.
- FsOps.FileSystem.Writei: whether an unlogged change reaches the disk later, when the block is written again before a crash, is not followed.
- FsOps.FileSystem.Iupdate: the file system state has typed dinodes and bits; Dinodes relates the former to bytes, the bitmap's bytes are not modelled.
- FsOps.FileSystem.Balloc: one operation runs at a time here; locking of inodes and buffers is in Itable and Bio.
- Itable.TableProtocol: itrunc inside iput is one step, and contents stand for size and addresses.
- SleepWakeup.NoLostWakeup: a process waits for one channel at a time and holds no other condition lock.
- Sched.HandOff: spin locks other than p->lock only count, so who holds one of them is not modelled; interrupt handlers are steps of the thread they interrupt.
- ExitWait.ReapedOnce: pids do not wrap around at 2^31; files, directories and memory of a process are not part of it.
- PageTables.AddressSpace.Kalloc: the page allocator runs without contention.
- PageTables.AddressSpace.Uvmalloc: sizes do not wrap around at 2^64.
- Exec.Exec: reading the ELF header and the switch to the new image are left out; what the copies of the arguments leave in the stack page is given, and sys_exec passes fewer than MAXARG, so that the null fits into ustack.
- VirtioDisk.CompletionClears: the device reports success, so a nonzero status does not occur.
- Umalloc.Allocator.Malloc: after an sbrk whose argument has wrapped the heap is not followed; sbrk returns addresses that are multiples of a header's size.
- copyin, copyout and copyinstr: byte loops over walkaddr.
- filealloc, filedup, fileclose: a reference count simpler than the inode table's.
- Directories, paths and link counts (kernel/fs.c, kernel/sysfile.c): whether lookups name linked or open inodes is a hypothesis.
- Console, UART, traps, interrupt controller, boot and assembly code, system call dispatch, virtio initialisation: register plumbing.
- The shell, the user commands, mkfs, printing and string helpers: input and output, or easy.
- Memory fences and compiler reordering: steps are sequentially consistent.
