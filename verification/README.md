# A model of the xv6 kernel's hard parts and of two shells

Dafny 4.11 models of the repository's stateful cores, with proofs of what they promise. `dafny verify dfyconfig.toml`
checks the whole project. Code that changes state in place is modelled by classes and methods with loops; each
method is proved against a function or predicate on values, and the theorems are about those.

| modules | what they model |
|---|---|
| Params, RedoLog, CacheLog | the redo log: every disk write of commit and recovery, crashes between any two of them, and the interleaving of processes, buffer cache, log and committer |
| CommitRuns | runs of that machine in which a commit finds no buffer |
| FsCrash | the file system's invariant on the disk that a crash restores |
| BufferCache | the buffer cache's doubly linked list and its lookup and recycling |
| FsBytes, FsNames, FsData, Fs | bitmap, block allocation, direct and indirect blocks, inodes, reading and writing of files, and the transactions of `filewrite` |
| Mlfq, Sched | the four scheduler queues as rings, and every interleaving of the locked sections on any number of CPUs |
| SleepLock | sleep locks over the `sleep_prepare`/`sleep`/`wakeup` protocol |
| PageTable | Sv39 page tables (section 4.4 of the RISC-V Privileged Architecture, version 20211203) and the frame allocator |
| HeapAllocator (Heap.dfy) | the user-level allocator (section 8.7 of The C Programming Language, 2nd edition) |
| Pipe | pipes, with 32-bit counters that wrap around, as steps of one byte and as the code's locked sections |
| Grep | the regular-expression matcher |
| ShellSyntax, ShellGrammar, Shell | the parser of xv6's shell, and its grammar |
| CShellLexer, CShellParser | the lexer and the parser of the c-shell |
| PeekReverse | `peek -r` of the c-shell |

Spinlocks are taken to give mutual exclusion, so a locked section is one step; one `virtio_disk_rw` is one atomic
block read or write. What comes from outside (the answer of `sbrk`, how much of a user's memory can be read or
written, whether a process is killed, the tick counter) is a parameter.

Properties that do not hold of the code, each with its exact condition and a witness:

* the head push of a ring (xv6/kernel/proc.c:36) computes -1 with C's remainder exactly when the head is at 0 (`Mlfq.HeadIndexAsWritten`, `Mlfq.HeadPushAsWritten`), which NPROC rounds of a level lead to (`Mlfq.HeadZeroReached`);
* the boost's draining loop (xv6/kernel/proc.c:91-98) starts at level 0 and ends exactly when level 0 is empty on entry (`Mlfq.DrainStops`); `Sched.BoostHangs` is a run of six steps after which a due boost never ends;
* `malloc` of 2^31 - 31 bytes or more, whose size overflows the `int` parameter of `sbrk` (`HeapAllocator.SbrkGetsRequest`);
* the c-shell's lexer drops an operator that directly follows a word (`CShellLexer.LexerAsIntended`, `CShellLexer.PipeLost`);
* the c-shell's parser accepts misplaced redirections (`CShellParser.AcceptedOrLine`, `CShellParser.RedirectionUnchecked`);
* `peek -r` leaves out a leading empty line, and numbers lines wrongly exactly when some line begins with NUL (`PeekReverse.ReversesLines`, `PeekReverse.ForwardNumbers`; witnesses `PeekReverse.LeadingEmptyLineLost`, `PeekReverse.NulMisnumbers`);
* a commit gets its buffers exactly as long as the blocks that the log pins and the other blocks in use, those of readers outside any transaction (xv6/kernel/file.c:107-129) included, are fewer than the buffers (`CacheLog.CommitterBread`, `CacheLog.RoomForBread`, `CacheLog.CommitHasRoom`); the runs `CommitRuns.FullLogRun`, with a full log, and `CommitRuns.ReaderRun`, with a reader and a log that is not full, end in a commit that panics.

Where code and documentation differ, the code is followed: the README of the repository says that a woken process goes
to the head of its queue, and the code pushes it at the tail (xv6/kernel/proc.c:733).

## Model

| member | source | states |
|---|---|---|
| `RedoLog.HeadRoundTrip` | xv6/kernel/log.c:87-114 | the header read by `read_head` is the one written by `write_head` |
| `RedoLog.ReplayAbsorbs` | xv6/kernel/log.c:66-84 | installing again after any part of an installation gives the same disk as installing once |
| `RedoLog.CrashesRecover` | xv6/kernel/log.c:117-125 | any number of recoveries that crash after any of their writes do not change what the one that completes restores |
| `RedoLog.CommittedRecovers` | xv6/kernel/log.c:66-125 | recovery from a disk with the transaction in its log restores exactly the transaction and leaves all other home blocks |
| `RedoLog.EmptyRecovers` | xv6/kernel/log.c:117-125 | recovery with a clear header changes no home block |
| `RedoLog.BeforeHeader` | xv6/kernel/log.c:187-212 | before the header is written, recovery restores the state before the transaction |
| `RedoLog.AfterHeader` | xv6/kernel/log.c:187-212 | every later crash point of `commit` is a crash point of recovery from the committed disk |
| `RedoLog.CommitAtomic` | xv6/kernel/log.c:187-212 | crash atomicity: a crash after any write of `commit`, then any crashing recoveries, then one that completes, leaves all home blocks old or all new, new exactly when the header write reached the disk |
| `RedoLog.Log.ReadHead` | xv6/kernel/log.c:87-100 | loads the header that is on disk |
| `RedoLog.Log.WriteHead` | xv6/kernel/log.c:102-114 | writes the list into the header block, as one disk write |
| `RedoLog.Log.InstallTrans` | xv6/kernel/log.c:66-84 | its disk writes are exactly the copying of log blocks to their homes, and it unpins the blocks it copies unless recovering |
| `RedoLog.Log.RecoverFromLog` | xv6/kernel/log.c:117-125 | performs exactly the writes that the crash theorems speak about, and leaves an empty log |
| `RedoLog.Log.WriteLog` | xv6/kernel/log.c:186-199 | its disk writes are exactly the copying of the cached blocks to the log area |
| `RedoLog.Log.Commit` | xv6/kernel/log.c:201-212 | performs exactly the writes of the atomicity theorem, installs the transaction and empties the log |
| `RedoLog.Log.LogWrite` | xv6/kernel/log.c:223-244 | panics exactly when the list is full, before absorption, or outside a transaction; otherwise lists each block once and pins its new contents |
| `CacheLog.LogNeverFull` | xv6/kernel/log.c:128-150 | an operation that keeps a unit of its budget never meets the full-log panic |
| `CacheLog.StepKeeps` | xv6/kernel/log.c:128-244 | every step of every process keeps the invariants on log, cache, disk and log space |
| `CacheLog.ReadsSeeLastWrite` | xv6/kernel/bio.c:57-153 | what a reader of a home block sees changes only when a process modifies that block: recycling, filling, committing and installing never lose a write |
| `CacheLog.CrashSafe` | xv6/kernel/log.c:117-125 | in every state with the invariant, a crash with any crashing recoveries restores the committed blocks |
| `CacheLog.QuiescentDurable` | xv6/kernel/log.c:154-184 | whenever no operation is open and no commit is under way the log is empty, and what is read of a home block is what is committed and on disk |
| `CacheLog.EndedIsDurable` | xv6/kernel/log.c:154-212 | in every run, when the last `end_op` has returned, a crash with any crashing recoveries restores exactly what readers see |
| `CacheLog.CommitPassesHeader` | xv6/kernel/log.c:154-212 | in every run, from a log that is not empty at the start of a commit the only way back to an open log passes the header write |
| `CacheLog.CommitGoesOn` | xv6/kernel/log.c:187-212 | the order of a commit, copy all, write the header, install all, clear the header, and that the committer can take each next step once it holds its buffers |
| `CacheLog.BeginAdmits` | xv6/kernel/log.c:128-150 | an operation is admitted exactly when no commit is under way and ten blocks for each open operation and itself still fit; so always when none is open |
| `CacheLog.RunKeeps` | xv6/kernel/log.c:128-244 | the invariants hold in every state of every run |
| `CacheLog.CommittedIsLastCommit` | xv6/kernel/log.c:201-212 | what counts as committed is what readers saw when the header was last written |
| `CacheLog.CrashTheorem` | xv6/kernel/log.c:117-212 | in every run, a crash restores what readers saw at the last commit, and no operation was open then |
| `CacheLog.RunNeverPanics` | xv6/kernel/log.c:223-244 | in every run the full-log panic is unreachable for operations that log fewer blocks than their budget |
| `CacheLog.RunFits` | xv6/kernel/bio.c:57-89 | in every run the cache holds at most NBUF blocks |
| `CacheLog.PanicIsNoStep` | xv6/kernel/bio.c:74-89 | the panic of `bget` is exactly the case in which no step of it is possible |
| `CacheLog.CommitterBread` | xv6/kernel/log.c:187-199 | a `bread` of an uncached block panics exactly when all NBUF buffers are taken, each by a pinned block or by a block in use |
| `CacheLog.RoomForBread` | xv6/kernel/bio.c:74-89 | that is exactly when pinned blocks and other blocks in use number NBUF, and they never number more |
| `CacheLog.FullLogStops` | xv6/kernel/log.c:187-199 | with LOGBLOCKS blocks logged the commit's next `bread` of a log block panics |
| `CacheLog.CommitHasRoom` | xv6/kernel/log.c:154-184 | the commit that an operation's end starts gets its buffers if fewer other blocks are in use than the operation has left of its budget |
| `CommitRuns.FullLogRun` | xv6/kernel/log.c:187-199 | a run in which three operations log thirty blocks and the commit's first `bread` panics |
| `CommitRuns.ReaderRun` | xv6/kernel/log.c:187-199 | a run in which twenty-nine blocks are logged, a reader outside any transaction holds a buffer, and the commit's first `bread` panics |
| `BufferCache.UnlinkOk` | xv6/kernel/bio.c:126-129 | relinking the neighbours takes one buffer out of the list and keeps the rest in order |
| `BufferCache.FrontOk` | xv6/kernel/bio.c:130-133 | linking in at the head keeps a well-formed list |
| `BufferCache.HitOk` | xv6/kernel/bio.c:64-72 | handing out the first match keeps keys unique, also when it is a buffer that only looks like block 0 of device 0 |
| `BufferCache.RecycleOk` | xv6/kernel/bio.c:76-86 | giving an unused buffer to a block that no buffer has keeps keys unique |
| `BufferCache.HitUnique` | xv6/kernel/bio.c:45-72 | the first match is the one buffer handed out for the block, or none has been |
| `BufferCache.Cache.constructor` | xv6/kernel/bio.c:35-53 | the list holds every buffer exactly once and none has been handed out |
| `BufferCache.Cache.FindKey` | xv6/kernel/bio.c:64-72 | the walk ends and finds the most recently used match if there is one |
| `BufferCache.Cache.FindUnused` | xv6/kernel/bio.c:76-86 | the walk ends and finds, of the unused buffers, one released longest ago; none exactly if all are in use |
| `BufferCache.Cache.Bget` | xv6/kernel/bio.c:57-89 | returns the one buffer of a cached block, else recycles the least recently used unused buffer; panics exactly if not cached and all are in use; touches no other buffer |
| `BufferCache.Cache.Brelse` | xv6/kernel/bio.c:116-136 | the buffer goes to the front exactly when its last user releases it; keys and other counts stay |
| `BufferCache.Cache.Bpin` | xv6/kernel/bio.c:139-144 | one more reference, list and keys as before |
| `BufferCache.Cache.Bunpin` | xv6/kernel/bio.c:147-152 | one reference less, list and keys as before |
| `FsBytes.BitChanges` | xv6/kernel/fs.c:77-104 | setting or clearing the bit of one block in the bytes of a bitmap block leaves all other bits |
| `FsNames.MarkedIs` | xv6/kernel/fs.h:47-51 | where the bit of a block is: bitmap block, byte and binary digit |
| `FsData.OnDisk` | xv6/kernel/fs.c:420-459 | where byte p of an inode is: behind one of twelve addresses, or behind a little-endian entry of the block at the thirteenth |
| `FsCrash.InodeOnDisk` | xv6/kernel/fs.h:32-45 | where the fields of inode i are: sixteen inodes to a block, sixteen words to an inode |
| `FsBytes.WordChanges` | xv6/kernel/fs.c:444-450 | storing a block number in an indirect block reads back and leaves the other entries |
| `FsNames.NameOne` | xv6/kernel/fs.c:421-456 | a slot that starts to name an unnamed block keeps naming unique |
| `FsNames.UnnameSome` | xv6/kernel/fs.c:464-491 | slots of one inode that stop naming their blocks leave exactly the other names |
| `FsNames.MarkOk` | xv6/kernel/fs.c:77-104 | one bit of the bitmap changes and the rest agree with the blocks in use |
| `FsData.AllocKeeps` | xv6/kernel/fs.c:67-90 | allocating and zeroing a free block changes no file and no name |
| `FsData.AllocAddr` | xv6/kernel/fs.c:426-446 | a new block in a slot of the inode keeps ownership; every file reads as before |
| `FsData.AllocWord` | xv6/kernel/fs.c:447-456 | a new block in an indirect slot keeps ownership; every file reads as before |
| `FsData.WriteKeeps` | xv6/kernel/fs.c:554-568 | writing bytes of one block overwrites exactly that range of that file |
| `FsData.FreeDirect` | xv6/kernel/fs.c:470-475 | freeing a direct slot keeps ownership and the other files |
| `FsData.FreeIndirect` | xv6/kernel/fs.c:477-488 | freeing the indirect entries and their block keeps ownership and the other files |
| `FsData.ContentsAfter` | xv6/kernel/fs.c:554-574 | what the blocks hold and the new size make the file: the old bytes with the written ones spliced in, and past the returned count those stored bytes that lie below the old size |
| `Fs.FileSystem.Format` | xv6/mkfs/mkfs.c:240-252 | an empty file system whose bitmap marks exactly the metadata satisfies the invariant |
| `Fs.FileSystem.Balloc` | xv6/kernel/fs.c:67-90 | the first free block, marked and zeroed; 0 exactly means that every data block is in use |
| `Fs.FileSystem.Bfree` | xv6/kernel/fs.c:93-107 | of a block in use clears its bit only; the panic is unreachable |
| `Fs.FileSystem.Bmap` | xv6/kernel/fs.c:420-459 | the block behind a file block, allocated if need be; all files read as before; 0 only if the disk is full; nothing changes if the block is there |
| `Fs.FileSystem.Itrunc` | xv6/kernel/fs.c:463-492 | frees exactly the blocks that the inode names, and keeps every other file |
| `Fs.FileSystem.Iupdate` | xv6/kernel/fs.c:227-243 | the in-memory inode reaches the disk, and no other does |
| `Fs.FileSystem.Ialloc` | xv6/kernel/fs.c:200-222 | takes the first free inode and leaks no block; null exactly if there is none |
| `Fs.FileSystem.Ilock` | xv6/kernel/fs.c:294-320 | the in-memory inode is the one on disk |
| `Fs.FileSystem.Ifree` | xv6/kernel/fs.c:332-340 | an inode that names nothing becomes free |
| `Fs.FileSystem.Iput` | xv6/kernel/fs.c:349-378 | the last reference to an unlinked inode frees its blocks and the inode; otherwise the disk is as before |
| `Fs.FileSystem.ReadI` | xv6/kernel/fs.c:509-538 | a slice of the file's bytes, across the direct/indirect boundary; never allocates and changes nothing; -1 exactly if the destination cannot be written |
| `Fs.FileSystem.WriteI` | xv6/kernel/fs.c:543-579 | the file afterwards is its old contents with the returned bytes of the source spliced in at the offset and extended; if the source could not be read, further stored bytes show only below the old size; partial results only if the disk is full or the source cannot be read; refuses exactly the stated ranges; keeps every other file, block ownership and the mapping below the size |
| `Fs.FileSystem.WriteThenRead` | xv6/kernel/fs.c:509-579 | reading the range that `writei` reports returns the bytes written |
| `Fs.FileSystem.WriteTransaction` | xv6/kernel/file.c:149-172 | every `log_write` of one chunk, the last by `iupdate`, finds fewer than MAXOPBLOCKS distinct blocks logged, whatever the size of the bitmap; at most MAXOPBLOCKS in all, and fewer when the bitmap is one block; the file changes as by `writei` |
| `Fs.FileSystem.FileWrite` | xv6/kernel/file.c:134-179 | the chunks together splice the bytes into the file in order, the offset moves with them, and it returns n exactly if all were written; nothing changes for an offset beyond the end |
| `Fs.LogBound` | xv6/kernel/file.c:149-172 | at most four data blocks, an indirect block and a bitmap block for each of at most four allocations are logged before the inode block |
| `Fs.BlockOwnership` | xv6/kernel/fs.c:67-107 | a bit is set exactly for metadata blocks and for blocks named by exactly one slot |
| `FsCrash.WordsAgree` | xv6/kernel/fs.c:445-450 | the disk's words read as bytes give the same block numbers |
| `FsCrash.GoodElsewhere` | xv6/kernel/fs.h:7-27 | whether a disk holds a file system in order does not depend on the log area |
| `FsCrash.QuietIsGood` | xv6/kernel/log.c:128-184 | if operations take good file systems to good ones, every state with no operation open is good |
| `FsCrash.FileSystemSurvives` | xv6/kernel/log.c:117-212 | then a crash in any state of any run, with any crashing recoveries, restores a disk that holds a file system in order |
| `FsCrash.OwnershipSurvives` | xv6/kernel/fs.c:67-107 | on that disk a bit is set exactly for metadata blocks and for blocks named by exactly one slot |
| `Mlfq.HeadIndexAsWritten` | xv6/kernel/proc.c:36-37 | line 36 with C's remainder is the intended index exactly when the head is not 0 |
| `Mlfq.HeadPushAsWritten` | xv6/kernel/proc.c:36-38 | at head 0 the process is stored in the row before, outside the ring |
| `Mlfq.RoundsHead` | xv6/kernel/proc.c:28-50 | n rounds of tail push and pop move the head by n modulo NPROC |
| `Mlfq.HeadZeroReached` | xv6/kernel/proc.c:28-50 | so NPROC rounds on an empty level lead to a head push at head 0, which takes the index -1 |
| `Mlfq.RingPushTail` | xv6/kernel/proc.c:28-40 | a tail push of the ring appends to the deque |
| `Mlfq.RingPushHead` | xv6/kernel/proc.c:28-40 | a head push with the intended wrap prepends to the deque |
| `Mlfq.RingPop` | xv6/kernel/proc.c:42-50 | a pop of the ring takes the front of the deque |
| `Mlfq.Room` | xv6/kernel/proc.c:28-40 | with no process queued twice there is always room for one more |
| `Mlfq.DrainStops` | xv6/kernel/proc.c:90-98 | popping from and pushing to level 0 empties it after no number of rounds unless it is empty |
| `Mlfq.HistoryStep` | xv6/kernel/proc.c:103-126 | one `yield_mlfq` advances the closed form of (queue, tick) by one, and moves to the tail exactly at the end of a quantum |
| `Mlfq.YieldQueues` | xv6/kernel/proc.c:103-126 | after n turns a process goes to the tail of its new level exactly if n is 0, 4, 12 or 12 + 16k, else to the head of its own; the other levels stay |
| `Mlfq.NextOfItsLevel` | xv6/kernel/proc.c:119-121 | a process with quantum left is the next one popped from its level |
| `Mlfq.BoostQueues` | xv6/kernel/proc.c:90-118 | with a boost due all levels are joined at level 0 in order, and the yielding process is alone at level 1 |
| `Mlfq.Scheduler.Push` | xv6/kernel/proc.c:28-40 | adds the process at the tail or the head of the level, and does nothing for a queued process |
| `Mlfq.Scheduler.PopHead` | xv6/kernel/proc.c:42-50 | takes the process at the head of the level; 0 exactly if the level is empty |
| `Mlfq.Scheduler.Boost` | xv6/kernel/proc.c:90-102 | with level 0 empty, appends levels 1, 2, 3 in order to level 0 and resets exactly the queued processes |
| `Mlfq.Scheduler.PickNext` | xv6/kernel/proc.c:58-70 | takes the front of the first non-empty level |
| `Mlfq.Scheduler.YieldMlfq` | xv6/kernel/proc.c:86-126 | the process goes to the tail of its level at the end of its quantum and to the head otherwise, and its level follows its number of turns; with a boost due, 48 ticks after the last, levels 1, 2 and 3 are appended to level 0 and it is alone at level 1; nothing changes for the others but the boost |
| `Sched.PoppedIsRunnable` | xv6/kernel/proc.c:71-78 | a popped process is runnable once its lock is held, so the check never drops one |
| `Sched.StepKeeps` | xv6/kernel/proc.c:58-126 | every step keeps: a runnable process is in exactly one queue or with exactly one CPU, others are in none, and levels follow the history |
| `Sched.RunKeeps` | xv6/kernel/proc.c:346-352 | the invariant holds in every state of every run on any number of CPUs |
| `Sched.RunLosesNothing` | xv6/kernel/proc.c:701-769 | in every run each pop finds a runnable process and each enqueueing finds it outside the queues |
| `Sched.LevelsChangeOnlyByYield` | xv6/kernel/proc.c:86-126 | sleep, wakeup, kill and scheduling never change (queue, tick); a boost resets only queued processes and the yielding one |
| `Sched.LevelsKeep` | xv6/kernel/proc.c:28-126 | every step keeps each queued process in the queue of its own level |
| `Sched.RunLevels` | xv6/kernel/proc.c:28-126 | so in every state of every run |
| `Sched.QueuedAtItsLevel` | xv6/kernel/proc.c:729-736 | in every run a process found in queue q has level q |
| `Sched.WakeAppends` | xv6/kernel/proc.c:729-736 | a woken process goes behind all that wait at its level; the other queues, the CPUs and the other processes stay |
| `Sched.StartAppends` | xv6/kernel/proc.c:346-352 | a new process goes to the tail of level 0; all else stays |
| `Sched.YieldRequeues` | xv6/kernel/proc.c:86-126 | a yielding process goes to the tail of its next level after its 1st, 5th and 13th turn and every 16th from there, else to the head of its own |
| `Sched.PickTakes` | xv6/kernel/proc.c:58-70 | a CPU takes the head of the first level that is not empty |
| `Sched.StateGraph` | xv6/kernel/proc.c:685-769 | a step changes the state of one process at most, and only in the ways of the state diagram |
| `Sched.BoostHangs` | xv6/kernel/proc.c:86-98 | a run of six steps to a state in which a process runs, level 0 is not empty, and the drain of a due boost never ends |
| `SleepLock.MutualExclusion` | xv6/kernel/sleeplock.c:21-44 | a lock has at most one holder, and is held exactly while it is locked |
| `SleepLock.NoLostWakeup` | xv6/kernel/proc.c:685-743 | with the spinlock free and the lock unlocked, no process sleeps on it |
| `SleepLock.CallStep` | xv6/kernel/sleeplock.c:21-44 | a process leaves `acquiresleep` only by taking a lock that was free, and the locks it holds change only by its own taking and giving up |
| `SleepLock.AcquireTakes` | xv6/kernel/sleeplock.c:21-34 | in every run `acquiresleep` returns only after the caller has taken the lock |
| `SleepLock.Progress` | xv6/kernel/sleeplock.c:21-44 | while a lock is free, a process inside `acquiresleep`, or else the owner of its spinlock, can take a step |
| `SleepLock.StepKeeps` | xv6/kernel/sleeplock.c:21-44 | every step of acquiring, sleeping, waking, releasing and killing keeps the invariant |
| `SleepLock.RunKeeps` | xv6/kernel/proc.c:685-769 | the invariant holds in every state of every run |
| `SleepLock.RunSafe` | xv6/kernel/proc.c:685-769 | mutual exclusion and no lost wakeup in every state of every run |
| `PageTable.LeafUnique` | xv6/kernel/vm.c:98-116 | two pages never share a leaf entry |
| `PageTable.HardwareView` | xv6/kernel/riscv.h:395-411 | the map of a space is what the hardware makes of the tables: an address is translated exactly if its page is mapped readable or executable, by that entry |
| `PageTable.GrownBytes` | xv6/kernel/vm.c:217-244 | growth from one size to another adds exactly the pages that begin in between, valid, readable by the user, and writable or executable as asked for |
| `PageTable.LeafView` | xv6/kernel/vm.c:146-174 | writing a leaf entry updates the map at one page |
| `PageTable.GrowSpace` | xv6/kernel/vm.c:98-116 | a new zeroed table leaves the map as it is |
| `PageTable.SpaceFrame` | xv6/kernel/vm.c:98-116 | memory outside the tables does not affect the map |
| `PageTable.GrownByUndo` | xv6/kernel/vm.c:217-244 | removing the new pages restores map and frames |
| `PageTable.CopyUndo` | xv6/kernel/vm.c:298-326 | removing the copied pages restores map and frames |
| `PageTable.OtherSpace` | xv6/kernel/vm.c:298-326 | changes within one space and the free list leave a separate space alone |
| `PageTable.LeafPage` | xv6/kernel/vm.c:264-281 | every leaf entry of the tree is that of some page |
| `PageTable.Kernel.Freerange` | xv6/kernel/kalloc.c:33-40 | frees exactly the whole frames between two addresses |
| `PageTable.Kernel.Kalloc` | xv6/kernel/kalloc.c:68-82 | the first free frame, or 0 exactly if there is none |
| `PageTable.Kernel.Kfree` | xv6/kernel/kalloc.c:46-64 | the frame goes to the front of the free list |
| `PageTable.Kernel.Walk` | xv6/kernel/vm.c:98-116 | the leaf table of a page, created on demand, with the map unchanged; fails only for want of a table |
| `PageTable.Kernel.Walkaddr` | xv6/kernel/vm.c:121-140 | the frame of a valid user page, 0 for every other address |
| `PageTable.Kernel.MapPages` | xv6/kernel/vm.c:146-174 | adds consecutive pages to the map and leaves all others; for want of a table only the first k are added |
| `PageTable.Kernel.Uvmcreate` | xv6/kernel/vm.c:179-189 | an empty map, or 0 if no frame is free |
| `PageTable.Kernel.Uvmunmap` | xv6/kernel/vm.c:193-213 | removes exactly the given pages, frees their frames if asked, counts them, and leaves the contents of all pages that stay |
| `PageTable.Kernel.Uvmalloc` | xv6/kernel/vm.c:217-244 | exactly the new pages, each to its own zeroed frame; on failure the map is restored and no more frames are free than pages were asked for; no other page or memory changes |
| `PageTable.Kernel.Uvmdealloc` | xv6/kernel/vm.c:248-260 | removes exactly the pages between the rounded sizes and leaves the contents of all pages that stay |
| `PageTable.Kernel.Freewalk` | xv6/kernel/vm.c:264-281 | without leaves the panic is unreachable and every table is freed |
| `PageTable.Kernel.Uvmfree` | xv6/kernel/vm.c:284-290 | every frame taken since `uvmcreate` is free again, and memory outside the space is untouched |
| `PageTable.Kernel.Uvmcopy` | xv6/kernel/vm.c:298-326 | own copies of all mapped pages with the same contents and flags; on failure the map is restored and no more frames are free than pages were to copy; the old space is untouched |
| `PageTable.Kernel.IsMapped` | xv6/kernel/vm.c:480-491 | whether the page is in the map |
| `PageTable.Kernel.Vmfault` | xv6/kernel/vm.c:458-478 | maps one zeroed frame, readable and writable by the user, or changes nothing for an address beyond the size, a mapped page or at most one free frame |
| `HeapAllocator.FreedOk` | xv6/user/umalloc.c:24-44 | freeing with coalescing keeps the address-ordered circular list, the partition and the absence of adjacent free blocks |
| `HeapAllocator.ServedOk` | xv6/user/umalloc.c:74-84 | taking or splitting a block keeps them too |
| `HeapAllocator.AddRegionOk` | xv6/user/umalloc.c:46-61 | memory from sbrk joins the partition |
| `HeapAllocator.BlocksDisjoint` | xv6/user/umalloc.c:24-90 | two blocks, free or live, never share memory |
| `HeapAllocator.StopsAtSlot` | xv6/user/umalloc.c:30-32 | the search of `free` stops exactly at the place of the block |
| `HeapAllocator.SbrkGetsRequest` | xv6/user/umalloc.c:46-73 | the size that reaches `sbrk` is the block's size exactly below a limit, with a request beyond it that gets one header's worth |
| `HeapAllocator.Allocator.FindSlot` | xv6/user/umalloc.c:30-32 | the search loop ends at the place of the block |
| `HeapAllocator.Allocator.Free` | xv6/user/umalloc.c:24-44 | the block becomes free and the invariants hold |
| `HeapAllocator.Allocator.Morecore` | xv6/user/umalloc.c:46-61 | a region of at least the request joins the free list |
| `HeapAllocator.Allocator.Malloc` | xv6/user/umalloc.c:63-90 | a large enough new block disjoint from all live ones; asks for no memory if a free block is large enough; fails only if `sbrk` does; its search ends |
| `Pipe.SlotOfCounter` | xv6/kernel/pipe.c:100-130 | slot numbers of wrapping counters agree because 512 divides 2^32 |
| `Pipe.RingPut` | xv6/kernel/pipe.c:101-102 | writing appends to the ring's contents |
| `Pipe.RingGet` | xv6/kernel/pipe.c:129-138 | reading takes the first of the ring's contents |
| `Pipe.Fifo` | xv6/kernel/pipe.c:76-143 | in every state of every interleaving of one-byte steps, for any number of bytes, the bytes read are a prefix of the bytes written, and the difference is what the 32-bit counters say and at most PIPESIZE |
| `Pipe.StepKeeps` | xv6/kernel/pipe.c:76-143 | every step keeps the ring in agreement with the bytes written and read; a byte enters at the end and leaves at the front |
| `Pipe.RunKeeps` | xv6/kernel/pipe.c:76-143 | that holds in every state of every run |
| `Pipe.SentInOrder` | xv6/kernel/pipe.c:100-103 | the bytes written are those of the writers' steps, in their order |
| `Pipe.CounterTests` | xv6/kernel/pipe.c:88-131 | the comparisons of counters decide full and empty |
| `Pipe.Pipe.Write` | xv6/kernel/pipe.c:76-109 | the bytes enter in order, as steps of the machine, up to the first place where the source is done, the reader closed, the process killed, the pipe full or the memory unreadable, with the result of each case |
| `Pipe.Pipe.Read` | xv6/kernel/pipe.c:111-143 | the bytes leave in order, as steps of the machine; blocks exactly if empty, open and not killed; 0 at the end of file; an undelivered byte stays |
| `Pipe.Pipe.Close` | xv6/kernel/pipe.c:58-74 | closing the write end clears `writeopen` only and closing the read end `readopen` only; the bytes stay; dead exactly if both are closed |
| `Pipe.EndsInRun` | xv6/kernel/pipe.c:58-74 | in every run an end is open exactly until it is closed, and no byte enters after the read end is closed |
| `Grep.LangUncons` | xv6/user/grep.c:85-108 | a match of a pattern divides after its first item |
| `Grep.MatchHere` | xv6/user/grep.c:85-97 | true exactly if a prefix of the text, all of it under a final `$`, is in the language of the pattern |
| `Grep.MatchStar` | xv6/user/grep.c:100-108 | the same for a repetition followed by a pattern |
| `Grep.Match` | xv6/user/grep.c:72-82 | true exactly if the text splits as prefix, match and suffix, with `^` and `$` as anchors |
| `Grep.ParseIs` | xv6/user/grep.c:85-97 | a pattern has one reading: the items whose text it is, `.` being any character, an item before `*` a repetition, and `$` at the very end the end of the text |
| `Grep.PlainIsSearch` | xv6/user/grep.c:72-97 | a pattern without special characters matches exactly the texts that contain it |
| `Grep.OnlyStar` | xv6/user/grep.c:72-108 | `^c*$` matches exactly the texts of c alone, and every text if c is a period |
| `ShellSyntax.PrintParse` | xv6/user/sh.c:268-452 | a command printed with full parentheses parses to the same command |
| `ShellSyntax.ParsesArePrintable` | xv6/user/sh.c:333-348 | the commands that lines stand for are exactly those with at most nine arguments, words of word characters, and redirections of input read only as descriptor 0 or of output created and truncated or only created as descriptor 1; printing one, with `<`, `>` or `>>` for these, gives such a line |
| `ShellGrammar.LexIsLayout` | xv6/user/sh.c:268-314 | a text has given tokens exactly if it is a layout of them: any of the five blanks before each, none needed but between two words or after `>` before another |
| `ShellGrammar.RedirsRead` | xv6/user/sh.c:380-403 | redirections wrap the command in their order: `<` is read only (0) as descriptor 0, `>` is created and truncated (0x601) and `>>` only created (0x201) as descriptor 1 |
| `ShellGrammar.LineRead` | xv6/user/sh.c:350-452 | a phrase of the grammar is read to the command it stands for, wherever its redirections stand among its words |
| `ShellGrammar.LineParsed` | xv6/user/sh.c:350-452 | whatever is read is a phrase of the grammar and stands for the command returned |
| `ShellGrammar.Language` | xv6/user/sh.c:333-452 | a line is accepted with a command exactly if its tokens are those of a phrase that stands for the command |
| `Shell.GetToken` | xv6/user/sh.c:271-314 | the token's kind, its maximal slice and the rest of the line |
| `Shell.PeekAt` | xv6/user/sh.c:316-326 | skips blanks and looks at one character |
| `Shell.ParseLine` | xv6/user/sh.c:350-365 | computes the specified command with slices for words, on every string |
| `Shell.ParsePipe` | xv6/user/sh.c:367-378 | the same for pipelines |
| `Shell.ParseRedirs` | xv6/user/sh.c:380-403 | the same for redirections, whose modes and descriptors `ShellGrammar.RedirsRead` states |
| `Shell.ParseBlock` | xv6/user/sh.c:405-419 | the same for parentheses |
| `Shell.ParseExec` | xv6/user/sh.c:421-452 | the same for simple commands, with the limit on arguments |
| `Shell.NulTerminate` | xv6/user/sh.c:454-499 | a NUL after every word and no other change |
| `Shell.SeenIsResolved` | xv6/user/sh.c:454-499 | every word then reads back, as a C string, as exactly its slice |
| `Shell.ParseCmd` | xv6/user/sh.c:333-348 | the pointers it returns spell the command that the line stands for; it fails exactly on the other lines |
| `CShellLexer.ReadQuoted` | c-shell/src/lexer.c:68-105 | the quotation's text, within the buffer; fails exactly if it does not end |
| `CShellLexer.ReadWord` | c-shell/src/lexer.c:55-109 | the word's text, never more characters stored than read, so the buffer suffices |
| `CShellLexer.Lexer` | c-shell/src/lexer.c:5-116 | computes the specified tokens, or fails |
| `CShellLexer.LexPrint` | c-shell/src/lexer.c:5-116 | tokens with any blanks between them, and words of parts that are bare, escaped, single-quoted or double-quoted, where a backslash before an ordinary character stays, read back with the same values and types |
| `CShellLexer.LexIsSpelling` | c-shell/src/lexer.c:5-116 | the intended reading of a line is a list of tokens exactly if the line spells them in this way |
| `CShellLexer.GluedLoses` | c-shell/src/lexer.c:8-59 | the same lines fail; operator characters are lost exactly if an operator is glued to a word |
| `CShellLexer.LexerAsIntended` | c-shell/src/lexer.c:8-59 | the result is the intended one exactly without glued operators |
| `CShellLexer.PipeLost` | c-shell/src/lexer.c:8-59 | a pipe sign between two words, with no blanks, gives the two words only |
| `CShellParser.LineInPlace` | c-shell/src/parser.c:6-24 | the header's grammar is a condition on each operator and its neighbours |
| `CShellParser.AcceptedOrLine` | c-shell/src/parser.c:25-148 | a list is of the grammar exactly if it is accepted and its redirections stand between words |
| `CShellParser.AcceptsTheGrammar` | c-shell/src/parser.c:6-148 | without redirections the parser accepts exactly the grammar |
| `CShellParser.RedirectionUnchecked` | c-shell/src/parser.c:125-139 | a lone `>` is accepted |
| `CShellParser.Parser` | c-shell/src/parser.c:25-148 | accepts exactly by its rule; flattening the nodes gives back the tokens, each node closed by one separator |
| `PeekReverse.PiecesUnique` | c-shell/src/bins.c:681-762 | the lines are the only newline-free texts that join to the file |
| `PeekReverse.CountLines` | c-shell/src/bins.c:687-701 | the number of lines that the first pass counts |
| `PeekReverse.ScanChunk` | c-shell/src/bins.c:724-742 | prints the lines that start in the buffer, last first, and leaves the part before them |
| `PeekReverse.PeekReverse` | c-shell/src/bins.c:675-762 | the output for every file and every chunk size is that of plain line reversal, whatever the chunk size |
| `PeekReverse.ReversesLines` | c-shell/src/bins.c:681-762 | output i is line i from the end; only a leading empty line is missing |
| `PeekReverse.ForwardNumbers` | c-shell/src/bins.c:681-762 | non-empty lines get their forward number exactly if no line begins with NUL |
| `PeekReverse.LeadingEmptyLineLost` | c-shell/src/bins.c:752-760 | a file with a leading empty line is printed without it |
| `PeekReverse.NulMisnumbers` | c-shell/src/bins.c:687-701 | a file with a line that begins with NUL gets the numbers 1 and 0 |

## Left out

- The rest of the c-shell (processes, signals, terminal control, its other built-in commands), whose behaviour lies in the host system.
- Device drivers, interrupts, start-up and assembly; memory ordering of spinlocks.
- System-call wrappers, `exec`, directories and path names: argument checks and byte layouts that would only add easy members. `sys_sync` too.
- Console and `printf` formatting, small user programs, and the repository's own tests and plotting scripts.
- `copyin`, `copyout` and `copyinstr` (xv6/kernel/vm.c): how far the user's memory can be read or written is a parameter of `Pipe`, `ReadI` and `WriteI`.
- The stores that lay out an inode in its block: in `Fs` inodes are records kept apart from the raw blocks, and writes to them count as writes of their block; `FsCrash` reads the layout. The table of in-memory inodes (`iget`, `idup`) is reduced to one object with a reference count.
- The range and alignment panics of `kfree`: frames are numbers.
- Concurrent use of one inode: the methods of `Fs` are the sections that hold the inode's lock; `FileWrite` assumes that nobody else writes the file between its transactions.
- `grep`'s buffer handling around the matcher, and `runcmd` of the shell.
- Allocation failure and the fixed 100-entry arrays of the c-shell, and short reads in `peek`.
- HeapAllocator.Allocator.Malloc: requests of 2^31 - 31 bytes or more are excluded, because the size passed to `sbrk` overflows there; `HeapAllocator.SbrkGetsRequest` gives the exact limit.
- Mlfq.Scheduler.Push: the head push uses the intended wrap; what C's remainder does is stated apart in `Mlfq.HeadIndexAsWritten` and `Mlfq.HeadPushAsWritten`.
- Mlfq.Scheduler.Boost: requires level 0 to be empty, because the loop does not end otherwise (`Mlfq.DrainStops`); in `Sched` a CPU that would start such a boost takes no step (`Sched.BoostHangs` reaches such a state).
- Mlfq.Scheduler.YieldMlfq: requires level 0 to be empty when a boost is due, for the same reason.
- CacheLog.RunNeverPanics: for operations that have logged fewer than MAXOPBLOCKS blocks before each call, because the full-log check comes before absorption; that a system call does so is shown for `filewrite` only (`Fs.FileSystem.WriteTransaction`).
- CacheLog.StepKeeps: the panic of `bget` for want of a buffer is no step of the machine; `CacheLog.PanicIsNoStep`, `CacheLog.CommitterBread` and `CacheLog.FullLogStops` say when it happens.
- FsCrash.FileSystemSurvives: that the operations of a run take a good file system to a good one is a hypothesis (`FsCrash.OpsKeep`); `Fs` proves it of each operation run alone.
- Fs.FileSystem.Bfree: requires the block to be in use, which every caller modelled here establishes; the panic is what happens otherwise.
