# Verification of the storage, process, memory and tool code

Dafny models of the hardest code of this repository, with proofs. Each group below is
independent of the others except where it says so; a module follows one source file or one
protocol. Code that changes state in loops is a class with methods proved against
specification functions; protocols between processes or threads are step systems whose
invariants are proved for every step and lifted to every run.

`dafny verify dfyconfig.toml` checks everything.

**Crash-safe storage (xv6 `log.c`, `bio.c`, `memide.c`, `fs.c`).**
`Disk.dfy` has blocks of 512 bytes and the constants of `param.h`, `Counting.dfy` the counting that
several parts need. `Log.dfy` has the redo log:
`LogDisk` gives the block writes of a commit and of a recovery as lists and proves that cutting
them anywhere, any number of times, is atomic; `LogDevice` is the code of `log.c`, whose methods
issue exactly those lists. `GroupCommit.dfy` is `begin_op`, `log_write` and `end_op` under every
interleaving, with the buffers processes hold, and the methods of `LogDevice` are proved to take its
steps; its module `LogCrash` puts both together: for which log sizes and operations every history of
commits and crashes is safe. `BufferCache.dfy` is the buffer cache over the
in-memory disk. `FsLayout.dfy`, `FsOwner.dfy` and `Fs.dfy` are bits, block ownership, and the
allocation, read, write and truncate paths of `fs.c`. `FsCrash.dfy` runs `fs.c` on the log: a crash
in the commit of any number of file operations leaves the files as they were before all of them or as
they are after all of them.

**Processes (xv6 `proc.c`, `sleeplock.c`, `pipe.c`).**
`SleepWakeup.dfy` runs any program of critical sections with sleeps and wakeups, for any number of
processes; `Sleeplock.dfy` and `Pipe.dfy` are the code of `sleeplock.c` and `pipe.c` as such
programs, one instruction a statement. Which step comes next is the code's alone: a step that
forgets a wakeup can be taken, and the theorems show when one is. `ProcTable.dfy` has the loops over
the process table and `ExitWait.dfy` the protocol of fork, exit, wait, kill, yield and the schedulers.

**Virtual memory (xv6 `vm.c`, `kalloc.c`).** `VmTables.dfy` has two-level page tables and frame
ownership, `Vm.dfy` the operations with every out-of-memory exit.

**Allocators.** `Umalloc.dfy` is `umalloc.c`, the allocator of section 8.7 of Kernighan and
Ritchie, The C Programming Language, 2nd ed. `OptMalloc.dfy` is `opt_malloc.c` over byte
memory. `Blocks.dfy` has the blocks both speak of and the memory.

**Parallel sample sort (`tsort.c`, `barrier.c`).** `SampleSort.dfy` has the sequential parts and
`SortThreads.dfy` the threads and the barrier.

**Matcher and parser.** `Grep.dfy` is the matcher of `grep.c`, from chapter 9 of Kernighan and Pike,
The Practice of Programming. `Nush.dfy` is the tokenizer and the precedence splitter of the nush shell.

Properties that do not hold of the code are stated with the exact condition under which they do:

- "too big a transaction" can stop the machine although no operation exceeds its budget, because
  the guard of `log_write` uses `log.size - 1` while `mkfs` makes a log of LOGSIZE blocks. Operations
  of k blocks can collect up to 10 + 2k blocks, and the guard fires exactly if that reaches it; with
  the log `mkfs` makes, exactly if an operation may log MAXOPBLOCKS blocks (`GroupCommit.TooBigIff`).
- The same guard runs before `log.lock` is taken, so two operations can pass it together and the log
  then takes as many blocks as the whole log area has, header included (`GroupCommit.OverrunIff`). With
  the log `mkfs` makes that commit stops with "bget: no buffers" before it writes anything, since the
  logged blocks pin all NBUF buffers (`GroupCommit.OverrunStops`, `LogDevice.Log.Commit`), so every
  history is crash safe whatever operations log. A log of fewer than NBUF blocks would be overrun:
  for every log size and budget, operations are crash safe exactly if the log has at least NBUF blocks
  or more than they can collect (`LogCrash.CrashSafeIff`).
- "log_write outside of trans" stops the machine exactly if somebody logs without `begin_op` while no
  operation is open and the log has room (`GroupCommit.GroupCommitIsolated`). `fileread` calls `readi`
  without `begin_op`, and `readi` logs exactly if it meets a hole (`Fs.FileSystem.Readi`).
- A writer that finds the pipe full after storing bytes and is killed, or sees the read end closed,
  returns without the wakeup it owes, so a reader can sleep for ever beside a full pipe
  (`PipeProtocol.StuckAfterKill`). A run leaves nobody asleep exactly if it has no such return beside
  a sleeping reader (`PipeProtocol.StuckIff`).
- A killed process can sleep in the pipe for as long as the pipe stays as it is, because `kill` takes
  `ptable.lock` and not the pipe's lock: it can come between the test of `killed` and the sleep
  (`PipeProtocol.KilledAsleep`). A killed process never sleeps exactly if no kill comes there
  (`PipeProtocol.KilledSleepsIff`).
- A newly forked process can be born killed: `kill(0)` finds an unused slot, whose pid is 0, and
  `allocproc` does not clear `killed` (`ExitWait.BornKilled`). A child is born killed exactly if a kill
  has hit its slot since it was last reaped (`ExitWait.BornKilledIff`).
- A hole leaves the inode on disk without the pointer to the block it is filled with. `mkfs` makes one
  when the entries of the root directory fill a block (`Fs.RootWithHole`); looking a name up reads it
  (`Fs.ReadIntoHole`), and linking a name then writes it without reaching `iupdate`
  (`Fs.DirlinkIntoHole`). `readi`, and `writei` inside the file, keep the inode in step exactly if every
  inode pointer they go through was set (`Fs.FileSystem.Readi`, `Fs.FileSystem.Writei`,
  `Fs.SyncedIff`). Files without holes are always on the good side (`Fs.NoHolesSlotsSet`).
- `malloc` of `umalloc.c` overruns the memory it got exactly if no free block fits, sbrk succeeds and
  the request lies in 2^31 - 15 .. 2^32 - 8 bytes; a block it returns is too small exactly for
  requests above 2^32 - 8 bytes (`Umalloc.Heap.Malloc`).
- `xmalloc` and `xrealloc` of `opt_malloc.c` hand out too little exactly if the size plus 8 wraps
  (`OptMalloc.Allocator.XMalloc`, `OptMalloc.Allocator.XReallocHelper`).

## Model

| member | source | states |
|---|---|---|
| `LogDisk.ReplayPrefix` | hw09/starter-hw09/xv6/log.c:69-83 | replaying a whole list of block writes over any prefix of itself gives the same disk as the list alone |
| `LogDisk.HeadSet` | hw09/starter-hw09/xv6/log.c:99-113 | the count and the block numbers written into a header block read back, and the words behind them stay |
| `LogDisk.InstallIs` | hw09/starter-hw09/xv6/log.c:69-83 | installing block by block from a log that holds a transaction writes exactly that transaction: no home write changes a log block still to be read |
| `LogDisk.RecoverIs` | hw09/starter-hw09/xv6/log.c:115-122 | a recovery writes the logged transaction and then an empty header |
| `LogDisk.CutCommit` | hw09/starter-hw09/xv6/log.c:177-202 | a commit of a transaction that fits the log, cut after any number of its block writes, recovers to the old disk while the header is not written, and to the new one from then on |
| `LogDisk.OverrunNotAtomic` | hw09/starter-hw09/xv6/log.c:177-202 | for a log smaller than the buffer cache: a commit of log.size blocks or more, below NBUF, writes one behind the log before its header; cut there, that block has changed although the transaction did not happen |
| `LogDisk.AtomicIff` | hw09/starter-hw09/xv6/log.c:177-202 | commits of a set of home blocks are atomic, for every disk, data and cut, exactly when there are fewer of them than log.size, or so many that all NBUF buffers are pinned and nothing is written |
| `LogDisk.CutRecovery` | hw09/starter-hw09/xv6/log.c:115-122 | a recovery cut after any number of writes still recovers to the same disk; run to its end it installs it and leaves the log empty |
| `LogDisk.CutWhileInstalling` | hw09/starter-hw09/xv6/log.c:69-83 | any number of installed home blocks leave header, log and recovered image unchanged |
| `LogDisk.HeaderWritten` | hw09/starter-hw09/xv6/log.c:99-113 | after log blocks and header are on disk, the header names exactly the transaction and the log blocks hold its data |
| `LogDisk.CommitIsLogThenRecover` | hw09/starter-hw09/xv6/log.c:192-202 | past its header write a commit issues the writes a recovery of that disk would |
| `LogDisk.StepIsAtomic` | hw09/starter-hw09/xv6/log.c:115-202 | every recovery, and every commit and crash of a transaction that fits the log or writes nothing, does to the recovered image what the same event does to an atomic disk |
| `LogDisk.CrashAtomicity` | hw09/starter-hw09/xv6/log.c:69-202 | on a log of at least NBUF blocks, as mkfs makes it, every history of commits of any size, with any number of crashes in commits and in recoveries, behaves as an atomic disk, and whenever the machine is up the home blocks are that disk; on a smaller log, every history whose commits fit it |
| `LogDevice.Log.constructor` | hw09/starter-hw09/xv6/log.c:53-66 | the state in which initlog calls recovery, for any log with room for a block |
| `LogDevice.Log.Bread` | hw09/starter-hw09/xv6/bio.c:61-93 | the block's content in a referenced buffer; stops exactly for a block the disk does not have or when all NBUF buffers are pinned or referenced |
| `LogDevice.Log.InstallTrans` | hw09/starter-hw09/xv6/log.c:69-83 | writes exactly the logged blocks home, in order, each read from the disk as it then is, and leaves no pinned buffer |
| `LogDevice.Log.ReadHead` | hw09/starter-hw09/xv6/log.c:85-97 | n and block[] become what the header on disk says |
| `LogDevice.Log.WriteHead` | hw09/starter-hw09/xv6/log.c:99-113 | one block write that sets count and block numbers and keeps the rest of the header block |
| `LogDevice.Log.InstallAndClearLog` | hw09/starter-hw09/xv6/log.c:198-200 | install, then one header write that empties the log |
| `LogDevice.Log.RecoverFromLog` | hw09/starter-hw09/xv6/log.c:115-122 | issues exactly the writes of a recovery, in that order, for every header whose entries exist |
| `LogDevice.Log.WriteLog` | hw09/starter-hw09/xv6/log.c:177-190 | issues exactly the log writes of the pending transaction, none if it pins all buffers and none past the end of the disk |
| `LogDevice.Log.WriteLogAndHead` | hw09/starter-hw09/xv6/log.c:193-197 | log blocks first, header last; no header if the log blocks could not all be written |
| `LogDevice.Log.Commit` | hw09/starter-hw09/xv6/log.c:192-202 | issues exactly the writes of a commit, the ones crash atomicity is proved about; with NBUF blocks it stops before it writes anything; if nobody else holds a buffer it is the commit step of GroupCommit |
| `LogDevice.Log.Find` | hw09/starter-hw09/xv6/log.c:223-227 | the first position of the block in the header, or n |
| `LogDevice.Log.LogGuard` | hw09/starter-hw09/xv6/log.c:218-221 | takes the guard step of GroupCommit, panics included; keeps the invariant of all runs, under which it always passes where GuardReach says the guard is out of reach |
| `LogDevice.Log.LogAppend` | hw09/starter-hw09/xv6/log.c:223-232 | takes the append step of GroupCommit and pins the block with its data; stays inside the header array for operations of any size, because every block has a buffer |
| `LogDevice.Log.BeginOp` | hw09/starter-hw09/xv6/log.c:126-141 | takes the step of GroupCommit and keeps the invariant of all runs; the caller has entered exactly if its process is in an operation |
| `LogDevice.Log.EndOp` | hw09/starter-hw09/xv6/log.c:145-163 | takes the step of GroupCommit; under the invariant of all runs it does not panic and keeps the invariant; the caller must commit exactly if it is the committer, and if it need not, nobody is left asleep in begin_op |
| `LogDevice.Log.EndCommit` | hw09/starter-hw09/xv6/log.c:168-172 | takes the step of GroupCommit, keeps the invariant of all runs, and leaves nobody asleep in begin_op |
| `GroupCommit.InvStep` | hw09/starter-hw09/xv6/log.c:126-174 | every critical section keeps the group commit invariant, as long as log_write is called inside operations |
| `GroupCommit.CoreStep` | hw09/starter-hw09/xv6/log.c:126-233 | every step, log_write outside operations included, keeps: open operations are counted, no commit beside them, one committer, distinct logged blocks; end_op cannot panic |
| `GroupCommit.WaitsStep` | hw09/starter-hw09/xv6/log.c:126-174 | every step keeps: who sleeps in begin_op has to, because a commit runs or another operation might not fit; so every step that makes room wakes the sleepers |
| `GroupCommit.KillOnlyRetries` | hw09/starter-hw09/xv6/log.c:126-141 | a kill does not get a process past begin_op: it looks again and sleeps again |
| `GroupCommit.CachedStep` | hw09/starter-hw09/xv6/bio.c:61-93 | every step keeps the logged and the referenced blocks within NBUF, and who is about to append holds the buffer |
| `GroupCommit.ReserveStep` | hw09/starter-hw09/xv6/log.c:126-141 | every step keeps logged blocks plus unspent budgets within 10 + 2k |
| `GroupCommit.GroupCommitIsolated` | hw09/starter-hw09/xv6/log.c:126-233 | in every run, log_write calls outside operations included: committing implies nothing outstanding, end_op does not panic, one committer at most; nobody sleeps in begin_op once no commit runs and there is room for another operation; "outside of trans" stops the machine exactly if such a call is made with no operation open and room in the log |
| `GroupCommit.LogEmptyWhenIdle` | hw09/starter-hw09/xv6/log.c:126-174 | if log_write is called inside operations only: the log is empty when idle, and a sleeper in begin_op has someone to wake it |
| `GroupCommit.StrayHarms` | hw09/starter-hw09/xv6/log.c:214-233 | a reader that logs without begin_op can stop the machine, or leave a block in the log of an idle file system |
| `GroupCommit.HeaderHolds` | hw09/starter-hw09/xv6/log.c:223-232 | for operations of any size and any callers: logged blocks are distinct, at most LOGSIZE, and every append lands inside the header |
| `GroupCommit.LogSpaceReserved` | hw09/starter-hw09/xv6/log.c:126-141 | with at most k <= MAXOPBLOCKS distinct blocks per operation the log and the unspent budgets stay within 10 + 2k blocks |
| `GroupCommit.TooBigReachable` | hw09/starter-hw09/xv6/log.c:218-219 | two processes fill the log until the guard gives up, in every case TooBigIff names |
| `GroupCommit.TooBigIff` | hw09/starter-hw09/xv6/log.c:218-219 | for every log size and budget the panic is reachable exactly if 10 + 2k blocks reach one of the guard's two limits; with mkfs's log, exactly if an operation may log MAXOPBLOCKS blocks |
| `GroupCommit.OverrunReachable` | hw09/starter-hw09/xv6/log.c:218-230 | two operations that pass the unlocked guard together fill the log up to log.size without a panic, with any consecutive block numbers |
| `GroupCommit.OverrunIff` | hw09/starter-hw09/xv6/log.c:218-230 | for every log size and budget a running machine can collect log.size blocks exactly if that is at most 10 + 2k and LOGSIZE; with mkfs's log, exactly if an operation may log MAXOPBLOCKS blocks |
| `GroupCommit.FullCommitStops` | hw09/starter-hw09/xv6/log.c:177-190 | in every run a commit of NBUF blocks stops with "bget: no buffers" |
| `GroupCommit.OverrunStops` | hw09/starter-hw09/xv6/log.c:177-190 | with mkfs's log the overrun is reached and ends there, with nobody else holding a buffer |
| `LogCrash.CrashSafeIf` | hw09/starter-hw09/xv6/log.c:69-233 | if the log has NBUF blocks or more than operations can collect, every history of commits some interleaving can collect, with any crashes, behaves as an atomic disk |
| `LogCrash.OverrunUnsafe` | hw09/starter-hw09/xv6/log.c:177-233 | otherwise some such history does not |
| `LogCrash.CrashSafeIff` | hw09/starter-hw09/xv6/log.c:69-233 | for every log size and budget: crash safe exactly if the log has at least NBUF blocks or more than operations can collect; with mkfs's log always |
| `BufferCache.Relink` | hw09/starter-hw09/xv6/bio.c:131-137 | the six pointer assignments of brelse move the buffer to the front of the circular list and keep every payload |
| `BufferCache.Recycle` | hw09/starter-hw09/xv6/bio.c:81-90 | giving an evictable buffer to another block changes no block's logical content |
| `BufferCache.OneBlock` | hw09/starter-hw09/xv6/bio.c:109-116 | a change to one buffer and its disk block changes the content of that block only |
| `BufferCache.LeastRecent` | hw09/starter-hw09/xv6/bio.c:81-90 | the last evictable buffer of the list is the one released longest ago |
| `BufferCache.FrontIsRecent` | hw09/starter-hw09/xv6/bio.c:129-138 | moving the released buffer to the front keeps the list in order of release |
| `BufferCache.ContentIs` | hw09/starter-hw09/xv6/bio.c:96-106 | the logical content of a cached block is its one buffer's data |
| `BufferCache.AllInUse` | hw09/starter-hw09/xv6/bio.c:61-93 | once NBUF blocks have dirty or referenced buffers, another block has no buffer and cannot get one |
| `BufferCache.BusyResumes` | hw09/starter-hw09/xv6/bio.c:61-106 | a process that found its buffer busy comes back to the same block, whatever calls of other processes lie between, in any number and order |
| `BufferCache.Cache.constructor` | hw09/starter-hw09/xv6/bio.c:38-56 | binit leaves a circular permutation of all buffers, and every block's content is the disk's |
| `BufferCache.Cache.Lookup` | hw09/starter-hw09/xv6/bio.c:69-76 | finds the buffer of the block if there is one |
| `BufferCache.Cache.Victim` | hw09/starter-hw09/xv6/bio.c:81-91 | finds the least recently released clean buffer that no process has a reference to; finds none only if every buffer is referenced or dirty |
| `BufferCache.Cache.Bget` | hw09/starter-hw09/xv6/bio.c:61-93 | takes a reference to the cached buffer or recycles the right one; stops exactly when neither exists; changes no content, keeps one buffer per block, and leaves every referenced buffer its block and every other process its references |
| `BufferCache.Cache.Acquire` | hw09/starter-hw09/xv6/bio.c:73-88 | takes the sleep lock exactly if it is free; otherwise nothing changes and the caller must sleep, keeping its reference; contents stay either way |
| `BufferCache.Cache.Resume` | hw09/starter-hw09/xv6/bio.c:73-106 | from the sleep lock on, when called or woken: busy exactly if the lock is held, else the locked buffer, still of the same block, with that block's logical content; stops exactly when the block does not exist; references of other processes stay |
| `BufferCache.Cache.Iderw` | hw09/starter-hw09/xv6/memide.c:38-60 | stops exactly for its four panics; otherwise writes a dirty buffer or fills a stale one, without changing logical contents |
| `BufferCache.Cache.Modify` | hw09/starter-hw09/xv6/log.c:229-231 | a holder's change is the content of its block and of no other |
| `BufferCache.Cache.Bread` | hw09/starter-hw09/xv6/bio.c:96-106 | a locked buffer with the block's logical content; busy exactly if another process holds the block's buffer, which then gains one reference and nothing else; stops only when the block does not exist or every buffer is referenced or dirty; references of other processes and their blocks stay |
| `BufferCache.Cache.Bwrite` | hw09/starter-hw09/xv6/bio.c:109-116 | the buffer reaches the disk and logical contents stay |
| `BufferCache.Cache.ReleaseSleep` | hw09/starter-hw09/xv6/bio.c:121-126 | a holder that has written or pinned its changes lets go without changing contents |
| `BufferCache.Cache.MoveBehindHead` | hw09/starter-hw09/xv6/bio.c:131-137 | the in-place pointer updates equal the two specification steps |
| `BufferCache.Cache.Drop` | hw09/starter-hw09/xv6/bio.c:128-140 | drops one reference of the caller and nobody else's; on the last one the buffer becomes the most recently released |
| `DiskBlocks.WordPut` | hw09/starter-hw09/xv6/fs.c:386-394 | a 32-bit word stored in a block reads back, and no other word changes |
| `DiskBlocks.LowByteFirst` | hw09/starter-hw09/xv6/fs.c:386-394 | words are stored lowest byte first |
| `FsLayout.BitSet` | hw09/starter-hw09/xv6/fs.c:66-70 | setting a bitmap bit with a byte mask changes that bit only |
| `FsLayout.BitCleared` | hw09/starter-hw09/xv6/fs.c:88-92 | clearing a bitmap bit changes that bit only |
| `FsOwner.AllocKeepsOwned` | hw09/starter-hw09/xv6/fs.c:57-78 | an allocated block was owned by nobody and is in transit |
| `FsOwner.FreeKeepsOwned` | hw09/starter-hw09/xv6/fs.c:82-95 | freeing a block in transit keeps ownership |
| `FsOwner.LinkInInode` | hw09/starter-hw09/xv6/fs.c:378-389 | storing a block in transit into an empty inode slot makes that slot its one owner |
| `FsOwner.LinkInIndirect` | hw09/starter-hw09/xv6/fs.c:390-395 | the same for a slot of the indirect block |
| `FsOwner.ContentFrame` | hw09/starter-hw09/xv6/fs.c:453-476 | a file's bytes, zeros in its holes, depend on its own blocks only |
| `FsOwner.DinodeRoundTrip` | hw09/starter-hw09/xv6/fs.c:221-238 | an inode written to its slot of an inode block reads back, and the other slots are unchanged |
| `FsOwner.DinodePlace` | hw09/starter-hw09/xv6/fs.h:28-42 | inode i is the 64 bytes from 64 i of the inode area on, with size and addresses behind type, numbers and link count |
| `FsOwner.BitmapPlace` | hw09/starter-hw09/xv6/fs.h:44-48 | the bit of block x is bit x % 8 of byte x / 8 of the bitmap |
| `FsOwner.IndirectPlace` | hw09/starter-hw09/xv6/fs.c:373-395 | the first twelve blocks are the inode's own addresses, and the others the words of its indirect block in order |
| `Fs.SyncedIff` | hw09/starter-hw09/xv6/fs.c:482-511 | until iupdate runs, an inode in step before a write is in step after it exactly if every inode pointer the write goes through was set |
| `Fs.NoHolesSlotsSet` | hw09/starter-hw09/xv6/fs.c:482-511 | a write inside a file without holes finds all its pointers set |
| `Fs.AtRestAgain` | hw09/starter-hw09/xv6/fs.c:482-511 | a write that starts with the file system at rest ends at rest |
| `Fs.RootWithHole` | hw09/starter-hw09/xv6/mkfs.c:158-163 | the root directory mkfs makes when its entries fill a block: two blocks long, in step with the disk, the second block a hole |
| `Fs.ReadIntoHole` | hw09/starter-hw09/xv6/fs.c:524-530 | reading the entry in that hole leaves the inode on disk without the new block |
| `Fs.DirlinkIntoHole` | hw09/starter-hw09/xv6/fs.c:552-575 | reading the entry and then writing it, as dirlink does, leaves it so too |
| `Fs.WriteIntoHole` | hw09/starter-hw09/xv6/fs.c:482-511 | so does a write into the hole with no read before it |
| `Fs.ReadGrow` | hw09/starter-hw09/xv6/fs.c:469-474 | one round of readi: a hole filled with a zeroed block changes no byte of any file and sets the pointer it goes through |
| `Fs.ReadDone` | hw09/starter-hw09/xv6/fs.c:453-476 | a finished readi has changed no byte of any file, has allocated exactly if it met a hole, and has left the inode on disk in step exactly if every inode pointer it went through was set |
| `Fs.GrewTwice` | hw09/starter-hw09/xv6/fs.c:384-395 | allocating the indirect block and then a data block under it grows the inode by exactly these two slots |
| `Fs.WriteChunk` | hw09/starter-hw09/xv6/fs.c:498-504 | one round of writei keeps ownership and every other inode, sets exactly the pointers it goes through, and extends the written bytes |
| `Fs.WroteInside` | hw09/starter-hw09/xv6/fs.c:506-510 | a write inside the file has spliced the bytes; without iupdate the inode on disk agrees exactly if no pointer of it had to be set |
| `Fs.WroteLonger` | hw09/starter-hw09/xv6/fs.c:506-510 | a write past the end has spliced the bytes, and the inode on disk agrees |
| `Fs.ReadBack` | hw09/starter-hw09/xv6/fs.c:453-511 | reading where one has just written gives the bytes written; all others stay |
| `Fs.FreedExactly` | hw09/starter-hw09/xv6/fs.c:408-435 | after itrunc exactly the blocks the inode owned have become free |
| `Fs.TruncDone` | hw09/starter-hw09/xv6/fs.c:408-435 | after itrunc every other file keeps its inode, its bytes and its agreement with the disk, and exactly the inode's blocks are free |
| `Fs.TruncAtRest` | hw09/starter-hw09/xv6/fs.c:408-435 | itrunc leaves a file system at rest at rest |
| `Fs.FileSystem.constructor` | hw09/starter-hw09/xv6/mkfs.c:237-251 | zeroed inodes and the blocks before the data area marked used are a file system at rest: every inode empty, every block accounted for |
| `Fs.FileSystem.Balloc` | hw09/starter-hw09/xv6/fs.c:57-78 | the first free block, marked and zeroed; panics exactly on a full disk |
| `Fs.FileSystem.Bfree` | hw09/starter-hw09/xv6/fs.c:82-95 | clears the bit; panics exactly for a free block |
| `Fs.FileSystem.BallocIntoInode` | hw09/starter-hw09/xv6/fs.c:379-388 | the inode owns one block more, in that slot |
| `Fs.FileSystem.BallocIntoIndirect` | hw09/starter-hw09/xv6/fs.c:390-393 | the same through the indirect block |
| `Fs.FileSystem.Bmap` | hw09/starter-hw09/xv6/fs.c:373-400 | the block for bn, allocating exactly the missing blocks and logging everything it changes; fails only past MAXFILE or on a full disk |
| `Fs.FileSystem.Iupdate` | hw09/starter-hw09/xv6/fs.c:221-238 | the inode on disk agrees with the one in memory and no other is touched |
| `Fs.FileSystem.ReadRound` | hw09/starter-hw09/xv6/fs.c:469-474 | the next bytes of the file, from one block; in a hole it allocates a zeroed block, and only there can it fail, on a full disk or past MAXFILE |
| `Fs.FileSystem.Readi` | hw09/starter-hw09/xv6/fs.c:453-476 | for any file: -1 exactly for an offset past the end or a wrapping sum, otherwise exactly the clamped slice of the file, zeros in holes; changes the disk, and logs, exactly if it meets a hole; then the inode on disk stays in step exactly if every inode pointer used was set |
| `Fs.FileSystem.WriteRound` | hw09/starter-hw09/xv6/fs.c:498-504 | one block's worth of the write; stops only on a full disk |
| `Fs.FileSystem.FinishWrite` | hw09/starter-hw09/xv6/fs.c:506-510 | size and inode on disk follow what was written |
| `Fs.FileSystem.Writei` | hw09/starter-hw09/xv6/fs.c:482-511 | for any file, holes or not: -1 exactly for the three rejected cases, a panic only on a full disk and only if a block was missing, otherwise the flat file is spliced, all other files are unchanged, ownership holds, everything changed is logged, and the inode on disk agrees if the file grew, else exactly if no inode pointer had to be set; a file system at rest ends at rest |
| `Fs.FileSystem.FreeDirect` | hw09/starter-hw09/xv6/fs.c:414-419 | gives up exactly the direct blocks |
| `Fs.FileSystem.FreeIndirect` | hw09/starter-hw09/xv6/fs.c:421-431 | gives up exactly the blocks under the indirect block, and it |
| `Fs.FileSystem.FreeAll` | hw09/starter-hw09/xv6/fs.c:414-433 | all of the inode's blocks, and size 0 |
| `Fs.FileSystem.Itrunc` | hw09/starter-hw09/xv6/fs.c:408-435 | for any file: never meets "freeing free block", frees exactly the owned blocks, leaves an empty file in step with the disk and all other files unchanged; logs what it changes, bitmap and inode block only |
| `Fs.WriteLogCount` | hw09/starter-hw09/xv6/file.c:136-142 | a write of n bytes logs at most one block more than n bytes fill, the inode's block, the indirect block and the bitmap blocks |
| `FsCrash.OperationsAtomic` | hw09/starter-hw09/xv6/log.c:115-202 | any number of writes and truncations in one transaction, then a commit that finishes, is cut anywhere or finds no buffer, then recoveries with any crashes: once the machine is up the disk is at rest with all files as before the operations, or as after all of them exactly if the header was written |
| `FsCrash.DoWrite` | hw09/starter-hw09/xv6/fs.c:482-511 | a writei on a file system at rest is such an operation: spliced file, others untouched, everything changed logged |
| `FsCrash.DoTrunc` | hw09/starter-hw09/xv6/fs.c:408-435 | so is an itrunc |
| `FsCrash.RunFiles` | hw09/starter-hw09/xv6/fs.c:408-511 | a sequence of operations ends at rest with the files each operation in turn makes, and logs everything it changes inside the file system's blocks |
| `FsCrash.GathersHome` | hw09/starter-hw09/xv6/log.c:214-233 | the transaction they make consists of home blocks |
| `FsCrash.WritesFit` | hw09/starter-hw09/xv6/file.c:136-154 | the pieces of at most 1536 bytes that filewrite writes log at most seven blocks each on a disk with one bitmap block, and operations of seven blocks never meet "too big a transaction" and never fill mkfs's log |
| `SleepWakeup.InvStep` | hw09/starter-hw09/xv6/proc.c:418-474 | for every program that follows the wakeup rule: every step of sleep, wakeup and kill that does not leave the lock owing a wakeup keeps: a sleeper whose condition holds is owed a wakeup by the lock holder |
| `SleepWakeup.ForgottenIsStuck` | hw09/starter-hw09/xv6/proc.c:418-474 | a process that leaves the lock owing a wakeup to a sleeper leaves it asleep on a condition that holds |
| `SleepWakeup.LostIff` | hw09/starter-hw09/xv6/proc.c:418-474 | in every run of such a program nobody is ever left asleep on a condition that holds exactly if no step forgets a wakeup |
| `SleepWakeup.NoLostWakeup` | hw09/starter-hw09/xv6/proc.c:418-474 | for any number of processes and channels and a program that pays its wakeups before it releases: with the lock free nobody sleeps, or is about to, on a channel whose condition holds; the lock has one holder |
| `Sleeplock.FollowsRule` | hw09/starter-hw09/xv6/sleeplock.c:23-42 | acquiresleep and releasesleep, statement by statement, follow the wakeup rule: the wakeup of line 40 pays for clearing locked |
| `Sleeplock.CallsMean` | hw09/starter-hw09/xv6/sleeplock.c:23-42 | acquiresleep sleeps exactly while the lock is held and otherwise holds it under the caller's pid; releasesleep frees it, clears the pid and wakes |
| `Sleeplock.HoldingStep` | hw09/starter-hw09/xv6/sleeplock.c:23-42 | every step of acquiresleep and releasesleep keeps the one holder |
| `Sleeplock.SleepLockSafe` | hw09/starter-hw09/xv6/sleeplock.c:23-42 | with the spinlock free nobody sleeps for a lock that is free; if only holders release it, it has at most one holder, pid names it, and pid is 0 while it is free |
| `PipeRing.PutCounts` | hw09/starter-hw09/xv6/pipe.c:85-93 | a byte put raises the occupancy by one, never past PIPESIZE, also when a counter wraps |
| `PipeRing.PutAppends` | hw09/starter-hw09/xv6/pipe.c:93-93 | a byte put is appended to the buffered bytes |
| `PipeRing.GetTakesFirst` | hw09/starter-hw09/xv6/pipe.c:113-117 | a byte got is the first of the buffered bytes |
| `PipeBuffer.Pipe.WriteRun` | hw09/starter-hw09/xv6/pipe.c:84-94 | appends bytes until all are stored or the pipe is full |
| `PipeBuffer.Pipe.ReadRun` | hw09/starter-hw09/xv6/pipe.c:113-117 | takes as many of the oldest bytes as asked for, or all |
| `PipeProtocol.ObeysRule` | hw09/starter-hw09/xv6/pipe.c:59-121 | every statement of pipeclose, pipewrite and piperead follows the wakeup rule, with the wakeups of lines 65, 68, 90, 95 and 118 as the ones that pay |
| `PipeProtocol.FollowsRule` | hw09/starter-hw09/xv6/pipe.c:59-121 | pipe.c as a whole follows the wakeup rule, from every entry and every point a sleeper returns to |
| `PipeProtocol.FifoStep` | hw09/starter-hw09/xv6/pipe.c:59-121 | every statement keeps written = taken + buffered |
| `PipeProtocol.PipeFifo` | hw09/starter-hw09/xv6/pipe.c:59-121 | in every interleaving the bytes read are a prefix of the bytes written and the occupancy stays within PIPESIZE |
| `PipeProtocol.WriterKeeps` | hw09/starter-hw09/xv6/pipe.c:78-97 | every statement keeps a writer's stored bytes followed by those it still has to store; sleeping and waking at a full pipe keep the rest |
| `PipeProtocol.GivesBack` | hw09/starter-hw09/xv6/pipe.c:86-89 | a call returns with bytes unstored only at a full pipe, killed or with the read end closed |
| `PipeProtocol.PipeDelivers` | hw09/starter-hw09/xv6/pipe.c:78-121 | in every run the bytes in the pipe are an in-order merge of what the writers passed to pipewrite: each writer's stored bytes and the rest of its current call are exactly what it passed in, less what early returns gave back; the bytes read are a prefix of that merge |
| `PipeProtocol.ReadReturns` | hw09/starter-hw09/xv6/pipe.c:112-120 | in every run a finished piperead hands out the bytes it just took, in order, as many as asked for or all there were |
| `PipeProtocol.CallsMean` | hw09/starter-hw09/xv6/pipe.c:59-121 | an end is closed by pipeclose of that end only and stays closed; a reader keeps asking for what it was asked; a killed process leaves instead of sleeping at its test |
| `PipeProtocol.FineIs` | hw09/starter-hw09/xv6/pipe.c:85-111 | what the wakeup rule keeps is that nobody is stuck at the pipe |
| `PipeProtocol.ForgetsIs` | hw09/starter-hw09/xv6/pipe.c:85-89 | the one way pipe.c forgets a wakeup: a writer with bytes stored since its last wakeup returns from a full pipe, killed or with the read end closed, beside a sleeping reader |
| `PipeProtocol.OrderlyStep` | hw09/starter-hw09/xv6/pipe.c:59-121 | without kills and with ends closed as file.c does, every step keeps the read end open while someone reads, and no writer returns from a full pipe with unannounced bytes beside a sleeping reader |
| `PipeProtocol.WakesWithoutKills` | hw09/starter-hw09/xv6/pipe.c:59-121 | without kills and with ends closed as file.c does, whenever the lock is free no reader sleeps beside data or a closed write end and no writer beside room or a closed read end |
| `PipeProtocol.StuckAfterKill` | hw09/starter-hw09/xv6/pipe.c:85-91 | a run with one kill in which a writer stores PIPESIZE bytes, is killed, and returns with a reader asleep beside the full pipe |
| `PipeProtocol.StuckIff` | hw09/starter-hw09/xv6/pipe.c:85-91 | in every run, kills included: nobody is ever stuck exactly if no writer with bytes stored since its last wakeup returns from a full pipe, killed or with the read end closed, beside a sleeping reader |
| `PipeProtocol.KilledSleepsIff` | hw09/starter-hw09/xv6/pipe.c:86-110 | in every run a killed process never sleeps in the pipe, and never goes to, exactly if no kill came between its test of killed and its becoming SLEEPING; in particular kill wakes a sleeper and both calls look again |
| `PipeProtocol.KilledAsleep` | hw09/starter-hw09/xv6/pipe.c:106-110 | a run in which a reader is killed after its test and sleeps all the same, beside an empty pipe |
| `ProcTable.Table.Wakeup1` | hw09/starter-hw09/xv6/proc.c:457-465 | exactly the sleepers on the channel become runnable, and no other slot changes its state |
| `ProcTable.Table.ExitSection` | hw09/starter-hw09/xv6/proc.c:248-265 | parent woken, children given to init, init woken exactly if one of them is a zombie, caller a zombie |
| `ProcTable.Table.WaitScan` | hw09/starter-hw09/xv6/proc.c:280-308 | reaps the first zombie child, whose slot is then unused, without pid, parent, stack and killed mark; reports no child or killed, or that it must sleep, exactly in those cases |
| `ProcTable.Table.AllocProc` | hw09/starter-hw09/xv6/proc.c:79-94 | the first unused slot, or failure exactly when there is none |
| `ProcTable.Table.Kill` | hw09/starter-hw09/xv6/proc.c:479-498 | the first slot with that pid is marked killed and is not left sleeping; its other fields and every other slot stay; fails exactly if no slot has the pid |
| `ExitWait.InvStep` | hw09/starter-hw09/xv6/proc.c:181-395 | every step of fork, exit, wait, sleep, wakeup, kill, yield and the schedulers keeps the invariant |
| `ExitWait.ZombieStackIdle` | hw09/starter-hw09/xv6/proc.c:280-298 | when wait reaps a zombie no CPU runs on its stack and it has not been reaped before |
| `ExitWait.ExitWaitProtocol` | hw09/starter-hw09/xv6/proc.c:181-382 | in every run: every started process but init has a live non-zombie parent, a process asleep in wait has no zombie child, finished pids are exactly the zombies and the reaped, each reaped once and only off-CPU |
| `ExitWait.EveryStep` | hw09/starter-hw09/xv6/proc.c:181-498 | what each step may do to each slot, by the slot's state before and after: who makes, wakes, kills, ends and reaps it, and that nothing else touches it |
| `ExitWait.KilledIff` | hw09/starter-hw09/xv6/proc.c:479-498 | in every run a slot is marked killed exactly if a kill has hit it since it was last reaped; a marked process does not go to sleep in wait |
| `ExitWait.KillSticks` | hw09/starter-hw09/xv6/proc.c:479-498 | a kill sticks until the process is reaped |
| `ExitWait.BornKilledIff` | hw09/starter-hw09/xv6/proc.c:79-94 | in every run a newly forked process is born killed exactly if a kill has hit its slot since it was last reaped |
| `ExitWait.BornKilled` | hw09/starter-hw09/xv6/proc.c:479-498 | a run in which kill(0) marks an unused slot and the next child is born killed |
| `ExitWait.WaitDecides` | hw09/starter-hw09/xv6/proc.c:280-308 | wait can reap exactly if there is a zombie child, returns exactly if there is none and it has no child or was killed, and sleeps exactly otherwise |
| `ExitWait.NothingLeft` | hw09/starter-hw09/xv6/proc.c:286-298 | in every run an unused slot holds no stack, and no slot has the pid of a reaped process |
| `VmTables.NewTable` | hw09/starter-hw09/xv6/vm.c:44-53 | a new zeroed table changes no page of any address space |
| `VmTables.LinkUser` | hw09/starter-hw09/xv6/vm.c:69-73 | mapping a frame nobody owns makes it that page's |
| `VmTables.UnlinkUser` | hw09/starter-hw09/xv6/vm.c:268-274 | clearing the entry gives the frame up and touches no other page |
| `VmTables.Detach` | hw09/starter-hw09/xv6/vm.c:283-298 | a whole address space leaves without touching any other |
| `VmTables.EntryFormat` | hw09/starter-hw09/xv6/mmu.h:65-103 | an entry is a frame number above twelve flag bits, the lowest of them present; a page number is a directory index above ten bits of table index |
| `Vm.Machine.constructor` | hw09/starter-hw09/xv6/kalloc.c:46-53 | freerange makes exactly the whole pages of the range free, each once, in one list through their first words |
| `Vm.Machine.Kfree` | hw09/starter-hw09/xv6/kalloc.c:59-77 | panics exactly for an address that is not a page boundary, lies below the end of the kernel or not below PHYSTOP; otherwise the frame is filled with junk, its first word links to the old head, and it becomes the head |
| `Vm.Machine.Kalloc` | hw09/starter-hw09/xv6/kalloc.c:82-95 | the head of the list, in transit to the caller, and the frame it links to becomes the head; fails exactly on an empty list |
| `VmTables.ChainedFrame` | hw09/starter-hw09/xv6/kalloc.c:72-74 | stores outside free frames leave the linked list intact |
| `Vm.PushChain` | hw09/starter-hw09/xv6/kalloc.c:72-74 | a frame put in front keeps the list linked |
| `Vm.Machine.Walkpgdir` | hw09/starter-hw09/xv6/vm.c:35-54 | the table of a page, made if asked for and possible, without changing any page |
| `Vm.Machine.MapOne` | hw09/starter-hw09/xv6/vm.c:68-77 | maps one page; "remap" exactly if it was mapped, with nothing changed; out of memory changes no page |
| `Vm.Machine.MapPages` | hw09/starter-hw09/xv6/vm.c:60-79 | maps pages in order until the range is done, one is mapped already or memory is out; exactly the pages done have their entries and, below KERNBASE, own their frames; what is mapped elsewhere and by others stays |
| `Vm.MappingMore` | hw09/starter-hw09/xv6/vm.c:68-77 | one more page of mappages adds its entry, its frame and perhaps a table, and nothing else |
| `Vm.Machine.FreePage` | hw09/starter-hw09/xv6/vm.c:268-274 | unmaps and frees one user page |
| `Vm.Machine.ShrinkRound` | hw09/starter-hw09/xv6/vm.c:265-277 | one round of deallocuvm: a page, or the rest of a directory slot without a table, is done as a page-by-page walk would |
| `Vm.Machine.Deallocuvm` | hw09/starter-hw09/xv6/vm.c:255-278 | unmaps and frees exactly the present pages of the range, as a page-by-page walk would in spite of the directory skip |
| `Vm.Machine.Freevm` | hw09/starter-hw09/xv6/vm.c:283-298 | returns exactly the frames of the address space to the free list |
| `Vm.Machine.KernelRound` | hw09/starter-hw09/xv6/vm.c:129-134 | one row of kmap is mapped; out of memory gives everything back |
| `Vm.Machine.Setupkvm` | hw09/starter-hw09/xv6/vm.c:118-136 | an address space with exactly the kernel's mappings, never "remap"; on failure every frame is back, and failure needs a free list of at most 1026 frames |
| `Vm.KernelDisjoint` | hw09/starter-hw09/xv6/vm.c:106-115 | a row of kmap overlaps no row before it |
| `Vm.KernelLayout` | hw09/starter-hw09/xv6/vm.c:106-115 | page by page: I/O space, kernel text read-only, kernel data and free memory at KERNBASE above their physical addresses, devices where they are, no user access, and nothing else |
| `Vm.Machine.FillAndMap` | hw09/starter-hw09/xv6/vm.c:239-240 | fills a frame in transit and maps it |
| `Vm.AllTaken` | hw09/starter-hw09/xv6/kalloc.c:82-95 | if the free list has run dry it was no longer than the directory, tables and pages the address space can have |
| `Vm.Machine.GrowRound` | hw09/starter-hw09/xv6/vm.c:233-247 | one page of allocuvm, with both out-of-memory exits |
| `Vm.Machine.TakeBack` | hw09/starter-hw09/xv6/vm.c:240-246 | allocuvm's way out when mappages fails: the added pages and the frame in hand go back |
| `Vm.Machine.Allocuvm` | hw09/starter-hw09/xv6/vm.c:221-249 | new pages are zeroed, writable, user and on fresh frames; out of memory leaves none of them mapped, changes no other page, and happens only with too short a free list; a panic only for a page already mapped |
| `Vm.Machine.CopyRound` | hw09/starter-hw09/xv6/vm.c:325-339 | one page of copyuvm, with both out-of-memory exits |
| `Vm.Machine.Abandon` | hw09/starter-hw09/xv6/vm.c:342-344 | the bad exit puts owners and free set back |
| `Vm.Machine.Copyuvm` | hw09/starter-hw09/xv6/vm.c:315-345 | same flags and bytes at every page below sz on frames nobody owned, kernel mappings and nothing else above, parent untouched; on failure the same free set as before; a panic only for a missing page |
| `Vm.Isolated` | hw09/starter-hw09/xv6/vm.c:315-345 | a store through one user page is seen at that page of that address space only |
| `UmallocSpec.MergeTiles` | hw09/starter-hw09/xv6/umalloc.c:33-42 | joining two touching blocks keeps the tiling |
| `UmallocSpec.SplitTiles` | hw09/starter-hw09/xv6/umalloc.c:78-82 | cutting a block keeps the tiling |
| `UmallocSpec.AddTiles` | hw09/starter-hw09/xv6/umalloc.c:54-59 | new memory from sbrk is tiled by its one block |
| `UmallocSpec.BlocksDisjoint` | hw09/starter-hw09/xv6/umalloc.c:63-90 | blocks lie in the arena and share no unit |
| `UmallocSpec.RingInsert` | hw09/starter-hw09/xv6/umalloc.c:36-42 | inserting at its place keeps one address-ordered cycle |
| `UmallocSpec.RingRemove` | hw09/starter-hw09/xv6/umalloc.c:76-77 | unlinking keeps one address-ordered cycle |
| `UmallocSpec.SearchStops` | hw09/starter-hw09/xv6/umalloc.c:30-32 | the loop of free stops exactly at the place of the block |
| `UmallocSpec.EnoughIff` | hw09/starter-hw09/xv6/umalloc.c:69-69 | the unit count holds the request exactly up to 2^32 - 8 bytes, and is never more than one unit too large |
| `UmallocSpec.SbrkAskedIff` | hw09/starter-hw09/xv6/umalloc.c:52-54 | sbrk is asked for the units morecore records exactly outside 2^31 - 15 .. 2^32 - 8 bytes, where it is asked for nothing or less |
| `Umalloc.Heap.constructor` | hw09/starter-hw09/xv6/umalloc.c:21-22 | no block and no arena before the first call |
| `Umalloc.Heap.Free` | hw09/starter-hw09/xv6/umalloc.c:24-44 | terminates; exactly that block stops being live; the list stays one ordered cycle with no two touching blocks and the arena tiled; the next search starts at the list's last block below it |
| `Umalloc.Heap.JoinAbove` | hw09/starter-hw09/xv6/umalloc.c:33-37 | takes over the free block above exactly if it touches |
| `Umalloc.Heap.LinkBelow` | hw09/starter-hw09/xv6/umalloc.c:38-43 | joins the free block below or is linked behind it |
| `Umalloc.Heap.Morecore` | hw09/starter-hw09/xv6/umalloc.c:46-61 | adds a free block of at least 4096 units, changing no live block; overruns exactly if sbrk's signed argument is not the size asked for |
| `Umalloc.Heap.Take` | hw09/starter-hw09/xv6/umalloc.c:75-84 | the fitting block, or its tail, becomes the one new live block, and the next search starts at the block before it |
| `Umalloc.Heap.Start` | hw09/starter-hw09/xv6/umalloc.c:70-73 | the list is base alone |
| `Umalloc.Heap.Search` | hw09/starter-hw09/xv6/umalloc.c:74-89 | terminates; 0 exactly if nothing fits and sbrk refuses, an overrun exactly if nothing fits and sbrk grants less than asked; memory is added exactly if nothing fits, and then the request is served; if something fits, the block is the tail of the first fitting one after freep |
| `Umalloc.Heap.Malloc` | hw09/starter-hw09/xv6/umalloc.c:63-90 | 0 exactly if nothing fits and sbrk refuses; an overrun exactly if nothing fits, sbrk succeeds and the request is in 2^31 - 15 .. 2^32 - 8 bytes; otherwise exactly one new live block of the computed units beside all live ones, too small exactly above 2^32 - 8 bytes; if a free block fits, the first one after freep is used |
| `OptMallocSpec.SplitLayout` | chal2/starter-ch02/opt_malloc.c:97-109 | halving a cell gives two aligned cells of the bin below that tile its place |
| `OptMallocSpec.NewHeapLayout` | chal2/starter-ch02/opt_malloc.c:131-135 | a mapped heap is one cell of bin 15 |
| `OptMallocSpec.TilesExactly` | chal2/starter-ch02/opt_malloc.c:85-141 | each byte of a heap is in exactly one cell, and it is a cell of that heap |
| `OptMallocSpec.PopLists` | chal2/starter-ch02/opt_malloc.c:85-90 | popping keeps all sixteen lists |
| `OptMallocSpec.PushLists` | chal2/starter-ch02/opt_malloc.c:92-95 | pushing keeps all sixteen lists |
| `OptMalloc.OneBin` | chal2/starter-ch02/opt_malloc.c:143-151 | the size of a cell picks out its own bin |
| `OptMalloc.WriteGood` | chal2/starter-ch02/opt_malloc.c:243-243 | a holder may overwrite its whole block past the size field, next and last included, without disturbing a list or another block |
| `ByteMemory.StoreLoad` | chal2/starter-ch02/opt_malloc.c:163-164 | an 8-byte field stored is read back and no byte around it changes |
| `OptMalloc.LinkGood` | chal2/starter-ch02/opt_malloc.c:92-95 | a cell whose next field holds the old head can become the head |
| `OptMalloc.SplitGood` | chal2/starter-ch02/opt_malloc.c:97-109 | cutting a cell and writing the two headers keeps all lists and every byte of every other live block |
| `OptMalloc.BigGood` | chal2/starter-ch02/opt_malloc.c:160-168 | a mapped block of its own disturbs no list and no other block |
| `OptMalloc.Allocator.constructor` | chal2/starter-ch02/opt_malloc.c:25-27 | all lists empty, nothing mapped |
| `OptMalloc.Allocator.Pop` | chal2/starter-ch02/opt_malloc.c:85-90 | the head of the list becomes the caller's |
| `OptMalloc.Allocator.InsertCell` | chal2/starter-ch02/opt_malloc.c:92-95 | the cell becomes the head of the list and stops being live; no live byte changes |
| `OptMalloc.Allocator.PullFromAbove` | chal2/starter-ch02/opt_malloc.c:97-109 | one cell of the bin above becomes two of this bin; live blocks and their bytes stay |
| `OptMalloc.Allocator.NewHeap` | chal2/starter-ch02/opt_malloc.c:131-135 | one free cell of bin 15 more |
| `OptMalloc.Allocator.Redistribute` | chal2/starter-ch02/opt_malloc.c:111-141 | terminates with bin i non-empty, live blocks and their bytes unchanged; maps a heap only if all bins from i up were empty |
| `OptMalloc.Allocator.GetFlIndex` | chal2/starter-ch02/opt_malloc.c:143-151 | the smallest bin that holds the size |
| `OptMalloc.Allocator.XMallocHelper` | chal2/starter-ch02/opt_malloc.c:153-184 | one new live block of at least the size: the head of the smallest bin that fits if that bin has a cell, a heap mapped only if it and all larger bins are empty, or a mapping of its own above a megabyte; all live bytes unchanged |
| `OptMalloc.Allocator.XMalloc` | chal2/starter-ch02/opt_malloc.c:186-193 | the caller's part is large enough exactly when size + 8 does not wrap |
| `OptMalloc.Allocator.XFreeHelper` | chal2/starter-ch02/opt_malloc.c:195-211 | a cell returns to the front of its own bin, a large block is unmapped, nothing else changes |
| `OptMalloc.Allocator.CopyOut` | chal2/starter-ch02/opt_malloc.c:241-243 | a larger block that starts with the old bytes |
| `OptMalloc.Allocator.Move` | chal2/starter-ch02/opt_malloc.c:241-248 | the same with the old block freed |
| `OptMalloc.Allocator.XReallocHelper` | chal2/starter-ch02/opt_malloc.c:219-249 | NULL, zero, shrinking and growing cases, in place exactly if the new size and its field fit the old block; every byte of the old block is at its place in the new one, all other live blocks keep their bytes, and the new block is large enough exactly when new_size + 8 does not wrap |
| `SampleSort.InRange` | hw07/hw07-assignment/tsort.c:47-62 | the elements of the half-open range, in order |
| `SampleSort.SortSorts` | hw07/hw07-assignment/tsort.c:64-66 | what qsort is taken to do: a sorted permutation |
| `SampleSort.RangedSplit` | hw07/hw07-assignment/tsort.c:47-62 | neighbouring ranges share no element and miss none |
| `SampleSort.Sampled` | hw07/hw07-assignment/tsort.c:98-107 | sample k is the array's element at random[k] modulo its length |
| `SampleSort.PickBounds` | hw07/hw07-assignment/tsort.c:98-118 | T + 1 increasing bounds from 0 to infinity, every third of the sorted samples between them, the samples being the elements the random numbers pick |
| `SampleSort.JoinedSorts` | hw07/hw07-assignment/tsort.c:68-94 | the sorted ranges side by side are the sorted array, and fill it exactly |
| `SampleSort.OffsetsApart` | hw07/hw07-assignment/tsort.c:83-88 | the stretches of different threads do not overlap |
| `SortThreads.InvStep` | hw07/hw07-assignment/tsort.c:68-94 | every step of every thread keeps the invariant |
| `SortThreads.GateStep` | hw07/hw07-assignment/barrier.c:30-45 | seen counts the arrived threads and nobody passes before all have arrived |
| `SortThreads.WakesStep` | hw07/hw07-assignment/barrier.c:30-45 | once all have arrived a waiter has someone left to wake it |
| `SortThreads.OwnSlot` | hw07/hw07-assignment/tsort.c:83-88 | a worker writes inside the array |
| `SortThreads.OtherSlot` | hw07/hw07-assignment/tsort.c:83-88 | no two workers write the same element |
| `SortThreads.Progress` | hw07/hw07-assignment/barrier.c:30-45 | while a thread is unfinished some thread can move |
| `SortThreads.SampleSortCorrect` | hw07/hw07-assignment/tsort.c:68-144 | for every T, array, choice of samples and interleaving, spurious wakeups included: the barrier holds, nobody is stuck, and at the end the array is the sorted permutation of the input |
| `SortThreads.SampleSortEnds` | hw07/hw07-assignment/tsort.c:68-144 | a run has at most T (2n + 4T + 13) steps plus three per spurious wakeup |
| `Grep.StartsStar` | hw09/starter-hw09/xv6/grep.c:98-106 | a starred item matches a run of fitting characters followed by the rest |
| `Grep.StartsOne` | hw09/starter-hw09/xv6/grep.c:93-94 | a single item matches one fitting character followed by the rest |
| `Grep.BodyTail` | hw09/starter-hw09/xv6/grep.c:87-94 | how the code reads the front of a pattern agrees with the pattern's items and its final $ |
| `Grep.MatchHere` | hw09/starter-hw09/xv6/grep.c:84-96 | true exactly if the text starts with a match |
| `Grep.MatchStar` | hw09/starter-hw09/xv6/grep.c:98-106 | true exactly if the text starts with a match of the starred item and the rest |
| `Grep.Match` | hw09/starter-hw09/xv6/grep.c:72-82 | terminates, and is true exactly if the text has a match |
| `Grep.MeansDot` | hw09/starter-hw09/xv6/grep.c:72-96 | a dot matches exactly the texts with a character |
| `Grep.MeansChar` | hw09/starter-hw09/xv6/grep.c:72-96 | an ordinary character matches exactly the texts that contain it |
| `Grep.MeansStar` | hw09/starter-hw09/xv6/grep.c:72-106 | an anchored starred character matches exactly the texts made of it |
| `Tokens.AddOp` | chal1/challenge01/tokens.c:17-47 | pushes the operator run at start and returns its length |
| `Tokens.AddToken` | chal1/challenge01/tokens.c:49-81 | pushes the word at start and returns its length |
| `Tokens.Tokenize` | chal1/challenge01/tokens.c:83-109 | the token list the lemmas below are about |
| `Tokens.SpansAreRuns` | chal1/challenge01/tokens.c:83-109 | tokens are the maximal runs, in order, with only spaces around them |
| `Tokens.Retokenize` | chal1/challenge01/tokens.c:83-109 | any list of tokens joined with spaces is cut into the same list |
| `Tokens.TokenizerCorrect` | chal1/challenge01/tokens.c:83-109 | both of these for the tokens of any line |
| `Tokens.TokenIs` | chal1/challenge01/tokens.c:11-109 | a token is a run without operator characters and without the six white-space characters, or a run of operator characters |
| `Tokens.CutUnspaced` | chal1/challenge01/tokens.c:83-109 | words and operators by turns, written without spaces, are cut into the same list |
| `Astree.IndexOf` | chal1/challenge01/svec.c:51-61 | the first index of a string, or -1 |
| `Astree.Parse` | chal1/challenge01/astree.c:54-88 | a tree that flattens to the tokens, whose leaves hold no operator and whose every node splits at the first occurrence of the weakest operator it spans |
| `Astree.Precedence` | chal1/challenge01/astree.c:66-88 | the root of such a tree is the first of semicolon, ampersand, double bar, double ampersand, bar, greater-than and less-than that occurs among the tokens, split at its first occurrence; without any it is a leaf, and for no tokens it is null |
| `Astree.CanonicalUnique` | chal1/challenge01/astree.c:54-88 | there is only one such tree |

## Left out

- Hardware, boot code and assembly: a spinlock is an atomic acquire and release, `swtch` an atomic hand-over, one block write an atomic step.
- Home block numbers lie outside the log area and a header names only existing blocks; `log.c` takes this for granted.
- LogDevice.Log.Commit: other processes that hold buffers can make it stop with "bget: no buffers" later than here; that is a cut of the commit, and `LogDisk.CrashAtomicity` covers every cut.
- GroupCommit.StrayHarms: a commit is one step there; what an append from outside does to the loops of a commit that is under way is not followed.
- `fs.c`: `ialloc`, `iget`, directories, path names and the device case of `readi` and `writei` are not modelled.
- Fs.FileSystem.Writei: after a panic nothing is said about the state except that the disk is full; the same holds for a panic of readi.
- FsCrash.OperationsAtomic: the operations of a transaction follow one another, as the inode locks make operations on one file do; that `fs.c` reaches its blocks through the buffer cache is not composed.
- `exit` closes files and `fork` copies them; both leave the process table alone and are not modelled. Wrap-around of pids is not modelled.
- Sleeplock.SleepLockSafe: one holder at most if `releasesleep` is called by the holder only; the code does not check, and its callers hold the lock.
- PipeProtocol.WakesWithoutKills: `file.c` is taken to let a process read only through an open read end and to close that end when nobody reads; `file.c` itself is not modelled.
- PipeProtocol.StuckIff: freeing the pipe after both ends are closed is not modelled; the bytes a call hands over are a sequence.
- PipeBuffer.Pipe.WriteRun: the copy loop between two sleeps; the sleeps are in `PipeProtocol`.
- `vm.c`: switching address spaces, `inituvm`, `loaduvm`, `clearpteu` and `copyout`; `setupkvm`'s check of PHYSTOP is constant and true here.
- Vm.Machine.Copyuvm: sizes up to KERNBASE, the most a process can have.
- Vm.Machine.Deallocuvm: old sizes up to KERNBASE, the most any caller passes.
- Vm.Machine.Kfree: addresses and list links are physical.
- Umalloc.Heap.Malloc: after an overrun nothing is said; the arena starts above `base`, as static data lies below the heap, and sbrk's addresses are multiples of 8.
- `opt_malloc.c` does not check the result of `mmap`; the model takes it to succeed with memory not in use.
- SampleSort.SortSorts: `qsort` is taken to sort; values are an ordered domain without NaN, infinities and negative numbers in the input, and counters do not overflow.
- `tsort.c` file reading and writing, `grep`'s line buffering, `free_astree`, printing and command execution.
- `file.c`, `hw10`, the other allocators and `hw04`, `hw06`.
