# Verification of the xv6 storage, memory and process core

This project models the hard core of an xv6 kernel (with per-CPU run queues) in
Dafny and proves its central promises. `dafny verify dfyconfig.toml` checks all
of it.

The code that updates state in place is modelled in place: classes with fields
and arrays, `while` loops with invariants, error and panic outcomes as results.
Each such method is tied to functions on values, and the laws are proved about
those. Pointers into static C tables are table indices. Protocols with several
processes, CPUs or crashes are transition systems, and their theorems are about
every run.

| files | what they cover |
|---|---|
| `Common`, `Blocks` | shared types; bytes, little-endian words and bits of a 512-byte block |
| `LogSpec`, `GroupCommit`, `Reservation`, `LogRuns` | the redo log on values: crash atomicity, whole runs with crashes anywhere, log capacity |
| `Ring`, `BufferCache`, `Holders`, `RedoLog` | the code of bio.c and log.c on the cache's linked ring and buffers, while others hold buffers |
| `FilesSpec`, `WriteSpec`, `TruncSpec`, `TxnSpec`, `Files`, `FileWrite`, `Format` | block ownership and file contents; the code of fs.c, filewrite and the layout of mkfs |
| `OnDisk` | where each field of an inode, the free map, an indirect block and the log header is, byte by byte |
| `CrashFiles` | files and log together: what is in the files after a crash |
| `FreeListSpec`, `Umalloc` | the user-level allocator |
| `PageSpec`, `PageTables` | physical pages and two-level page tables |
| `Monitor`, `SleepLock`, `LogWait` | sleep/wakeup, sleep locks, waiting for the log |
| `ProcSpec`, `ProcTable`, `Dispatch` | the process table, its scans, and the hand-off of ptable.lock |
| `RunQueues` | per-CPU run queues and work stealing |
| `Pipe`, `Matcher` | the pipe ring buffer and the grep matcher |

How the layers fit. `RedoLog.Log` carries a state of the commit protocol of
`GroupCommit`: `begin_op`, `log_write` and `end_op` are its steps, and commit and
recovery issue exactly its disk writes, the sequence whose every prefix
`LogSpec.CrashAtomic` and the runs of `GroupCommit` reason about. `Files` works on
the block contents that `BufferCache` presents and records what it logs as
transactions; a file system object keeps the invariant that it was consistent
before and after each of them. `CrashFiles` puts the two together: whatever
calls the transactions come from and wherever the machine stops, recovery finds
the file system between two of them (`CrashFiles.HistorySurvives`), a write
interrupted by a crash has written a whole number of its chunks
(`CrashFiles.CrashedWrite`), and transactions of `filewrite` never fill the log
(`CrashFiles.WritesFitLog`).

Operations that can fail state exactly when they do, in terms the caller could
count beforehand: free blocks against the blocks of the file (`Writei`,
`Filewrite`), free pages against pages and missing page tables (`SetupKvm`,
`AllocUvm`, `CopyUvm`), buffers neither pinned nor in use (`Commit`).

Six promises turned out to have exact limits, which the project states:

- a log of LOGSIZE blocks, as mkfs makes it, holds operations of fewer than
  MAXOPBLOCKS blocks each, not of MAXOPBLOCKS (`Reservation.CapacityExact`);
- `malloc` returns enough bytes exactly when rounding the request up does not
  wrap around (`Umalloc.EnoughBytes`);
- `filewrite` writes everything exactly when the whole range fits the largest
  file and starts inside the file; otherwise it keeps the whole chunks that fit
  (`FileWrite.Filewrite`);
- `work_steal` never takes from queue 0 (`RunQueues.Scheduler.WorkSteal`);
- the size that mkfs gives the root directory in the end leaves a consistent
  image exactly when the entries do not fill their last block; with 30 files it
  claims a block the directory does not have (`Format.RootSizeExact`);
- `kfree` keeps the free list exactly when the page was not on it; freeing a page
  twice makes the list a cycle (`PageTables.Memory.Kfree`).

## Model

| member | source | states |
|---|---|---|
| LogSpec.HeaderRoundTrip | src/log.c:81-105 | a header written by write_head reads back as the same list, whatever the block held before |
| LogSpec.CommitWriteAt | src/log.c:163-184 | the writes of commit one by one: the k-th logged block to the k-th slot of the log, the header, each block to its home, the empty header |
| LogSpec.RecoverWriteAt | src/log.c:67-112 | the writes of recovery one by one: each logged block to its home, then the empty header |
| LogSpec.StandsForUnique | src/log.c:67-78 | a well-formed disk stands for exactly one assignment of home blocks |
| LogSpec.RecoverCutKeeps | src/log.c:67-112 | recovery cut off after any write leaves a disk that stands for the same contents; a complete run puts them in place and clears the header |
| LogSpec.RecoverSound | src/log.c:107-112 | recovery of a disk that stands for some contents yields exactly those home blocks and an empty header |
| LogSpec.RecoveryTolerant | src/log.c:67-112 | any finite sequence of interrupted recovery runs followed by a complete one gives what one uninterrupted run gives, with header n = 0 |
| LogSpec.CommitPoint | src/log.c:176-184 | once the first header write has landed the disk stands for the new contents |
| LogSpec.TailWrites | src/log.c:176-184 | after the commit point the writes of commit are exactly those recovery would issue |
| LogSpec.CrashAtomic | src/log.c:163-184 | a crash after any number of writes of commit recovers to exactly the old or exactly the new home blocks, the new ones precisely when the first header write has landed |
| GroupCommit.StepInv | src/log.c:115-213 | begin_op, log_write, end_op, each disk write of commit and recovery, and a crash all keep the log invariant |
| GroupCommit.RunsAreAtomic | src/log.c:115-213 | for every interleaving of operations with crashes anywhere, recovery gives the initial contents plus all updates of a prefix of the commit groups; committing excludes outstanding operations; no operation is split across groups |
| GroupCommit.NoEarlyHomeWrites | src/log.c:195-213 | between commits the logged list has no duplicates and is exactly the set of pinned blocks, and no home block changes on disk before its group's header is written |
| GroupCommit.DurableForever | src/log.c:133-184 | a group that would survive a crash now survives any crash later in the run |
| GroupCommit.UpdatesKept | src/log.c:133-213 | from any point of a run, as long as there is no crash, the groups and the open group grow by exactly the updates of log_write that the run makes, in order |
| GroupCommit.AllOnDisk | src/log.c:133-184 | when all operations have ended and the commit is done, the home blocks on disk are the initial contents with every update of the run applied in order |
| Reservation.RunReserved | src/log.c:115-129 | in every reachable state the logged blocks plus the unused budgets of outstanding operations fit the log |
| Reservation.NoCapacityPanic | src/log.c:195-199 | with at most MAXOPBLOCKS-1 blocks per operation and a log of LOGSIZE blocks neither capacity panic of log_write is reachable |
| Reservation.FullBudgetPanics | src/mkfs.c:25 | with budgets of MAXOPBLOCKS blocks and mkfs's log size there is a run of three operations that reaches the panic |
| Reservation.CapacityExact | src/log.c:198-199 | the capacity panics are unreachable if and only if operations log fewer than MAXOPBLOCKS blocks |
| LogRuns.Perform | src/log.c:115-184 | the log can perform any list of transactions of home blocks with fewer than MAXOPBLOCKS blocks each, after recovery from any well-formed disk, one commit group per transaction |
| BufferCache.Cache.constructor | src/bio.c:38-54 | binit builds a ring of all NBUF buffers, all recyclable; the cache presents the disk's contents |
| BufferCache.Cache.FindCached | src/bio.c:65-72 | finds a buffer of the block if and only if there is one |
| BufferCache.Cache.FindRecyclable | src/bio.c:77-87 | finds the least recently used buffer that is neither referenced nor dirty, if and only if one exists |
| BufferCache.Cache.Bget | src/bio.c:59-89 | a hit is reused with one more reference and nothing else changed; otherwise the least recently used unreferenced clean buffer is recycled, not valid, with one reference; at most one buffer per block stays true; the panic happens exactly when no buffer can be recycled |
| BufferCache.Cache.Bread | src/bio.c:92-101 | returns a locked, valid buffer with the last contents stored in the block, and leaves the other buffers; waits, with a reference, exactly if the block is locked; the panic happens exactly when the block is not cached and no buffer can be recycled |
| BufferCache.Cache.Bwrite | src/bio.c:104-109 | stores the buffer in the block and on disk with one write, and unpins it |
| BufferCache.Cache.Pin | src/log.c:211 | a logged buffer becomes dirty: the block's contents change for readers, the disk does not |
| BufferCache.Cache.Brelse | src/bio.c:113-132 | the ring stays a permutation of all buffers ordered by when their reference count last dropped to zero; the cache still shows what was last stored if and only if the buffer's data was stored |
| BufferCache.MovedStamps | src/bio.c:121-129 | moving the buffer released last to the front keeps that order |
| BufferCache.StoreConsistent | src/log.c:203-212 | storing a held buffer keeps the cache consistent with the block map |
| Holders.SparedKeeps | src/bio.c:113-132 | reading and releasing blocks takes no buffer away from others: locks, references and recyclable buffers stay |
| Holders.SameReady | src/bio.c:59-89 | while no block is unpinned, bget finds a buffer for the same blocks as before |
| Holders.RoomCount | src/bio.c:77-88 | a buffer can be recycled if and only if fewer than all are pinned or in use |
| Ring.Unlink | src/bio.c:123-124 | the two pointer updates remove exactly one node of a ring |
| Ring.PushFront | src/bio.c:125-128 | the four pointer updates insert a node after the sentinel |
| Ring.PushBack | src/proc.c:127-130 | the four pointer updates insert a node before the sentinel |
| RedoLog.Log.WriteLog | src/log.c:163-174 | writes each pinned block to its slot of the log body and nothing else; fails exactly when there is no buffer for one of the slots; buffers of others are untouched |
| RedoLog.Log.WriteHead | src/log.c:95-105 | one disk write that encodes the in-memory header; fails exactly when there is no buffer for it |
| RedoLog.Log.InstallTrans | src/log.c:67-78 | writes each logged block home, in order, and unpins it; cannot fail if there were buffers for the blocks of the log |
| RedoLog.Log.Commit | src/log.c:176-184 | fails if and only if something is logged and there is no buffer for the header or a block of the log; the disk writes are those of the specification, every prefix of them recovers to old or new, also after a failure, and the log is open and empty afterwards |
| RedoLog.Log.ReadHead | src/log.c:81-90 | the in-memory list is the list encoded in the header block |
| RedoLog.Log.RecoverFromLog | src/log.c:107-112 | the code of recovery is all disk writes of the protocol's recovery and its end, and leaves exactly the recovered disk and an open, empty log |
| RedoLog.Log.BeginOp | src/log.c:115-129 | the protocol's step Begin, admitted exactly when no commit runs and the reservation fits |
| RedoLog.Log.EndOp | src/log.c:136-151 | the protocol's step End of an outstanding operation; the last one out must commit; the panic is unreachable |
| RedoLog.Log.FinishOp | src/log.c:133-160 | end_op of the last operation is the protocol's End, all its disk writes and Finish, and the disk holds every stored block; it fails exactly when commit does, before the header is written; of another operation only End |
| RedoLog.Log.LogWrite | src/log.c:195-213 | the protocol's step LogWrite: the block joins the list once, is pinned, and the pinned blocks stay exactly the logged ones; all three panic conditions |
| RedoLog.Log.Absorb | src/log.c:203-209 | the search loop adds the block number unless it is there |
| FilesSpec.DinodeRoundTrip | src/fs.c:210-294 | an inode written by iupdate is read back by ilock, and its neighbours in the block are unchanged |
| OnDisk.WordLayout | src/fs.h:29-36 | a 32-bit word is stored low byte first |
| OnDisk.ReadLayout | src/fs.c:281-290 | the inode read from slot k is bytes 64k up to 64k+64: type, major, minor and nlink in two bytes each, low byte first, then size and thirteen addresses in four |
| OnDisk.WriteLayout | src/fs.c:210-224 | the inode written to a slot is spelled by the same bytes, and no byte outside the slot changes |
| OnDisk.InodeLayout | src/fs.h:39-42 | inode i is in slot i % 8 of block inodestart + i / 8 |
| OnDisk.MarkLayout | src/fs.h:45-48 | block b is marked by bit b % 8 of byte b % 4096 / 8 of block bmapstart + b / 4096 |
| OnDisk.ContentLayout | src/fs.c:348-374 | byte k of a file is byte k % 512 of the block in address k / 512, or, from the twelfth on, in the little-endian entry of the indirect block |
| OnDisk.HeaderLayout | src/log.c:34-90 | the header read from a block: the count in the first four bytes, then the block numbers in order, four bytes each |
| OnDisk.EncodeLayout | src/log.c:95-105 | the header written to a block is spelled by the same bytes |
| FilesSpec.MarkedOfMark | src/fs.c:60-84 | setting or clearing a bit of the free map changes the mark of that block only |
| FilesSpec.OwnershipExact | src/fs.c:40-87 | between operations a bit is set exactly for metadata blocks, for data blocks of exactly one file and position, and for indirect blocks of exactly one file |
| FilesSpec.AllocateInv | src/fs.c:52-72 | balloc keeps the ownership invariant and touches no other data block |
| FilesSpec.ReleaseInv | src/fs.c:75-87 | bfree of a block that no file outside the operation owns keeps the ownership invariant |
| FilesSpec.ReleaseBreaks | src/fs.c:75-87 | bfree of any other block in use breaks it |
| FilesSpec.FreeBlocksPut | src/fs.c:52-87 | how one change of hands changes the number of free blocks |
| FilesSpec.GrowDirect | src/fs.c:352-356 | linking a fresh direct block appends one zeroed block to the file, takes one free block and changes no other file |
| FilesSpec.GrowIndirect | src/fs.c:359-362 | linking a fresh indirect block takes one free block and changes no file contents |
| FilesSpec.GrowListed | src/fs.c:363-371 | linking a block through the indirect block appends one zeroed block, takes one free block and changes no other file |
| FilesSpec.WriteBackInv | src/fs.c:210-224 | iupdate makes the inode's disk copy current and keeps every other |
| FilesSpec.SameContent | src/fs.c:422-444 | a file whose inode, block list and blocks are unchanged has the same bytes |
| Files.FileSystem.FindFree | src/fs.c:56-60 | the first unmarked block, or none if all are marked |
| Files.FileSystem.Balloc | src/fs.c:52-72 | returns the first block that nothing owned, zeroed; fails exactly when no block is free |
| Files.FileSystem.Bfree | src/fs.c:75-87 | frees exactly that block; the panic is reached exactly for a free block; the invariant survives if and only if no file outside the operation owned it |
| Files.FileSystem.Iupdate | src/fs.c:210-224 | the disk copy of the inode becomes current: its 64 bytes spell the fields of the inode in the order of struct dinode |
| Files.FileSystem.Ilock | src/fs.c:271-294 | loads the current inode, field by field from its 64 bytes; the panic is reached exactly for type 0 |
| Files.FileSystem.Bmap | src/fs.c:348-374 | the address of block bn across the direct/indirect boundary; allocates only the first block past the end; fails exactly when fewer blocks are free than it needs (none, one or two), and then leaves the invariant and the file's blocks; the panic for bn out of range; which blocks it logs |
| Files.FileSystem.Readi | src/fs.c:422-444 | returns exactly the slice of the file's bytes that exists; the error conditions; nothing changes |
| Files.FileSystem.Writei | src/fs.c:449-477 | the file becomes old[..off] + src + old[off+n..], no other file changes, the size is the larger of the old one and off+n and the other fields of the inode stay, the inode on disk is current and there are no holes, free and used blocks add up; a rejected call changes nothing; it runs out of blocks if and only if the free blocks and those of the file are fewer than the file needs, and then every block is in use and a first part of src is written |
| WriteSpec.WrittenStep | src/fs.c:464-470 | one round of the copy loop puts one more chunk in place, in old and new blocks alike |
| WriteSpec.WrittenContent | src/fs.c:449-477 | when the loop is done the bytes of the file are the splice of the old bytes and src |
| WriteSpec.StarvedWhen | src/fs.c:464-470 | a write that stops for want of a block could not have completed with the blocks that were free |
| WriteSpec.WriteCounted | src/fs.c:449-477 | a completed write keeps the sum of free blocks and blocks of the file |
| WriteSpec.LogsCount | src/fs.c:449-477 | writing blocks lo up to hi logs at most hi - lo + 3 blocks when the free map is one block |
| Files.FileSystem.Itrunc | src/fs.c:381-407 | frees exactly the blocks the inode owned, leaves an empty file with its type, device numbers and link count, changes no other file, and never frees a free block; the free blocks grow by the blocks of the file |
| Files.FileSystem.constructor | src/fs.c:163-178 | a file system object starts valid on any consistent image |
| Files.FileSystem.EndOp | src/log.c:133-160 | what was logged since the last end_op becomes a transaction; the file system is consistent before and after each one |
| TxnSpec.HistoryNext | src/log.c:133-160 | one more transaction that ends in a consistent file system extends the history |
| TruncSpec.TruncDone | src/fs.c:381-407 | when all blocks are freed and the inode is cleared and written back, the file system is again without loose blocks |
| FileWrite.ChunkSpan | src/file.c:133-138 | a chunk of filewrite touches at most four blocks at any offset |
| FileWrite.Placed | src/file.c:133-156 | how much of a write fits: all of it, or the most whole chunks of 1536 bytes that end within 71680 bytes |
| FileWrite.ChunkLogs | src/file.c:133-152 | a transaction of filewrite logs at most seven blocks, fewer than MAXOPBLOCKS |
| FileWrite.WriteChunk | src/file.c:140-152 | one transaction extends the written part by one chunk, or leaves everything alone when the chunk is rejected; it runs out of blocks exactly when the blocks of the chunk are not free |
| FileWrite.Filewrite | src/file.c:118-156 | the bytes written are the chunks that fit, spliced in at the old offset; the return value; one transaction per chunk, each within the log budget, and after each of them a consistent file system with that many chunks written; it panics if and only if the blocks of what fits are not free, with all earlier chunks in place |
| FileWrite.RecordedNext | src/file.c:135-152 | a transaction that adds a chunk extends the record of the write |
| Format.Bitmap | src/mkfs.c:238-251 | mkfs's bitmap marks exactly the first blocks |
| Format.FormatDisk | src/mkfs.c:93-117 | the disk mkfs lays out before adding files holds a consistent file system with all inodes and data blocks free |
| Format.RootSizeExact | src/mkfs.c:158-163 | rounding up the size of the root directory leaves a consistent file system if and only if its last block is not full |
| CrashFiles.LimitCounts | src/log.c:195-213 | a run in which each operation logs at most m blocks is a run within limit m |
| CrashFiles.WritesFitLog | src/file.c:127-133 | operations that log blocks of filewrite's transactions never fill the log, in any number and interleaving |
| CrashFiles.CrashKeeps | src/log.c:107-184 | a property of the home blocks that holds whenever the last operation ends holds of the recovered disk, wherever the run is cut |
| CrashFiles.QuietMoves | src/fs.c:40-87 | consistency of the file system does not depend on the blocks before the inodes |
| CrashFiles.FilesSurvive | src/log.c:107-184 | if the file system is consistent whenever no operation is outstanding, it is consistent after recovery from any crash |
| CrashFiles.HistorySurvives | src/log.c:107-184 | for any history of file system transactions and any run whose groups are runs of these, the recovered disk is the one between two of them and consistent |
| CrashFiles.HistoryPerformed | src/log.c:115-184 | the log can perform any such history within the budget |
| CrashFiles.CrashedWrite | src/file.c:135-152 | a crash during filewrite leaves a whole number of its chunks in the file, in order, and every other file as it was |
| FreeListSpec.TotalIsArena | src/umalloc.c:46-61 | the sizes of all blocks add up to the units obtained from sbrk |
| FreeListSpec.MergeTiles | src/umalloc.c:33-42 | coalescing keeps the blocks a partition of the memory obtained |
| FreeListSpec.SplitTiles | src/umalloc.c:78-82 | cutting a block in two keeps the partition |
| FreeListSpec.JoinAt | src/umalloc.c:33-42 | joining two list blocks that touch leaves at most the gap below them in doubt |
| FreeListSpec.TakeOk | src/umalloc.c:75-77 | unlinking a block leaves a sorted list without touching blocks, and makes exactly that block live |
| Umalloc.EnoughBytes | src/umalloc.c:69 | the block holds nbytes exactly when nbytes + sizeof(Header) - 1 does not wrap around, and wastes less than a header then; otherwise it is a bare header |
| Umalloc.Heap.Locate | src/umalloc.c:30-32 | the search loop terminates at the block after which bp belongs |
| Umalloc.Heap.Free | src/umalloc.c:24-44 | the block is no longer live, nothing else changes hands; the ring stays circular, address-sorted and fully coalesced |
| Umalloc.Heap.Morecore | src/umalloc.c:46-61 | an area of max(nunits, 4096) units from sbrk is added to the free memory, or nothing changes |
| Umalloc.Heap.Malloc | src/umalloc.c:63-90 | terminates; returns nunits units disjoint from every live block; sbrk is called at most once, for max(nunits, 4096) units, and only when no free block fits, and what it gave beyond nunits is free in one piece afterwards; otherwise the block is the first that fits after the last one used; 0 exactly when nothing fits and sbrk fails |
| Umalloc.Heap.Separation | src/umalloc.c:24-90 | no unit is in two blocks, live or free, and none is lost |
| PageSpec.OtherDirs | src/vm.c:222-345 | an operation on one page directory leaves what every other one maps, and the contents, unchanged |
| PageSpec.PutTableInv | src/vm.c:44-52 | a new page table keeps the pages partitioned |
| PageSpec.MapUserInv | src/vm.c:68-74 | mapping a page keeps every user page mapped exactly once |
| PageSpec.UnmapInv | src/vm.c:266-276 | freeing and unmapping a page keeps the partition |
| PageSpec.UnmapRangeInv | src/vm.c:265-277 | the page-by-page loop frees exactly the user pages in the range |
| PageSpec.UnmapOrder | src/vm.c:265-277 | the freed pages are put on the free list one by one in ascending order of their address |
| PageSpec.Restored | src/vm.c:342-344 | a directory made and freed by one operation leaves every page with its former owner |
| PageTables.Memory.Kalloc | src/kalloc.c:82-95 | pops the free list; 0 exactly when it is empty |
| PageTables.Memory.Kfree | src/kalloc.c:59-77 | pushes the page; the panic is reached exactly for pages outside the managed range; a page already on the list makes the list a cycle |
| PageTables.Memory.FreeRange | src/kalloc.c:46-53 | exactly the whole pages between the two addresses become free |
| PageTables.Memory.Walk | src/vm.c:35-55 | finds or makes the page table without changing any mapping; fails only when it may not allocate or no page is free |
| PageTables.Memory.MapUserPage | src/vm.c:60-80 | maps exactly one page; the remap panic is reached exactly when the page was mapped |
| PageTables.Memory.MapRegion | src/vm.c:60-80 | maps consecutive kernel pages to consecutive frames; the user part is unchanged even on failure; which page tables it adds, and that failure means too few free pages for them |
| PageTables.Memory.SetupKvm | src/vm.c:118-136 | maps exactly the kernel regions and takes one page plus one per directory entry they use; runs out of memory if and only if fewer pages are free, and then restores every page's owner |
| PageTables.KernelPages | src/vm.c:104-136 | each page of a kernel region is mapped to the frame at the same distance from the region's first, with the region's permission, and no other page is mapped |
| PageTables.AddressSplit | src/mmu.h:70-91 | an address is looked up with its top ten bits in the directory and the next ten in the table; user addresses are those below 0x80000000 |
| PageTables.Memory.AllocUvm | src/vm.c:221-249 | new pages are mapped once, user-writable, each of 4096 zero bytes; fails if and only if fewer pages are free than the new pages and the missing page tables need, and then every user page is returned and the old mappings are kept |
| PageTables.Memory.DeallocUvm | src/vm.c:255-279 | the loop that skips absent page tables gives exactly the state of the page-by-page loop, including the order of the free list |
| PageTables.Memory.FreeVm | src/vm.c:283-298 | exactly the pages of the directory become free |
| PageTables.Memory.CopyUvm | src/vm.c:315-345 | the copy has the same contents and permissions page by page; out of memory if and only if fewer pages are free than the directory, the kernel's tables, the pages before the first unmapped one and their tables need, and then every page is where it was; the panic if and only if there are enough and a page is unmapped |
| PageTables.ChainLoops | src/kalloc.c:59-77 | pushing a page that is on the free list leaves no finite list |
| PageTables.CopyCount | src/vm.c:315-345 | the pages a copy needs, with the tables of the kernel and the user part counted apart |
| Monitor.NoLostWakeup | src/proc.c:668-740 | in every run, when the lock is free and the condition holds nobody is asleep or about to sleep on it, provided each update that can make the condition true is followed by a wakeup |
| Monitor.StepInv | src/proc.c:668-740 | every step of sleep, wakeup, the scheduler and kill keeps that invariant |
| Monitor.Sleeps | src/proc.c:668-705 | an undisturbed sleep leaves the process asleep with both locks free and the data as it was |
| Monitor.Updates | src/proc.c:731-740 | a critical section that ends in wakeup has made its update and holds both locks when it comes to wake the sleepers |
| Monitor.Wakes | src/proc.c:731-740 | wakeup then makes every sleeper runnable, touches no other process and frees both locks |
| Monitor.Returns | src/proc.c:668-705 | a process that was woken and is dispatched returns from sleep holding the lock |
| SleepLock.SleeplockSafe | src/sleeplock.c:20-36 | a sleep lock has at most one holder, and nobody sleeps on one that is free with its spinlock free |
| SleepLock.HoldingSleepExact | src/sleeplock.c:38-45 | holdingsleep is true exactly for the holder |
| SleepLock.TakesAndGives | src/sleeplock.c:20-36 | in every run acquiresleep makes the process the only holder, with its pid, of a lock nobody held, and releasesleep leaves a lock nobody holds |
| LogWait.LogWaitersSafe | src/log.c:115-160 | nobody sleeps on the log when its lock is free and begin_op would be admitted; a commit excludes outstanding operations, so end_op's panic is unreachable |
| LogWait.StepUpdates | src/log.c:115-213 | every step of the commit protocol but a crash is one of the updates the waiting is proved for |
| ProcSpec.ExitInv | src/proc.c:395-415 | exit keeps parents alive and waiting parents without zombie children |
| ProcSpec.ReapInv | src/proc.c:436-450 | freeing a zombie keeps the invariant of the table |
| ProcTable.Ptable.Wakeup1 | src/proc.c:711-728 | exactly the sleepers on the channel become RUNNABLE, every other entry is unchanged |
| ProcTable.Ptable.Exit | src/proc.c:377-414 | parent woken, children passed to init, init woken exactly if one of them is a zombie, the process a zombie |
| ProcTable.ExitWakes | src/proc.c:395-415 | what exit does entry by entry: the process is a zombie, its children are init's, awake are exactly those who slept on its parent, or on init when a child is a zombie; nothing else changes |
| ProcTable.Ptable.Wait | src/proc.c:427-463 | frees the first zombie child exactly if there is one, and returns its pid: the entry is UNUSED with pid 0, no parent, not killed and no stack, and no other entry changes; fails exactly without children or when killed; otherwise sleeps on itself |
| ProcTable.Ptable.Kill | src/proc.c:745-765 | the first process with the pid is killed, and RUNNABLE if it was asleep; no other entry changes |
| Dispatch.StepInv | src/proc.c:556-641 | every step of schedulers and processes on any number of CPUs keeps the invariant |
| Dispatch.LockFree | src/proc.c:372-464 | whenever ptable.lock is free: RUNNING if and only if exactly one CPU's proc points at the process; a process asleep in wait has no zombie child; no process has a zombie or free parent |
| Dispatch.ReapSafe | src/proc.c:436-441 | wait never frees a kernel stack that a CPU is running on |
| Dispatch.ForkMakes | src/proc.c:301-365 | an undisturbed fork leaves the child RUNNABLE with its pid, its parent and a kernel stack, and everything else as it was |
| Dispatch.ForkFails | src/proc.c:301-318 | a fork without memory leaves the entry free and everything else as it was |
| Dispatch.Turn | src/proc.c:556-641 | a turn of the scheduler: the process is RUNNING on that CPU's proc and on its own stack with ptable.lock free, and after yield it is RUNNABLE and everything else as it was |
| Dispatch.WakesExactly | src/proc.c:711-740 | a wakeup makes RUNNABLE exactly those asleep on its channel |
| Dispatch.SleepThenWakeup | src/proc.c:668-740 | a process that sleeps on a channel is RUNNABLE after a wakeup on it, and still asleep after one on another channel |
| Dispatch.WaitThenExit | src/proc.c:395-463 | a parent asleep in wait is RUNNABLE once a child exits, and the child is a zombie for it to free |
| Dispatch.ReapAndKill | src/proc.c:436-765 | freeing a zombie leaves an entry without pid, parent, killed flag and stack; kill sets the flag and ends sleep; nothing else changes |
| RunQueues.Scheduler.constructor | src/proc.c:95-112 | runqueueinit makes every queue an empty ring |
| RunQueues.Scheduler.Enqueue | src/proc.c:115-131 | the process goes last; the panic is reached exactly when its pid is in the queue; the process may be in that queue already, but in no other |
| RunQueues.Scheduler.Dequeue | src/proc.c:134-148 | takes the process that has waited longest; the panic is reached exactly for an empty queue |
| RunQueues.Scheduler.Alloc | src/proc.c:188-210 | the first unused entry becomes an embryo with the next pid, which no process has; None exactly when the table is full |
| RunQueues.Scheduler.FindLongest | src/proc.c:473-481 | the first longest other queue, if any is not empty |
| RunQueues.Scheduler.WorkSteal | src/proc.c:466-504 | moves the front of the first longest other queue to the back of this one and leaves the others, nothing when that is queue 0 or all are empty; enqueue cannot panic |
| RunQueues.StolenConserves | src/proc.c:466-504 | stealing conserves the multiset of queued processes |
| RunQueues.Scheduler.FindShortest | src/proc.c:346-356 | the first shortest queue; fork's panic for want of a target is unreachable |
| RunQueues.Scheduler.Fork | src/proc.c:338-361 | the child becomes RUNNABLE at the back of the first shortest queue |
| RunQueues.Scheduler.Yield | src/proc.c:620-641 | the process goes to the back of its CPU's queue |
| RunQueues.Scheduler.Wakeup1 | src/proc.c:711-728 | exactly the sleepers on the channel become RUNNABLE and are queued last, in strictly ascending table order |
| RunQueues.Scheduler.Kill | src/proc.c:745-765 | the first process with the pid is marked killed and, if asleep, becomes RUNNABLE without being queued |
| RunQueues.Scheduler.Schedule | src/proc.c:521-552 | runs the front of the queue or steals |
| RunQueues.Scheduler.Handle | src/proc.c:115-765 | each scheduling event does exactly this to table, pids and queues: allocation, fork, yield, sleep, wakeup, kill, exit, reaping, and a round of the scheduler |
| RunQueues.Scheduler.Run | src/proc.c:115-148 | any sequence of events has their effects one after the other, and keeps every queue a well-formed ring with size = length, each process in at most one queue and RUNNABLE there, and every queue first in, first out over the whole run |
| Pipe.FullEmptyExact | src/pipe.c:85-105 | the tests on the wrapping counters tell exactly when the ring is full and when it is empty |
| Pipe.FillHolds | src/pipe.c:84-93 | bytes go into the ring in order, never over undelivered ones |
| Pipe.DrainHolds | src/pipe.c:113-117 | bytes come out in the order they went in |
| Pipe.PipeBuffer.Write | src/pipe.c:79-97 | a locked segment of pipewrite: how far it gets, and when it sleeps, fails or returns |
| Pipe.PipeBuffer.Read | src/pipe.c:101-121 | a locked segment of piperead: what it returns, and when it sleeps or fails |
| Pipe.PipeBuffer.Close | src/pipe.c:59-76 | closes that end and no other; the page is freed exactly when both are closed |
| Pipe.WriteExact | src/pipe.c:79-97 | in a run, a write puts in as many of its bytes as there is room for out of 512, and is over when all are in, nobody can read them or the process is killed |
| Pipe.ReadExact | src/pipe.c:101-121 | in a run, a read of an empty pipe waits while it can be written, and otherwise gets the next n bytes or all there are |
| Pipe.CloseEnds | src/pipe.c:59-76 | once the writing end is closed no read waits, and once the reading end is closed no write does |
| Pipe.PipeRuns | src/pipe.c:78-121 | under every interleaving of any number of readers and writers the bytes delivered are a prefix of the bytes accepted, at most PIPESIZE behind, and both streams are merges of exactly what each process wrote and read |
| Pipe.OneToOne | src/pipe.c:78-121 | with one writer and one reader, what was read is a prefix of what was written |
| Matcher.Match | src/grep.c:72-82 | terminates; true if and only if a substring (a prefix after ^) is a word of the pattern's language |
| Matcher.MatchHere | src/grep.c:85-96 | true if and only if a beginning of the text (all of it with a final $) is a word of the pattern |
| Matcher.MatchStar | src/grep.c:99-106 | true if and only if some run of accepted characters is followed by a match of the rest |
| Matcher.HereStar | src/grep.c:90-106 | a starred item in the declarative language is what matchstar searches for |
| Matcher.ParseWhole | src/grep.c:85-96 | the items of a pattern are the pattern: c*, a final $ and single characters in order give it back |
| Matcher.PlainMatches | src/grep.c:72-96 | a pattern without special characters matches exactly the texts that contain it |

## Left out

- RedoLog.Log.Commit: requires that nobody has the header, a log block or a logged block locked; commit would wait for such a buffer. Others may hold any other buffers, but do nothing while commit runs.
- RedoLog.Log.RecoverFromLog: requires the header on disk to be well formed (at most LOGSIZE distinct home blocks), because the code does not check it; every disk that runs of this system leave is.
- CrashFiles.HistorySurvives: for groups made of whole transactions one after the other; operations that interleave their writes within a group are covered by CrashFiles.FilesSurvive, which asks that the file system is consistent when the last of them ends.
- Format.FormatDisk: does not model how mkfs adds the root directory and the files.
- GroupCommit.RunsAreAtomic: a disk write is one atomic step and the cache is the map of pinned blocks; the memory disk of src/memide.c is the disk model. IDE hardware, interrupts and boot are not modelled.
- Files.FileSystem.Writei: works on the contents that bread returns, one operation at a time; devices (T_DEV) are an outcome, not modelled further.
- Files.FileSystem.Bmap: is called with bn at most one past the last block, as readi and writei call it, unless bn is out of range; beyond that bmap would make holes.
- Files.FileSystem.Ilock: models the read of the disk inode, not the sleep lock and reference counts of the inode cache (iget, iput, idup).
- FileWrite.Filewrite: for inodes that are not devices, outside any transaction, and with no other process changing the file between its transactions; pipes are in Pipe.
- Umalloc.Heap.Malloc: the address sbrk returns is a parameter. sbrk areas are aligned, above base and above all earlier areas; a request of 2^31 bytes or more, which sbrk would take for a negative number, is not modelled beyond that.
- PageTables.Memory.AllocUvm: requires that nothing is mapped from oldsz on, which is what the process size means; otherwise the code panics with "remap" or frees pages it did not map.
- PageTables.Memory.Kfree: does not model the fill pattern kfree writes into freed pages, nor use_lock.
- PageTables.Memory.MapUserPage: is mappages for one page and MapRegion for kernel regions, the two ways it is called; regions of kmap are parameters in whole pages.
- PageTables.Memory.SetupKvm: the panic for PHYSTOP above the device space compares constants and is left out; FreeVm is for a directory, so the panic for a null one is excluded.
- ProcTable.Ptable.Exit: the part under ptable.lock; closing files and dropping the current directory before it are not modelled.
- Monitor.NoLostWakeup: safety only; that a woken process eventually runs is not stated. Memory ordering, xchg and swtch are atomic steps.
- LogWait.LogWaitersSafe: outstanding operations are counted, not named; GroupCommit names them.
- Dispatch.LockFree: round-robin mode, the configured one. Each critical section is one step; the scheduler may pick any RUNNABLE process, of which the table order is a special case. Pids are not needed there; RunQueues covers their uniqueness.
- Dispatch.ForkMakes: for a fork, and Dispatch.Turn for a turn, whose steps are not interleaved with those of other CPUs; what holds under interleaving is Dispatch.StepInv and Dispatch.LockFree. Monitor.Sleeps, Monitor.Wakes and Monitor.Returns likewise.
- RunQueues.Scheduler.Run: each critical section, and yield and sleep through swtch, is one step; lock orders and the release of ptable.lock before swtch in the multiple-queue mode are not modelled, and neither is RUNNABLE implying queued, which kill breaks.
- Pipe.PipeRuns: sleepers may run again at any time, so wakeups are not modelled; liveness of readers is not claimed.
- Path names, directories, link counts, exec, system call arguments, the console, the shell and the other user programs: easy or foreign to the core.
- The event log of the scheduler (writelog) and its clock readings.
- loaduvm, inituvm, copyout and the other small users of walkpgdir: they add only easy members.
