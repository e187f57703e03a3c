# A verified model of an xv6-style kernel

This project models the parts of the kernel, its file system, its user library, its shell and its image
builder where correctness is hardest to see from the code, and proves properties of them for every input
and every run. Each module follows one component.

| module | component |
|---|---|
| `Common` | what several modules share |
| `Blocks`, `BufferCache` | disk blocks, the buffer cache and its ring (`fs/sfs/bio.c`) |
| `LogSpec`, `Log`, `LogRuns`, `LogAdmission` | the redo log: its disk writes, the code, all interleavings with crashes, and which operations may begin (`fs/sfs/log.c`) |
| `FsImage`, `Dinodes`, `FileSystem`, `FileSpec`, `FileIO`, `FileTrunc` | block bitmap, inodes, file contents, chunked writes (`fs/sfs/fs.c`, `fs/sfs/file.c`) |
| `DiskImage`, `FileCrash` | images as blocks of the disk, and crashes during a write |
| `Mkfs`, `MkfsRuns` | the image builder and its runs (`tools/mkfs/mkfs.cc`) |
| `Links`, `Paths` | directories, link counts, path names (`kern/syscall/sysfile.c`, `fs/sfs/fs.c`) |
| `BuddySpec`, `BuddyMarks`, `Buddy`, `BuddyOrder` | the buddy allocator (`kern/mm/buddy.c`) |
| `PageTable`, `Vm` | page tables and the ownership of pages (`kern/mm/vm.c`) |
| `ProcTable`, `ProcRuns` | the process table and all its runs (`kern/sched/proc.cc`) |
| `Pipe`, `SleepLock` | pipes and sleep locks (`fs/pipe.c`, `kern/locking/sleeplock.c`) |
| `UserHeapSpec`, `UserHeap` | malloc and free (`lib/ulibc/umalloc.c`) |
| `ShellGrammar`, `ShellSyntax`, `ShellWords`, `Shell`, `ShellRoundTrip` | the shell's parser, and the grammar apart from it (`bin/sh/sh.c`) |
| `Grep`, `HeapQueue` | the pattern matcher and the binary heap (`bin/grep/grep.c`, `include/klib/queue.h`) |

## How the model is built

Code that changes state is a class with the fields of the source, and each method is proved against a
function or predicate over values; the laws are then proved about those. A `panic` is a stop: it is an
extra result of a method, or, where the source relies on its absence, a requirement of the method that
its callers are proved to meet. Code that runs under a lock is one atomic step, so concurrency is a
state machine over such steps, and a run is any sequence of them. A disk write of one block is atomic,
and a crash may fall between any two.

`dafny verify dfyconfig.toml` checks the whole project.

The main results:

- Whatever block write of a commit is the last before a crash, and however often recovery crashes too,
  the home blocks end wholly old or wholly new (`LogSpec.CommitCrashAtomic`, `LogSpec.RepeatedCrashes`),
  and in every interleaving the disk recovers to a sequence of whole groups of whole operations
  (`LogRuns.GroupCommit`), and from every moment a crash and a recovery can follow that ends so
  (`LogRuns.CrashRecovers`). Which operations may begin without overflowing the log is settled exactly
  (`LogAdmission.AdmissionExactly`).
- Reading through the cache gives the last contents logged or written (`BufferCache.Cache.Bread`).
- Free buddy blocks are determined by the free bytes, allocation fails only where no aligned free run
  exists, and freeing restores the very same blocks (`BuddySpec.CanonicalForm`,
  `Buddy.Allocator.Kmalloc`, `Buddy.KmallocKmfree`).
- Every used disk block has exactly one owner, no file has holes, file contents behave as byte sequences,
  and a chunk of a write fits the log reservation of one operation (`FileIO.Writei`, `FileTrunc.Itrunc`,
  `FileIO.Filewrite`). A crash anywhere in a write, followed by recovery, leaves the file with its first
  chunks, all of each or nothing (`FileCrash.WriteSurvives`), and there is a run that performs them all
  (`FileCrash.WriteCompletes`). The kernel reads back what the image builder
  wrote, whatever files it was given and in whatever order, exactly when they fit (`MkfsRuns.ReadBack`).
- Link counts are the number of entries that name an inode (`Links.Tree.Link`, `Links.Tree.Unlink`,
  `Links.Tree.Create`), and each call changes one name only (`Links.LinkNames`, `Links.CreateNames`,
  `Links.UnlinkNames`). Paths lead from name to name (`Paths.ResolveOne`, `Paths.ResolveAppend`), and from a
  linked directory stay among linked directories (`Paths.PathsStayLinked`).
- The two-level page tables are a flat map, every page has one owner, failures give memory back, and an
  operation fails exactly when the pages it needs are not there, tables included (`Vm.Space.AllocUvm`,
  `Vm.Space.SetupKvm`, `Vm.Space.CopyUvm`, `Vm.Space.FreeVm`); which pages a size stands for is said in
  bytes.
- The process table keeps its invariant in every run (`ProcRuns.ProcessTable`, `ProcRuns.ReapedOnce`,
  `ProcRuns.NoExitLost`, `ProcRuns.KilledStays`).
- Pipes are first in, first out, in every interleaving, and carry exactly the bytes that the calls passed
  (`Pipe.Fifo`, `Pipe.PutIsSent`, `Pipe.WholeCalls`).
- User memory is always partitioned into allocated and free blocks (`UserHeap.Heap.Malloc`,
  `UserHeap.Heap.Free`).
- The shell's parser accepts exactly a grammar that is stated apart from it, tree by tree
  (`ShellSyntax.ParsesExactly`), and loses no word (`ShellSyntax.NoWordLost`).
- Printing and parsing a command gives the same tree (`ShellRoundTrip.RoundTrip`), for exactly the trees that
  parsing can give (`ShellGrammar.BuildsSmall`), however it is spaced as
  long as the tokens can be told apart (`ShellRoundTrip.LexBack`); patterns match what
  they mean (`Grep.Match`); popping the heap sorts (`HeapQueue.SortAll`).

Where the code does not keep what one would expect, the exact condition is proved:

- `Pipe.StepSound`, `Pipe.LostWakeup`: pipewrite returns without a wakeup when it is killed or has no
  reader left, so a reader can sleep on a full pipe.
- `LogRuns.ReservationProtects`: the reservation of begin_op is enough exactly when the log area is
  larger than LOGSIZE; the image builder makes it equal to LOGSIZE.
- `LogAdmission.AdmissionExactly`, `LogAdmission.RefusesTooMuch`: begin_op makes operations wait that could not
  fill the header, exactly because it counts MAXOPBLOCKS for an operation that has logged some of its blocks.
- `LogRuns.RelogPanics`: log_write tests for room before it looks whether the block is listed already.
- `Buddy.MarkThreadsExactly`, `BuddyMarks.PushThreadsExactly`: links are 16 bits wide. mark_blk keeps the
  list of an order threaded exactly when the new mark's index and the head are below 0xFFFF, or the index is
  above and the list was empty; unmark_blk always does (`BuddyMarks.UnlinkThreads`). The heap given at boot
  reaches such marks at order 6 and at no other (`Buddy.BootMarks`), and calls of kmalloc and kmfree lead to a
  block that is marked free and on no list (`Buddy.BootRun`, `Buddy.NilMarkIsLost`), so the allocator is proved
  for the orders from 7 on there.
- `Buddy.HeapEnds`: buddy_init frees a page that sticks out of a heap which is not a whole number of pages.
- `UserHeap.UnitsHold`, `UserHeap.CoreObtained`: malloc's rounding wraps for the largest sizes; sbrk takes a
  signed size, so from 2 GiB on it returns an address without memory behind it.
- `Links.CreateNeedsLinkedParent`, `Links.LinkNeedsLinkedParent`: create and sys_link do not test whether the
  directory is still linked; they keep the tree in order exactly when it is.
- `Mkfs.HeldIs`, `MkfsRuns.InodeKept`, `MkfsRuns.InodeHitsData`: the inode blocks of an image hold 208 inodes,
  and nothing keeps mkfs from making more; the next eight are lost when the bitmap is written, and those after
  them are written over the data of files.
- `Paths.PanicsExactly`: a path through an entry whose inode is gone stops in the panic of ilock; from a linked
  directory there is no such path (`Paths.PathsStayLinked`).
- `MkfsRuns.RootGrows`: main rounds the size of the root directory up to the end of a block, and past it if it
  was there already; the directory then has a hole exactly in that case.
- `>` and `>>` open a file alike (`bin/sh/sh.c:388-393`), so a redirection in the model has a direction only.
- filewrite (`fs/sfs/file.c:127-133`) counts two blocks of slop for writes that are not aligned. With the bitmap
  spread over several blocks that count is tight: `FileIO.ChunkFits` holds only because a chunk that starts
  inside a block finds that block allocated.

## Model

| member | source | states |
|---|---|---|
| `LogSpec.HeadRoundTrip` | fs/sfs/log.c:86-113 | A header written by write_head holds the count in word 0 and the blocks in the words after it, its other words stay, and read_head gives the same list |
| `LogSpec.UntouchedBlock` | fs/sfs/log.c:70-82 | However far install_trans got, a block it has not reached is as before |
| `LogSpec.InstalledBlock` | fs/sfs/log.c:70-82 | However far install_trans got, each home block it passed holds its log block as it was at the start: the copying never reads what it wrote |
| `LogSpec.InstallAbsorbs` | fs/sfs/log.c:70-82 | A full install over any partial install gives what one full install gives |
| `LogSpec.RecoverAfterCrash` | fs/sfs/log.c:116-122 | A recovery cut short at any write leaves a disk that recovers to the same disk |
| `LogSpec.RecoverIdempotent` | fs/sfs/log.c:116-122 | Recovering a recovered disk changes nothing |
| `LogSpec.RepeatedCrashes` | fs/sfs/log.c:116-122 | Any number of crashed recoveries, then one that ends, gives the disk that one undisturbed recovery gives |
| `LogSpec.RecoverTraceAtomic` | fs/sfs/log.c:116-122 | Every disk that exists during a recovery recovers to the same final disk |
| `LogSpec.LogWritesAreInvisible` | fs/sfs/log.c:178-190 | Before the header is written, recovery leaves the home blocks of before the commit |
| `LogSpec.HeaderCommits` | fs/sfs/log.c:102-113 | The one write of the header is the commit point: recovery then installs every logged block |
| `LogSpec.AfterHeader` | fs/sfs/log.c:193-202 | After the header, recovery ends the same wherever among the installs or the erasing the crash falls |
| `LogSpec.CommitCrashAtomic` | fs/sfs/log.c:69-202 | Crash atomicity: whatever the last block write of commit before the crash, recovery leaves all home blocks as before the commit or all as after it, and which of the two depends on the header write alone |
| `LogSpec.CommitTraceAtomic` | fs/sfs/log.c:193-202 | Every disk that exists during a commit is atomic in this sense |
| `LogSpec.EmptyHeadRecovers` | fs/sfs/log.c:116-122 | With an empty header, recovery changes no home block |
| `LogSpec.CommitClears` | fs/sfs/log.c:193-202 | A whole commit ends with an empty header on disk |
| `Log.Log.constructor` | fs/sfs/log.c:54-66 | A fresh log over a freshly booted cache is in order |
| `Log.Log.BeginOp` | fs/sfs/log.c:126-141 | An operation is admitted exactly when no commit runs and the header has room for any number of blocks up to MAXOPBLOCKS for it and for every open operation |
| `Log.AdmitsExactly` | fs/sfs/log.c:132 | The test of begin_op holds if and only if there is room for every number of blocks up to MAXOPBLOCKS for each operation, the new one counted |
| `Log.Log.LogWrite` | fs/sfs/log.c:214-233 | It panics if and only if the list or the log area is full or no operation is open; otherwise the list gains the block number at its end if it is not there, only the dirty flag of the buffer changes, and its data become the current contents of the block |
| `Log.Log.EndOp` | fs/sfs/log.c:146-174 | The last operation to end, and only that one, must commit; its panic happens exactly during a commit |
| `Log.Log.EndCommit` | fs/sfs/log.c:146-174 | The commit ends and operations are admitted again |
| `Log.Log.CopyBlock` | fs/sfs/log.c:70-82 | One round of write_log or install_trans through the cache, when nobody holds the two blocks: one disk write, of the source block as the cache shows it; buffers that others hold are untouched |
| `Log.Log.WriteLogBlocks` | fs/sfs/log.c:178-190 | The disk writes of write_log are exactly the specified ones, also when it stops early; it needs only that nobody holds the log or a logged block |
| `Log.Log.WriteHead` | fs/sfs/log.c:102-113 | One disk write; the header block lists the logged blocks and its other words stay; it needs only that nobody holds the header |
| `Log.Log.ReadHead` | fs/sfs/log.c:86-96 | The list in memory is the list of the header block |
| `Log.Log.InstallTrans` | fs/sfs/log.c:70-82 | The disk writes of install_trans are exactly the specified ones, also when it stops early, with other processes holding any other blocks |
| `Log.Log.Commit` | fs/sfs/log.c:193-202 | Its disk writes, one by one, are the specified ones; every disk on the way is atomic; at the end disk and cache agree, the home blocks are what the cache showed, the log is empty, and the buffers that others hold and edit are as they were; it fails only when no buffer is idle and clean |
| `Log.Log.RecoverFromLog` | fs/sfs/log.c:116-122 | Its disk writes, one by one, are the specified ones; at the end disk and cache are the recovered disk; it fails only when no buffer is idle and clean |
| `Log.CommitDone` | fs/sfs/log.c:193-202 | After a whole commit the disk holds what the cache showed before it |
| `LogRuns.GroupCommit` | fs/sfs/log.c:125-233 | In every run of interleaved operations, commits, crashes and recoveries, however many blocks the operations log, a crash now followed by recovery leaves the effect of the durable groups, in order; each is made of whole operations; and groups are only ever added |
| `LogRuns.NoOpInTwoGroups` | fs/sfs/log.c:146-174 | No operation is split over two groups |
| `LogRuns.NoLogWriteDuringCommit` | fs/sfs/log.c:125-174 | In every run, while an operation is open no commit and no recovery is running, and the logged block numbers are distinct |
| `LogRuns.RunInv` | fs/sfs/log.c:125-233 | The invariant of disk, groups and counter holds at every moment of every run |
| `LogRuns.CrashRecovers` | fs/sfs/log.c:116-122 | Every run can go on, from any moment, with a crash, a reboot and a recovery that ends, and the disk is then what recovery is said to give |
| `LogRuns.EndCounts` | fs/sfs/log.c:146-174 | The counter reaches zero exactly when no operation is open |
| `LogRuns.RoomForOperation` | fs/sfs/log.c:132-233 | In every run whose operations keep to MAXOPBLOCKS blocks, an operation that has logged fewer finds room in the header |
| `LogRuns.RunBudget` | fs/sfs/log.c:132-233 | In every such run the blocks logged and the blocks that open operations may still log fit the header |
| `LogRuns.BudgetedPanicNeedsSmallLog` | fs/sfs/log.c:214-233 | In every such run, log_write panics only if the log area is too small |
| `LogRuns.ReservationProtects` | fs/sfs/log.c:214-233 | Some run in which operations keep to MAXOPBLOCKS panics in log_write exactly when the log area has no more than LOGSIZE blocks, as the images of mkfs have |
| `LogRuns.RelogPanics` | fs/sfs/log.c:214-233 | A run that fills the header: from there even a block that is listed already makes log_write panic, because it tests for room before it looks for the block |
| `LogAdmission.AdmissionExactly` | fs/sfs/log.c:125-141 | At every moment of every budgeted run at which no commit runs: letting one more operation in can lead to a full header if and only if the blocks logged, what the open operations may still log and MAXOPBLOCKS more exceed LOGSIZE; begin_op lets none of these in, and lets all others in as long as no open operation has logged a block |
| `LogAdmission.RefusesTooMuch` | fs/sfs/log.c:132-134 | The failing case of the converse: a run after which begin_op makes an operation wait that could never fill the header, because it counts MAXOPBLOCKS also for an operation that has logged some of its blocks |
| `BufferCache.Ring.constructor` | fs/sfs/bio.c:39-56 | binit makes one ring through all buffers |
| `BufferCache.Ring.MoveToFront` | fs/sfs/bio.c:121-141 | The pointer writes keep one ring through all buffers, and the buffer is the most recent one |
| `BufferCache.Cache.constructor` | fs/sfs/bio.c:39-56 | The empty cache shows the disk |
| `BufferCache.Cache.FindCached` | fs/sfs/bio.c:68-76 | Finds the buffer of a block exactly when there is one |
| `BufferCache.Cache.FindVictim` | fs/sfs/bio.c:78-92 | Finds the least recently released of the idle clean buffers, exactly when there is an idle clean one |
| `BufferCache.Cache.Bget` | fs/sfs/bio.c:62-93 | The buffer that caches the block, else the least recently released idle clean one; None if and only if no buffer caches the block and none is idle and clean; every other buffer is untouched |
| `BufferCache.Cache.IderwRead` | drivers/ide/memide.c:39-60 | Reads the current contents of the block, and panics exactly in the stated cases |
| `BufferCache.Cache.Bread` | fs/sfs/bio.c:97-106 | Waits exactly when some process holds the block, having taken a reference; else a locked buffer whose data are the last contents logged or written for the block, as if there were no cache; fails exactly without a buffer |
| `BufferCache.Cache.ReadLocked` | fs/sfs/bio.c:62-106 | The rest of bread once the lock is free: the buffer is locked and its data are the current contents of the block |
| `BufferCache.Cache.Edit` | fs/sfs/bio.c:97-106 | Edits of a held buffer are not visible to others before they are logged or written |
| `BufferCache.Cache.Bwrite` | fs/sfs/bio.c:110-116 | The data become the contents of the block, on disk at once; panics exactly without the lock |
| `BufferCache.Cache.MarkDirty` | fs/sfs/log.c:230-232 | A logged buffer is pinned and its data become current, on no disk yet |
| `BufferCache.Cache.Brelse` | fs/sfs/bio.c:121-141 | The lock is given up; the last release, and only that, makes the buffer the most recent one |
| `BufferCache.RecycleKeepsContents` | fs/sfs/bio.c:78-92 | Recycling an idle clean buffer loses no contents and keeps a block in at most one buffer |
| `BufferCache.CleanIsOnDisk` | fs/sfs/bio.c:78-92 | A block whose buffer is not dirty is current on disk |
| `BufferCache.WriteKeepsContents` | fs/sfs/bio.c:110-116 | Logging or writing a buffer keeps cache, disk and current contents in agreement |
| `BuddySpec.CanonicalForm` | kern/mm/buddy.c:271-326 | Two sets of free blocks without two free buddies that cover the same bytes are the same set |
| `BuddySpec.CoveredBlockIsInside` | kern/mm/buddy.c:271-326 | A wholly free aligned run lies inside one free block |
| `BuddySpec.InsertBlock` | kern/mm/buddy.c:271-295 | Adding a block whose buddy is not free keeps the canonical form |
| `BuddySpec.MergeStep` | kern/mm/buddy.c:284-294 | Taking out the free buddy and freeing the parent is freeing the block |
| `BuddySpec.RemoveBlock` | kern/mm/buddy.c:297-326 | Taking a block out keeps the canonical form |
| `BuddySpec.SplitStep` | kern/mm/buddy.c:312-325 | Taking the parent and giving back one half is taking the other half |
| `BuddySpec.NoAlignedRun` | kern/mm/buddy.c:297-326 | Without a free block of the order or above, no aligned run of that size is free |
| `BuddySpec.AllocThenFree` | kern/mm/buddy.c:271-326 | Freeing what was just allocated restores the set of free blocks |
| `BuddySpec.InsideRun` | kern/mm/buddy.c:75-83 | The units of a block are one run of the length of its order, at a multiple of that length |
| `BuddyMarks.LinksRoundTrip` | kern/mm/buddy.c:32-45 | Two indexes survive packing into one word exactly when both fit in 16 bits |
| `BuddyMarks.PushKeepsList` | kern/mm/buddy.c:202-237 | mark_blk keeps the list of an order doubly linked and equal to the marks with a bit set |
| `BuddyMarks.PushThreadsExactly` | kern/mm/buddy.c:202-237 | Whatever the number of marks, linking a mark keeps the list threaded if and only if its index is below 0xFFFF and so is the head, or it is above and the list was empty |
| `BuddyMarks.UnlinkThreads` | kern/mm/buddy.c:155-199 | unmark_blk keeps every threaded list threaded, whatever the number of marks |
| `BuddyMarks.UnlinkKeepsList` | kern/mm/buddy.c:155-199 | unmark_blk keeps the list of an order doubly linked and equal to the marks with a bit set |
| `BuddyMarks.BitsKeepList` | kern/mm/buddy.c:155-237 | A bitmap that stays non-zero leaves the list in order |
| `BuddyOrder.RoundupIsLeast` | kern/mm/buddy.c:92-103 | The bit smearing gives the least power of two that is not smaller, and zero exactly where 32 bits have none |
| `BuddyOrder.GetOrder` | kern/mm/buddy.c:388-411 | The least order whose blocks hold the size; panics exactly for zero and above a page |
| `BuddyOrder.LowestBit` | kern/mm/buddy.c:392-399 | The number of the lowest set bit; 32 exactly when there is none |
| `Buddy.AddressRoundTrip` | kern/mm/buddy.c:75-83 | mem2blkid undoes blkid2mem, and all block addresses are aligned |
| `Buddy.BlockBytes` | kern/mm/buddy.c:75-83 | The bytes of a block are one run from its address on, and twice as many from order to order |
| `Buddy.HeldApart` | kern/mm/buddy.c:329-343 | Two blocks handed out have no byte in common |
| `Buddy.MarkLayout` | kern/mm/buddy.c:105-152 | The mark regions of the orders halve from order to order and do not overlap |
| `Buddy.TopBlockFits` | kern/mm/buddy.c:105-152 | The marks of the top order are enough for all of the heap |
| `Buddy.HeapEnds` | kern/mm/buddy.c:141-151 | The heap filled by buddy_init stays below its end exactly when it is a whole number of pages |
| `Buddy.Allocator.constructor` | kern/mm/buddy.c:105-152 | The heap starts wholly free, with every list in order, when the lowest order in use has at most 0xFFFF marks |
| `Buddy.Allocator.GetMark` | kern/mm/buddy.c:70-73 | The mark found is that of the order and index |
| `Buddy.Allocator.MarkBlk` | kern/mm/buddy.c:202-237 | Exactly the one block becomes free; all lists and bitmaps stay in order |
| `Buddy.Allocator.UnmarkBlk` | kern/mm/buddy.c:155-199 | Exactly the one block stops being free; all lists and bitmaps stay in order |
| `Buddy.Allocator.GetBlk` | kern/mm/buddy.c:240-267 | A free block of the order, taken out |
| `Buddy.Allocator.InternalKfree` | kern/mm/buddy.c:271-295 | Exactly the bytes of the block become free, and no two buddies are left free; the panic cannot happen |
| `Buddy.Allocator.InternalKmalloc` | kern/mm/buddy.c:297-326 | Exactly the bytes of a free block of the order are taken, in canonical form; fails exactly when no free block is large enough |
| `Buddy.Allocator.Kmalloc` | kern/mm/buddy.c:329-343 | NULL exactly when no aligned free run of that size exists; otherwise a block disjoint from all others is handed out, at an address that is a multiple of its size from the start of the heap, and the blocks still tile the heap |
| `Buddy.Allocator.Kmfree` | kern/mm/buddy.c:347-357 | A block that was handed out is taken back without a panic and the blocks still tile the heap |
| `Buddy.KmallocKmfree` | kern/mm/buddy.c:329-357 | Handing out a block and taking it back restores the free blocks themselves |
| `Buddy.MarkThreadsExactly` | kern/mm/buddy.c:202-237 | mark_blk of a block keeps its order threaded if and only if its mark is listed already or can be linked in this sense |
| `Buddy.NilMarkIsLost` | kern/mm/buddy.c:202-237 | The failing case: any block of mark 0xFFFF, marked while its order is empty, has its bit set and is on no list |
| `Buddy.Allocator.FirstSplit` | kern/mm/buddy.c:271-326 | The first use of the lowest order: it fails exactly when nothing larger is free; else a block of the next order is split, its upper half is marked, and that mark is all of the order |
| `Buddy.TakeAll` | kern/mm/buddy.c:329-343 | kmalloc(7) until it returns NULL leaves nothing free, and holds blocks of that order only |
| `Buddy.BootRun` | kern/mm/buddy.c:105-357 | A run from buddy_init on the heap given at boot, of calls to kmalloc and kmfree, after which a block of order 6 is marked free and the list of its order is empty |
| `Buddy.BootMarks` | kern/init/main.c:41 | The heap given at boot has more than 0xFFFF marks at order 6 and at most that many at every other order, and block 32 * 0xFFFF of order 6 lies in it |
| `ProcTable.Table.Wakeup1` | kern/sched/proc.cc:496-503 | Exactly the processes asleep on the channel become runnable |
| `ProcTable.Table.PassChildren` | kern/sched/proc.cc:289-298 | The children pass to init, which is woken exactly if one of them is a zombie |
| `ProcTable.Table.Exit` | kern/sched/proc.cc:260-304 | Entry by entry: the process is a zombie and keeps its pid, its children pass to init, those asleep on the parent, and those on init if a child is a zombie, are runnable, and no other field of any entry changes |
| `ProcTable.Table.FindZombie` | kern/sched/proc.cc:317-342 | Finds a zombie child exactly when there is one, and tells whether there is a child at all |
| `ProcTable.Table.FindUnused` | kern/sched/proc.cc:110-116 | Finds an unused entry exactly when there is one |
| `ProcTable.Table.AllocProc` | kern/sched/proc.cc:103-122 | An unused entry becomes an EMBRYO with the pid; nothing else changes |
| `ProcTable.Table.Wait` | kern/sched/proc.cc:308-351 | Reaps a zombie child, freeing its entry and nothing else, reports that there is none to wait for, or goes to sleep, each exactly in its case |
| `ProcTable.Table.Kill` | kern/sched/proc.cc:516-535 | Marks the first entry with the pid, and only that, and makes it runnable if it sleeps; fails exactly when there is none |
| `ProcRuns.StepInv` | kern/sched/proc.cc:212-535 | Every step of fork, exit, wait, the scheduler, sleep, wakeup and kill keeps the invariant of the process table |
| `ProcRuns.RunInv` | kern/sched/proc.cc:212-535 | The invariant holds at every moment of every run |
| `ProcRuns.ProcessTable` | kern/sched/proc.cc:260-535 | In every run: a process asleep in wait has a child and no zombie child, a zombie has a living parent, a process is RUNNING exactly when it is on a CPU, and on one CPU only |
| `ProcRuns.ReapedOnce` | kern/sched/proc.cc:308-351 | In every run no zombie is reaped twice, and only processes that exited are reaped |
| `ProcRuns.NoExitLost` | kern/sched/proc.cc:260-351 | In every run, from its exit on, a process is a zombie exactly as long as wait has not returned its pid |
| `ProcRuns.KilledStays` | kern/sched/proc.cc:516-535 | In every run, from kill on the process is marked until wait frees its entry, and if it slept it is runnable |
| `ProcRuns.ForkExitWait` | kern/sched/proc.cc:212-351 | From every boot there is a run in which init forks and sleeps in wait, the child runs and exits, and wait returns its pid and frees its entry |
| `Pipe.Ring.FullMeansFull` | fs/pipe.c:83-110 | The 32-bit tests for a full and an empty pipe are right although the counters wrap |
| `Pipe.Ring.Write` | fs/pipe.c:79-98 | Done if and only if all bytes fit, and then all are in the pipe and readers are woken; otherwise the pipe is full with the bytes that fitted, in order, and it fails, waking nobody, exactly when killed or without a reader, or sleeps with exactly the other bytes left |
| `Pipe.Ring.Read` | fs/pipe.c:101-121 | Returns if and only if there are bytes or no writer is left, with as many bytes as asked for and there, from the front, and wakes writers; else it fails if killed, or sleeps, and takes nothing |
| `Pipe.Ring.Close` | fs/pipe.c:60-75 | That end is closed and the other is not, the other side is woken, no byte is lost, and the pipe is freed exactly when both ends are closed |
| `Pipe.Fifo` | fs/pipe.c:78-121 | In every interleaving, what was read is a prefix of what was written and the pipe holds the rest in order |
| `Pipe.WriteTakes` | fs/pipe.c:79-98 | A segment of pipewrite takes as many bytes as fit, from the front, and keeps exactly the others |
| `Pipe.ReadTakes` | fs/pipe.c:101-121 | A segment of piperead takes the bytes asked for, or all there are, from the front |
| `Pipe.PutIsSent` | fs/pipe.c:79-98 | In every interleaving, what was written is, of the bytes passed to each segment of pipewrite, those that fit |
| `Pipe.WholeCalls` | fs/pipe.c:79-98 | In every interleaving, what a process has written and what it still has to write in the call it sleeps in are the bytes it passed to its calls, in order, as long as none of them failed |
| `Pipe.StepSound` | fs/pipe.c:59-121 | A step keeps sleeping sound exactly when it is not a pipewrite that leaves by its early exit, having filled the pipe, while a reader sleeps |
| `Pipe.RunSound` | fs/pipe.c:59-121 | In every run without such a step, a sleeping reader means an empty pipe, a sleeping writer a full one, so both never sleep at once |
| `Pipe.LostWakeup` | fs/pipe.c:86-90 | The failing case: a killed writer fills the pipe under a sleeping reader and wakes nobody |
| `SleepLock.Lock.AcquireSleep` | kern/locking/sleeplock.c:23-32 | The lock is taken exactly when it is free; else the caller sleeps, and a sleeper means that the lock is held |
| `SleepLock.Lock.ReleaseSleep` | kern/locking/sleeplock.c:35-42 | Nobody owns the lock and nobody sleeps on it |
| `SleepLock.Lock.HoldingSleep` | kern/locking/sleeplock.c:45-53 | Tells the owner apart from everybody else |
| `PageTable.NewTableOk` | kern/mm/vm.c:34-58 | A new table changes no mapping and keeps every page owned once |
| `PageTable.MapUserOk` | kern/mm/vm.c:63-83 | Mapping a page changes one entry of the flat map and keeps every page owned once |
| `PageTable.MapKernelOk` | kern/mm/vm.c:63-83 | Mapping a kernel page changes one entry of the flat map only |
| `PageTable.UnmapOk` | kern/mm/vm.c:261-286 | Unmapping frees the page of the entry, which the space owned, and changes no other entry |
| `PageTable.DropDirOk` | kern/mm/vm.c:290-306 | Without a directory and its tables all other spaces are in order |
| `Vm.Space.constructor` | kern/mm/vm.c:123-141 | All pages free and none owned is a state in order |
| `Vm.Space.KallocPage` | kern/mm/vm.c:225-254 | A page from the free ones, None exactly when there is none; no mapping changes |
| `Vm.Space.KfreePage` | kern/mm/vm.c:225-254 | A page in hand is free again; no mapping changes |
| `Vm.Space.Walk` | kern/mm/vm.c:34-58 | The table of the address, made only on demand; no mapping changes; fails exactly without memory or without leave to make it |
| `Vm.Space.MapPages` | kern/mm/vm.c:63-83 | Succeeds if and only if no page of the range is mapped and there is a free page for every directory entry that lacks a table; panics only at a page that is mapped; the flat map gains exactly the pages before the stop, nothing else changes but new tables, and the free pages are counted |
| `Vm.KernelView` | kern/mm/vm.c:108-119 | What every space sees above KERNBASE |
| `Vm.KernelTables` | kern/mm/vm.c:108-119 | The kernel mappings need 64 tables, wherever the data of the kernel begin |
| `Vm.Space.SetupKvm` | kern/mm/vm.c:123-141 | A new space with exactly the kernel mappings, which takes 65 pages, or everything as before; it fails if and only if fewer than 65 pages are free, and remap cannot happen |
| `Vm.Space.AllocUvm` | kern/mm/vm.c:225-254 | Exactly the pages that begin in [oldsz, newsz) are added, zeroed, on fresh pages, with the right permissions; where none of them is mapped, it succeeds if and only if the free pages suffice for the new pages and the missing tables, and a failure leaves mappings, owners and contents as they were except for empty tables; it panics if and only if it comes to a mapped page before memory runs out |
| `Vm.PagesExactly` | include/xv6/mmu.h:103 | A page lies below a rounded up size if and only if it begins below the size |
| `Vm.AddedBytes` | kern/mm/vm.c:225-254 | Every byte gained has a page afterwards, if the page in which the memory ended had one |
| `Vm.GrownUndo` | kern/mm/vm.c:225-286 | Deallocating the pages that were added leaves only tables behind |
| `Vm.Space.DeallocUvm` | kern/mm/vm.c:261-286 | Exactly the pages that begin in [newsz, oldsz) are freed, each once, also where whole tables are missing; nothing else changes |
| `Vm.RemovedBytes` | kern/mm/vm.c:261-286 | Every byte kept keeps its page, and the pages beyond that of the last byte kept are gone |
| `Vm.NoTable` | kern/mm/vm.c:273-274 | The skip over a missing table skips only absent pages |
| `Vm.Space.FreeVm` | kern/mm/vm.c:290-306 | Exactly the pages, tables and directory of the space are freed, each once; every other space is untouched |
| `Vm.Space.CopyUvm` | kern/mm/vm.c:322-354 | Where every page that begins below the size is mapped, it succeeds if and only if 65 pages, the user pages and their tables are free; the copy has, for each of these pages, an equal page with equal permissions, on a fresh page of its own, and nothing else but the kernel; a failure restores allocator, owners, contents and mappings; it panics if and only if it comes to a page that is not mapped before memory runs out |
| `Vm.CopySees` | kern/mm/vm.c:322-354 | The image of the copy is the image of the original |
| `Vm.SizedGrows` | kern/mm/vm.c:225-254 | A space mapped exactly below its size is so again after growing |
| `Vm.SizedShrinks` | kern/mm/vm.c:261-286 | And after shrinking |
| `UserHeapSpec.FreedListOk` | lib/ulibc/umalloc.c:25-44 | Freeing keeps the list ascending with no two blocks touching |
| `UserHeapSpec.FreedCovers` | lib/ulibc/umalloc.c:25-44 | Exactly the units of the block become free |
| `UserHeapSpec.FreedLinked` | lib/ulibc/umalloc.c:25-44 | The header writes of free make one cycle through the new list |
| `UserHeapSpec.TakenListOk` | lib/ulibc/umalloc.c:70-88 | Handing out keeps the list ascending with no two blocks touching |
| `UserHeapSpec.TakenCovers` | lib/ulibc/umalloc.c:70-88 | Exactly the units of the tail stop being free |
| `UserHeapSpec.TakenLinked` | lib/ulibc/umalloc.c:70-88 | The header writes of malloc make one cycle through the new list |
| `UserHeap.StopsAtPlace` | lib/ulibc/umalloc.c:30-33 | The test of the search in free holds exactly at the one right block, also at the wrap |
| `UserHeap.PlaceUnique` | lib/ulibc/umalloc.c:30-33 | There is only one such block |
| `UserHeap.UnitsHold` | lib/ulibc/umalloc.c:69 | The units computed are the fewest that hold the bytes asked for if and only if the addition does not wrap; else there is one |
| `UserHeap.SbrkExactly` | kern/syscall/sysproc.c:42-53 | sbrk fails exactly without memory, at KERNBASE, or when the size would become zero; else it returns the old size, and the new size is the sum unless it wraps below zero |
| `UserHeap.CoreObtained` | kern/syscall/sysproc.c:42-53 | When sbrk does not fail, the region that morecore adds was obtained if and only if it is smaller than 2 GiB; else the size reaches the kernel as zero or negative and the process gets no larger |
| `UserHeap.AllScanned` | lib/ulibc/umalloc.c:74-88 | A search that came back to its start has seen every block |
| `UserHeap.Heap.FindPlace` | lib/ulibc/umalloc.c:30-33 | The search ends, at the block after which the new one belongs |
| `UserHeap.Heap.Free` | lib/ulibc/umalloc.c:25-44 | The block changes from allocated to free; the partition of the memory and the cyclic list are kept |
| `UserHeap.Heap.Morecore` | lib/ulibc/umalloc.c:47-61 | New memory that the process really got enters the free list, or sbrk failed and nothing changes, or sbrk returned an address without memory, exactly from 2 GiB on |
| `UserHeap.Heap.Search` | lib/ulibc/umalloc.c:74-88 | The loop finds a block exactly when some free block is large enough, wherever it starts |
| `UserHeap.Heap.Malloc` | lib/ulibc/umalloc.c:64-90 | morecore is called exactly when no free block is large enough, and once; then a block that was free and holds the units asked for is handed out, and allocated and free blocks still partition the memory; it fails exactly when sbrk fails, and goes astray exactly when sbrk returned no memory |
| `FsImage.WordPut` | fs/sfs/fs.c:398-404 | A word stored in an indirect block is read back, and the other words stay |
| `FsImage.BlocksExactly` | fs/sfs/fs.c:495-527 | The blocks counted for a size are those that begin below it |
| `FsImage.OneSlot` | fs/sfs/fs.c:379-449 | In an image in order no two slots refer to the same block |
| `FsImage.UsedHasSlot` | fs/sfs/fs.c:55-98 | In an image in order every used data block is referred to by a slot |
| `FsImage.AssignOk` | fs/sfs/fs.c:379-410 | A new zeroed block in an empty slot keeps ownership exact and changes no other reference |
| `FsImage.WriteOk` | fs/sfs/fs.c:512-519 | Writing a data block changes no reference |
| `FsImage.OthersRead` | fs/sfs/fs.c:495-527 | What leaves the slots and blocks of other files alone leaves their contents alone |
| `FsImage.WriteBelow` | fs/sfs/fs.c:227-242 | Writing an inode block changes no file |
| `Dinodes.InodePut` | include/xv6/fs.h:34-48 | An inode packed into its slot is read back, and its neighbours in the block and all types stay |
| `Dinodes.InodeWords` | include/xv6/fs.h:34-48 | The words of an inode on disk after the first two are its size and then its addresses |
| `FileSystem.Files.Balloc` | fs/sfs/fs.c:55-80 | The first unused block, marked and zeroed, and one unused block less; panics if and only if all are used |
| `FileSystem.Files.Bfree` | fs/sfs/fs.c:83-98 | The block is unused again; needs a used block, or it panics |
| `FileSystem.Files.Iupdate` | fs/sfs/fs.c:227-242 | Size and addresses go into the words of its slot of its block, every other word stays, and the block is logged |
| `FileSystem.FiledPut` | fs/sfs/fs.c:227-242 | After iupdate the inode block holds the inode, and all others as before |
| `FileSystem.AssignCovered` | fs/sfs/fs.c:55-80 | Every block that balloc and the store of the new block number change is logged |
| `FileSystem.Files.Bmap` | fs/sfs/fs.c:379-410 | The block that the slot of the index refers to, made if missing; it panics if and only if fewer unused blocks are left than slots are missing, and takes exactly one for each; ownership stays exact, only the slots on the way change, and every block changed is logged |
| `FileSpec.BlockSlice` | fs/sfs/fs.c:482-488 | Bytes of a file within one block are bytes of the block its slot refers to |
| `FileSpec.PatchStep` | fs/sfs/fs.c:512-519 | One round of the write loop extends the written part of the file, and nothing else in it |
| `FileSpec.SpliceReads` | fs/sfs/fs.c:512-526 | Byte by byte, a write puts the new bytes where they go and keeps the others, and the file ends at the larger of both ends |
| `FileIO.Readi` | fs/sfs/fs.c:465-490 | Exactly the slice of the contents, cut at the end of the file; -1 exactly for a start beyond the end or a sum that wraps; nothing is allocated |
| `FileIO.Writei` | fs/sfs/fs.c:495-527 | The contents are spliced at the offset, other files are untouched, no file has holes, blocks are owned once, the inode block is up to date; -1 exactly in the stated cases, changing nothing; it panics if and only if fewer blocks are unused than the growth takes, the indirect block counted, and else takes exactly those; every block changed is logged, and a bound on the blocks logged |
| `FileIO.ChunkFits` | fs/sfs/file.c:133-152 | A chunk logs at most MAXOPBLOCKS distinct blocks |
| `FileIO.WriteChunk` | fs/sfs/file.c:133-152 | One operation: it logs every block it changes and at most MAXOPBLOCKS blocks, takes exactly the blocks that the growth needs, and the next chunk is in place, or it is -1 and nothing changed, and then the start is beyond the end of the file or the chunk ends beyond the largest file |
| `FileIO.Filewrite` | fs/sfs/file.c:118-156 | After k operations the image is in order and the file holds the first k chunks at the offset; every operation logs every block it changes and at most MAXOPBLOCKS; the offset moves by all chunks that fit the largest file, and by none if it is beyond the end; it panics if and only if the unused blocks do not suffice for those; it is -1 if and only if there are bytes to write and the offset is beyond the end of the file or the write ends beyond the largest file, and else the number of bytes |
| `DiskImage.BytesBack` | include/xv6/fs.h:15-54 | A block written as words is read back byte by byte |
| `DiskImage.BitmapBit` | include/xv6/fs.h:50-54 | The bit of a block in the packed bitmap says whether it is used |
| `DiskImage.UnloggedSame` | fs/sfs/fs.c:55-242 | A block that was not logged is the same on disk before and after an operation |
| `DiskImage.FileBack` | fs/sfs/fs.c:465-490 | Reading the inode and the blocks it names from the disk gives the contents of the file |
| `FileCrash.CrashSettles` | fs/sfs/log.c:125-233 | In every run in which one process performs given operations one after the other, at every moment, during recovery too, what is durable is the state after all operations begun or after all but the last |
| `FileCrash.WriteSurvives` | fs/sfs/file.c:118-156 | filewrite and the log together: stopped at any moment and recovered, the disk holds the image after k chunks, k at least the number of operations that had returned and at most the number begun; the file reads as its first k chunks written, all other files as before |
| `FileCrash.OpsPlaced` | fs/sfs/file.c:118-156 | What filewrite logs are blocks of the disk from the first inode block on, outside the log, and no operation has more than MAXOPBLOCKS |
| `FileCrash.CanPerform` | fs/sfs/log.c:125-233 | Any operations on such blocks have a run in which one process performs all of them, and every one is committed at its end |
| `FileCrash.WriteCompletes` | fs/sfs/file.c:118-156 | filewrite has a run in which every one of its operations is performed and returns, and after it the disk holds the last image |
| `FileTrunc.StillUsed` | fs/sfs/fs.c:424-445 | The panic on freeing a free block cannot happen in itrunc |
| `FileTrunc.Itrunc` | fs/sfs/fs.c:418-449 | All blocks of the file, and only those, are unused again; its slots are empty, its size is 0, the inode block says so, and every block changed is logged |
| `FileTrunc.TruncatedSound` | fs/sfs/fs.c:418-449 | The other files read as before and no file has holes |
| `Mkfs.HeldIs` | tools/mkfs/mkfs.cc:34-36 | The inode blocks hold 208 inodes; from inode 208 on, an inode would lie in the bitmap block and then in data blocks |
| `Mkfs.Builder.constructor` | tools/mkfs/mkfs.cc:107-135 | The layout, and an empty image in order |
| `Mkfs.Builder.Ialloc` | tools/mkfs/mkfs.cc:258-269 | Below inode 208 a new empty file, in its slot of the inode blocks, and the others read as before; inode 208 is written into the bitmap block |
| `Mkfs.Builder.BlockFor` | tools/mkfs/mkfs.cc:301-324 | The block of the index, the next of the image if missing, with exact ownership |
| `Mkfs.Builder.Iappend` | tools/mkfs/mkfs.cc:287-335 | The bytes are appended, the inode blocks say so, the other files are untouched, no holes, and zeros behind the end; it succeeds if and only if the file is not too large and the blocks it takes, the indirect block counted, are left in the image, and takes exactly those |
| `MkfsRuns.BitmapBlock` | tools/mkfs/mkfs.cc:271-285 | Exactly the bits of the used blocks are set |
| `MkfsRuns.InodeKept` | tools/mkfs/mkfs.cc:219-285 | The inode of a file that ialloc wrote is still there after the bitmap was written if and only if its number is not one of 208 to 215 |
| `MkfsRuns.InodeHitsData` | tools/mkfs/mkfs.cc:219-269 | From inode 216 on, ialloc writes over 64 bytes of the file that owns the block, and over nothing else of any file |
| `MkfsRuns.BuildableDown` | tools/mkfs/mkfs.cc:59-203 | A schedule that can be built can be built up to any point |
| `MkfsRuns.RootGrows` | tools/mkfs/mkfs.cc:94-100 | The new size of the root directory leaves no hole if and only if the directory did not fill its last block; then it reads as before with zeros behind |
| `MkfsRuns.RootSizeExactly` | tools/mkfs/mkfs.cc:94-100 | The new size of the root directory is the least number of whole blocks that is more than its size |
| `MkfsRuns.Finish` | tools/mkfs/mkfs.cc:94-102 | The root directory has its new size, the bitmap block is written, and data and inode blocks are as before |
| `MkfsRuns.Build` | tools/mkfs/mkfs.cc:59-203 | Any schedule of allocations and appends to any files completes if and only if it makes fewer than 208 inodes, no file is too large, and the blocks of all files, indirect blocks counted, fit the image; then each file holds its own pieces in order |
| `MkfsRuns.Boot` | fs/sfs/fs.c:295-320 | The kernel finds in the bytes of the image the bitmap and the inodes whose type is not zero |
| `MkfsRuns.ReadBack` | tools/mkfs/mkfs.cc:59-335 | For every schedule, and it completes exactly in that case, readi of each inode gives the pieces appended to it; the root directory is followed by zeros, if it did not fill its last block |
| `Links.Dirlookup` | fs/sfs/fs.c:540-565 | Finds a name, compared up to DIRSIZ, exactly when it is there |
| `Links.SameName` | fs/sfs/fs.c:532-536 | Names are the same if and only if they are equal or agree in their first DIRSIZ characters |
| `Links.Dirlink` | fs/sfs/fs.c:568-596 | Refuses exactly a name that is there; else fills the first empty entry or adds one |
| `Links.PutUnique` | fs/sfs/fs.c:568-596 | Names stay unique up to DIRSIZ |
| `Links.IsDirEmpty` | kern/syscall/sysfile.c:169-181 | Whether nothing but the first two entries is in use |
| `Links.LinkOk` | kern/syscall/sysfile.c:119-165 | A new link keeps every link count equal to the number of entries that name the inode |
| `Links.LinkNames` | kern/syscall/sysfile.c:119-165 | A new link adds one name for one inode and one to its count; every other name, in every directory, names what it named |
| `Links.CreateOk` | kern/syscall/sysfile.c:242-284 | So does creating a file, a device or a directory with its dots |
| `Links.CreateNames` | kern/syscall/sysfile.c:242-284 | Creating adds one inode, of the kind asked for, with one link, and one name for it; a directory has its two dots and counts in its parent; every other name names what it named |
| `Links.UnlinkOk` | kern/syscall/sysfile.c:185-239 | So does unlinking a file or an empty directory, which takes its .. with it |
| `Links.UnlinkNames` | kern/syscall/sysfile.c:185-239 | Unlinking takes one name away, and the counts that go with it; every other name names what it named |
| `Links.NamedOnce` | kern/syscall/sysfile.c:185-239 | An empty directory has one link, the entry in its parent |
| `Links.CanRemove` | kern/syscall/sysfile.c:211-216 | The panic on a count below 1 cannot happen, and the parent of a removed directory stays linked |
| `Links.CreateNeedsLinkedParent` | kern/syscall/sysfile.c:242-284 | Creating anything, a directory too, keeps the tree in order if and only if its directory is still linked, which create does not test |
| `Links.LinkNeedsLinkedParent` | kern/syscall/sysfile.c:119-165 | The same of sys_link |
| `Links.CreateAfterUnlink` | kern/syscall/sysfile.c:185-284 | Such a directory is reached from every tree: mkdir and unlink of a name leave one, and whatever is then created in it puts the tree out of order |
| `Links.FreeOk` | fs/sfs/fs.c:338-360 | Freeing an inode without links leaves no entry in a linked directory that names it |
| `Links.Tree.constructor` | tools/mkfs/mkfs.cc:138-160 | The root directory alone is in order |
| `Links.Tree.Ialloc` | fs/sfs/fs.c:200-221 | The first free inode number; fails exactly when there is none |
| `Links.Tree.Link` | kern/syscall/sysfile.c:119-165 | Succeeds exactly in the stated case; a failure, also after the count was raised, changes nothing; the counts stay right exactly when the directory is still linked |
| `Links.Tree.Unlink` | kern/syscall/sysfile.c:185-239 | Removes exactly the named entry of a file or an empty directory; refuses otherwise, in a removed directory always, and then changes nothing; the counts stay right |
| `Links.Tree.Create` | kern/syscall/sysfile.c:242-284 | Makes the inode and its entry, finds an existing file, or refuses, each exactly in its case; its panics on dirlink cannot happen; the counts stay right exactly when the directory is still linked |
| `Links.Tree.Iput` | fs/sfs/fs.c:338-360 | An inode without links is freed; the counts stay right |
| `Paths.Skipelem` | fs/sfs/fs.c:614-637 | The first name of the path, cut to DIRSIZ, and the rest; None exactly when there is no name |
| `Paths.Namex` | fs/sfs/fs.c:644-681 | Follows the names of the path through the directories, from the root or from the current directory; the parent form gives the directory of the last name, and that name; no such name, and the panic of ilock on an inode without a type, each exactly in its case |
| `Paths.ResolveOne` | fs/sfs/fs.c:650-672 | One name leads from a directory to the inode of its first entry of that name; from anything else, and without such an entry, there is no result |
| `Paths.ResolveAppend` | fs/sfs/fs.c:650-672 | The names of a + b lead where the names of b lead from where those of a lead |
| `Paths.DirOfLast` | fs/sfs/fs.c:650-681 | The parent form leads to where the names before the last lead, if that is a directory |
| `Paths.PanicsExactly` | fs/sfs/fs.c:295-319 | The walk panics if and only if some names before the last lead to an inode that is gone |
| `Paths.ParentThenLast` | fs/sfs/fs.c:644-694 | namei is nameiparent and then a lookup of the last name |
| `Paths.PathsStayLinked` | fs/sfs/fs.c:644-681 | From a linked directory no path panics, and every path leads to live inodes and linked directories only |
| `Paths.SplitJoin` | fs/sfs/fs.c:601-637 | Splitting a path gives the names it was joined from, cut to DIRSIZ, whatever the slashes |
| `Shell.Shell.Peek` | bin/sh/sh.c:311-320 | Whether the next token starts with one of the characters; consumes white space only |
| `Shell.Shell.GetToken` | bin/sh/sh.c:266-308 | The next token of the line, and the cursor behind it |
| `Shell.Shell.ReadRedirs` | bin/sh/sh.c:375-397 | parseredirs agrees, on every line, with the parser on tokens |
| `Shell.Shell.ReadExec` | bin/sh/sh.c:416-446 | parseexec agrees, on every line, with the parser on tokens that is proved to accept exactly the grammar |
| `Shell.Shell.ReadArgs` | bin/sh/sh.c:429-445 | The loop of parseexec agrees with the parser on tokens, also in its limit of words |
| `Shell.Shell.ReadBlock` | bin/sh/sh.c:400-413 | parseblock agrees, on every line, with the parser on tokens |
| `Shell.Shell.ReadPipe` | bin/sh/sh.c:362-372 | parsepipe agrees, on every line, with the parser on tokens |
| `Shell.Shell.ReadLine` | bin/sh/sh.c:345-359 | parseline agrees, on every line, with the parser on tokens, and ends |
| `Shell.Shell.NulTerminate` | bin/sh/sh.c:450-493 | NULs are written exactly at the ends of the words of the tree |
| `Shell.Shell.ReadCmd` | bin/sh/sh.c:328-342 | A tree if and only if the whole line is a command by the grammar, and then the one tree that the grammar gives the line; its words are whole words of the line, and afterwards each reads as exactly its text |
| `Shell.TreeOfWords` | bin/sh/sh.c:266-308 | The words of a tree are whole words of the line |
| `Shell.ReadsAsText` | bin/sh/sh.c:450-493 | No NUL falls inside another word |
| `ShellGrammar.LineBack` | bin/sh/sh.c:344-446 | Parsing the tokens that a tree prints to gives the tree and leaves the rest |
| `ShellGrammar.ExecBack` | bin/sh/sh.c:399-446 | The same for a simple command or a block with redirections |
| `ShellGrammar.PipeBack` | bin/sh/sh.c:361-372 | The same for a pipeline |
| `ShellGrammar.LineSmall` | bin/sh/sh.c:344-446 | Every tree that parses has at most nine words to a command |
| `ShellGrammar.BuildsSmall` | bin/sh/sh.c:344-446 | Some tokens parse to a tree if and only if it has at most nine words to a command |
| `ShellGrammar.ParsePrintParse` | bin/sh/sh.c:344-446 | Whatever parses, printed and parsed again, is the same tree |
| `ShellSyntax.ParsesExactly` | bin/sh/sh.c:344-446 | Parsing accepts some tokens with a tree if and only if the tree is theirs by the grammar, which says where each construct begins and ends, what each word is and how redirections, pipes, lists and background commands nest |
| `ShellSyntax.NoWordLost` | bin/sh/sh.c:344-446 | The arguments of the commands of a tree, and the files of its redirections, are those of the tokens, in order |
| `ShellWords.LineNatural` | bin/sh/sh.c:344-446 | The parser builds the same tree whatever stands for the words |
| `ShellWords.EveryParsed` | bin/sh/sh.c:344-446 | The parser invents no words |
| `ShellRoundTrip.LexBack` | bin/sh/sh.c:266-308 | A line written from tokens is read as those tokens if and only if there is white space between any two words, and between > and a > that follows |
| `ShellRoundTrip.RoundTrip` | bin/sh/sh.c:265-446 | A tree of legal words with at most nine to a command, printed with any white space and with none where tokens stay apart, parses to the same tree |
| `Grep.MatchHere` | bin/grep/grep.c:85-96 | True exactly when the pattern matches a stretch that starts at the place |
| `Grep.MatchStar` | bin/grep/grep.c:99-106 | The same for a pattern that begins with a repetition |
| `Grep.SpellParts` | bin/grep/grep.c:73-96 | Every pattern is spelled by the parts it is read as |
| `Grep.PartsSpell` | bin/grep/grep.c:73-96 | Parts that can be told apart, spelled and read, are the same parts |
| `Grep.Match` | bin/grep/grep.c:73-82 | True exactly when some stretch of the text has the form the pattern means |
| `HeapQueue.PriorityQueue.constructor` | include/klib/queue.h:47-53 | An empty queue in heap order |
| `HeapQueue.PriorityQueue.Top` | include/klib/queue.h:85-89 | An element that is below no other |
| `HeapQueue.PriorityQueue.Push` | include/klib/queue.h:123-148 | One element more, and heap order |
| `HeapQueue.PriorityQueue.Pop` | include/klib/queue.h:91-121 | The top element less, and heap order; nothing on an empty queue |
| `HeapQueue.UpStep` | include/klib/queue.h:135-147 | One swap of the sift up |
| `HeapQueue.DownStep` | include/klib/queue.h:104-120 | One swap of the sift down |
| `HeapQueue.TopIsMax` | include/klib/queue.h:85-89 | In heap order the first slot is below no other |
| `HeapQueue.Drain` | include/klib/queue.h:91-121 | Popping until empty gives the contents, largest first |
| `HeapQueue.SortAll` | include/klib/queue.h:91-148 | Pushing everything and popping until empty sorts, for every strict weak order |

## Left out

- Devices, interrupts, boot and assembly: the disk is the memory disk of `drivers/ide/memide.c`.
- Spinlocks and memory order: acquire and release are taken to make critical sections atomic.
- `buddy_kmalloc2` and `buddy_kmfree2`: the first calls itself through kmalloc without end.
- Buddy.Allocator.Kmfree: takes only blocks that were handed out, because the double-free test looks at one order only.
- Buddy.Allocator.constructor: needs at most 0xFFFF marks at the lowest order in use; what happens beyond is stated for any one call of mark_blk, by `Buddy.MarkThreadsExactly`, and for one run from boot, by `Buddy.BootRun`.
- BufferCache.Cache.Bget: running out of buffers is a result, not excluded, because NBUF equals LOGSIZE.
- Log.Log.Commit: is one call during which no other process holds the log or a logged block; other interleavings with its writes are steps of `LogRuns`.
- LogRuns.GroupCommit: an operation's block contents are given when it logs them; reading before writing is not modelled.
- Pipe.WholeCalls: speaks of processes none of whose calls failed; what a failing call put into the pipe is stated by `Pipe.PutIsSent`.
- ProcRuns.ReapedOnce: the pid counter is unbounded; in C its overflow after 2147483647 forks is undefined.
- The killed flag of a new process: nothing is claimed, because kill of pid 0 sets it in unused entries.
- fork's copy of files and memory, sys_sleep, and growproc down to size 0.
- Vm.Space.AllocUvm: when memory runs out and some page of the range was mapped already, deallocuvm frees that page too; then only that the tables and owners are in order is stated.
- `uva2ka`, `copyout`, `loaduvm`, `exec`: they depend on ELF files and on an unchecked entry pointer.
- UserHeap.Heap.Free: takes only blocks that malloc handed out, as the source demands.
- UserHeap.Heap.Malloc: the process gives no memory back with sbrk, and after a header was written where sbrk returned no memory nothing is stated.
- FileSystem.Files.Balloc: the bits of the bitmap are booleans; how they are packed on disk is stated by `DiskImage.BitmapBit`.
- FileSystem.Files.Iupdate: the type, the device numbers and the link count of an inode are not changed by it here; they are treated in `Links`.
- FileIO.Readi: the branch for device files is not modelled.
- FileIO.Writei: the branch for device files is not modelled.
- FileIO.Filewrite: other processes that write the same file between two chunks are not modelled.
- FileCrash.WriteSurvives: the process is the only one that logs; with others, what is durable is stated by `LogRuns.GroupCommit`.
- Mkfs.Builder.Ialloc: from inode 208 on only the write itself is stated, for the later ones by `MkfsRuns.InodeHitsData`; a run ends at 208.
- Links.Tree.Create: is one atomic step from the lookup of the directory on; names are stored as they are compared, and directories that outgrow the largest file are not modelled.
- Links.Tree.Link: is one atomic step, although sys_link unlocks the inode after it raised the count and before dirlink, so that another process can see the count without the entry; both paths are on one device.
- Links.Tree.Unlink: is one atomic step from the lookup of the directory on; a path is given by what it resolves to.
- Paths.Namex: other processes that change directories during the walk are not modelled.
- Inode cache, file table and reference counts (iget, idup, filealloc, filedup, fileclose): the model keeps every inode in memory, so none is evicted, and iput is the call that drops the last reference.
- Shell.Shell.ReadRedirs: redirections are collected in a list and wrapped around the command, where the source wraps as it goes.
- Running commands in the shell, grep's line buffering, `include/klib/vector.h`, console, printf, the other programs and the build tools.
- Integer widths other than those named in a contract: link counts, offsets and sizes are unbounded there.
