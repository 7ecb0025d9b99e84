# Verified models of xv6 and of a parallel merge sort

This project models the parts of the xv6 kernel that keep an invariant over whole runs, two user-level
pieces of xv6 (the allocator and the shell's parser), and the merge sort of `parallel-sort`.

* **Log and buffer cache** (`log.c`, `bio.c`). `LogFormat` gives the on-disk log and what a disk recovers to.
  `BufferLog` is one transition system of cache, log, commit, crash and recovery, with any number of clients
  whose bget, acquiresleep, bread, log_write and brelse steps interleave; a crash may follow any block write.
  `BufferLogInvariant` and `BufferLogCommit` prove the invariant step by step, and `BufferLogRefinement` proves
  that the whole refines a plain block store with atomic durable commits. `BufferLogProgress` proves that every
  commit and recovery can be finished, in how many steps, and that nothing logged is left behind. `RedoLog` is
  log.c as a class that records every bwrite, and `BufferCache` is the linked ring of bio.c.
* **Files** (`fs.c`). `InodeFormat` (bitmap bits and little-endian block numbers), `BlockOwnership` (who owns
  which block) and `FileSystem` (balloc, bfree, bmap, readi, writei, itrunc as a class).
* **Names** (`fs.c`, `sysfile.c`). `Names`: directories, link counts, what each name leads to, and the freeing of
  inodes over every sequence of create, link, unlink, open and close.
* **Allocator** (`umalloc.c`). `Malloc`: section 8.7 of The C Programming Language, 2nd ed.
* **Page tables** (`vm.c`, `kalloc.c`). `PageTable` and `Vm`: the two-level tables of section 4.3, 32-bit
  paging, Intel SDM Vol. 3A, with frame ownership, growth, copying and rollback.
* **Processes** (`proc.c`, `sleeplock.c`, `pipe.c`). `ProcTable`, `SleepLock` and `Pipe`: interleaved steps of
  any number of processes.
* **Shell parser** (`sh.c`). `ShellGrammar` (the parser over tokens and a printer), `ShellText` (characters,
  NUL termination, the round trip) and `ShellParser` (the code).
* **Merge sort** (`mergesort.c`). `MergeSort` (the serial sorts), `ParallelMerge` (the fork/join merge under
  every schedule) and `ParallelSort` (the fork/join sort and the threaded copy, under every schedule).

Transition systems are written as `Enabled`/`Apply` with an invariant kept by every step and lemmas over all
runs. Code that updates things in place is a class or an array method whose contract ties the new state to a
specification; the properties are proved about that specification.

Properties that a reader might expect and that the code does not have are stated with a counterexample and
with the exact condition under which they hold:

* With the log area that mkfs lays out (30 blocks, one of them the header), three admitted operations run into
  the "too big a transaction" panic within their reservations (`RedoLog.MkfsLogTooSmall`). With any area, a write
  that would only be absorbed panics in a full log, because the size test comes first
  (`RedoLog.AbsorbedWritePanics`). `BufferLogRefinement.PanicExactly` says when the test fails in any run.
* A reader of a pipe can be left asleep beside a full pipe by a killed process that abandons a long write
  (`Pipe.ReaderLeftAsleep`, `Pipe.ReadersExactly`).
* A new process can be killed from birth: kill(0) marks the first unused slot, and fork does not clear the mark
  (`ProcTable.BornKilled`); a process counts as killed exactly if kill has hit its slot since the slot was last
  reaped (`ProcTable.KilledExactly`).
* create and link keep the link counts right exactly in directories that are still linked themselves
  (`Names.CreateExactly`, `Names.LinkExactly`); every mkdir can lead to a directory that is not
  (`Names.RemovedHeld`, `Names.RemovedDirectoryBreaks`).
* The parallel merge is sorted exactly if no split misplaces an element (`ParallelMerge.ParMergeExactly`), the
  parallel sort exactly if no split goes wrong between the halves' sorted forms (`ParallelSort.ParSortExactly`).
  An input that is strictly sorted already stays so exactly if it has at most 33 elements
  (`ParallelSort.SortedInputExactly`).
* `compare_elem` has the right sign exactly if the difference of the keys is an int (`MergeSort.CompareExactly`).
* malloc's rounding holds the request exactly if it does not wrap (`Malloc.EnoughUnits`), and morecore asks for
  the memory it needs exactly below 2 GB (`Malloc.SbrkExactly`).

## Model

| member | source | states |
|---|---|---|
| LogFormat.HeaderRoundTrip | xv6/base/log.c:85-113 | reading the header that write_head wrote gives back the block list, whatever else the block held |
| LogFormat.InstalledAt | xv6/base/log.c:69-82 | a completed install leaves every block either untouched or equal to its log copy |
| LogFormat.DurableDetermined | xv6/base/log.c:69-82 | what a disk recovers to depends only on the header, the listed copies and the home blocks it does not name |
| LogFormat.CommitDisk | xv6/base/log.c:99-113 | with all copies in place, writing the header makes the disk recover to the new contents |
| LogFormat.InstallDisk | xv6/base/log.c:69-82 | overwriting a home block that the header names does not change what the disk recovers to |
| BufferLogInvariant.ReserveMore | xv6/base/log.c:125-141 | the admission test of begin_op leaves room for MAXOPBLOCKS more blocks on top of everything promised |
| BufferLogInvariant.BreadCurrent | xv6/base/bio.c:96-106 | a block that is read from disk is current, because newer contents are pinned in the cache |
| BufferLogCommit.LogWriteInv | xv6/base/log.c:213-233 | log_write keeps the whole invariant, absorbing or adding an entry within the reservation |
| BufferLogCommit.LoadHeadInv | xv6/base/log.c:85-96 | the header read at boot names exactly the blocks in which the disk differs from what it recovers to |
| BufferLogCommit.BwriteCopy | xv6/base/log.c:176-190 | a write into the log area changes nothing about what the disk recovers to |
| BufferLogCommit.BwriteCommit | xv6/base/log.c:192-202 | the header write is the commit point: from it on the disk recovers to the current contents |
| BufferLogCommit.BwriteHome | xv6/base/log.c:69-82 | a write of the install loop leaves what the disk recovers to alone, at every position of the loop |
| BufferLogCommit.BwriteErase | xv6/base/log.c:192-202 | dropping the log after the install leaves what the disk recovers to alone |
| BufferLogCommit.BootInv | xv6/base/log.c:53-66 | a machine booted on any disk with a sound header satisfies the invariant |
| BufferLogRefinement.StepInv | xv6/base/log.c:115-233 | every step of clients, commit code, recovery and crash keeps the invariant |
| BufferLogRefinement.StepRefines | xv6/base/log.c:115-233 | every step is a step of the plain store: a write, a commit of everything, a loss of the uncommitted, or nothing |
| BufferLogRefinement.SystemRefinesStore | xv6/base/log.c:115-233 | every run from power-on, with crashes and recoveries anywhere, behaves like the plain block store |
| BufferLogRefinement.BreadReturnsLatest | xv6/base/bio.c:96-106 | in every run, a client that holds a read buffer sees the last logged contents of the block, through any evictions |
| BufferLogRefinement.CleanEqualsDisk | xv6/base/bio.c:61-116 | in every run, a clean, valid, unlocked buffer equals the disk |
| BufferLogRefinement.PinnedHere | xv6/base/log.c:213-233 | in every run, each logged and not yet installed block has a buffer, only one, and it is dirty |
| BufferLogRefinement.RecoveryCompletes | xv6/base/log.c:115-122 | recovery, cut short by crashes any number of times, ends with the home blocks that the first crash left recoverable |
| BufferLogRefinement.DurableIsLastCommit | xv6/base/log.c:192-202 | what is durable is the view at the last commit, never a mixture |
| BufferLogRefinement.CrashAtomicity | xv6/base/log.c:69-202 | after any run, a crash at any point and any recovery, the home blocks are those of the last commit before the crash, or the initial ones |
| BufferLogRefinement.ReservationsFit | xv6/base/log.c:125-174 | in every run, entries plus unspent reservations fit LOGSIZE, entries are distinct, committing excludes outstanding operations, and end_op never finds a commit in progress |
| BufferLogRefinement.PanicExactly | xv6/base/log.c:213-233 | in every run, an outstanding operation meets the size panic exactly if the log is full; never within its reservation if the area holds LOGSIZE copies |
| BufferLogRefinement.AbsorbedPanics | xv6/base/log.c:213-233 | writing a block that is listed already panics exactly if the log is full, though it needs no entry |
| BufferLogProgress.QuietIsDurable | xv6/base/log.c:143-202 | in every run, once no operation is outstanding and the commit is over, the log is empty and everything logged is in its home block and survives a crash |
| BufferLogProgress.LeftExactly | xv6/base/log.c:143-202 | the last end_op starts a commit of 2n + 5 steps for n blocks, every step of the commit code leaves one less, and only at zero is committing clear |
| BufferLogProgress.CommitCompletes | xv6/base/log.c:69-202 | from every reachable point of a commit or recovery at which no buffer is in use, a run leads to its end with everything home, if there is one buffer more than blocks are pinned |
| BufferLogProgress.OutstandingExactly | xv6/base/log.c:125-174 | in every run exactly the operations between their begin_op and their end_op are outstanding |
| BufferLogProgress.AdmitsThree | xv6/base/log.c:125-141 | with an empty log exactly three operations are admitted at a time |
| BufferLogProgress.WriteBecomesDurable | xv6/base/log.c:125-233 | from every reachable quiet moment a client can write any home block with any contents, and its commit leaves exactly that change on the disk |
| RedoLog.Log.constructor | xv6/base/log.c:53-66 | a booted log on a given disk with nothing in memory |
| RedoLog.Log.WriteLog | xv6/base/log.c:176-190 | the copies are in place and the disk recovers to the old state after every single write |
| RedoLog.Log.WriteHead | xv6/base/log.c:99-113 | one write, which puts the in-memory header on disk |
| RedoLog.Log.InstallTrans | xv6/base/log.c:69-82 | every listed block is home, and the disk recovers to the same state after every single write |
| RedoLog.Log.Erase | xv6/base/log.c:192-202 | the header is emptied without changing what the disk recovers to |
| RedoLog.Log.Commit | xv6/base/log.c:192-202 | at every write of a commit the disk recovers to the state before or after it, with one switch, and ends with everything home |
| RedoLog.Log.ReadHead | xv6/base/log.c:85-96 | the in-memory header equals the one on disk |
| RedoLog.Log.RecoverFromLog | xv6/base/log.c:115-122 | the home blocks are what the disk recovered to, the log is empty, and every intermediate disk recovers to the same state |
| RedoLog.Log.BeginOp | xv6/base/log.c:125-141 | admits exactly if no commit runs and one more operation of MAXOPBLOCKS still fits; then all admitted operations together fit the log, and its area if that holds LOGSIZE copies |
| RedoLog.Log.FindEntry | xv6/base/log.c:213-233 | the first entry for the block, or the end of the list |
| RedoLog.Log.LogWrite | xv6/base/log.c:213-233 | panics exactly in the two cases of the source; otherwise pins the contents and lists the block once |
| RedoLog.Log.EndOp | xv6/base/log.c:143-174 | the last operation out commits the group, and at every write the disk recovers to the state before or after it; the committing panic needs committing set |
| RedoLog.MkfsLogTooSmall | xv6/base/mkfs.c:25 | on the image of mkfs three operations are admitted, 29 blocks are logged, and the thirtieth, within the reservation, panics |
| RedoLog.AbsorbedWritePanics | xv6/base/log.c:217-218 | with a log area of 40 blocks three full operations fill the log, and one more write of a listed block panics |
| RedoLog.LogAll | xv6/base/log.c:213-233 | any list of blocks that fits behind the entries is logged without a panic, each block once |
| BufferCache.Cache.constructor | xv6/base/bio.c:38-56 | all buffers are in one ring, the last one first |
| BufferCache.Cache.FindCached | xv6/base/bio.c:61-76 | the buffer with the key if there is one, else none |
| BufferCache.Cache.FindVictim | xv6/base/bio.c:78-91 | the least recently released buffer that is unreferenced and clean, if any |
| BufferCache.Cache.Bget | xv6/base/bio.c:61-93 | the cached buffer with one more reference, or the least recently released usable one recycled, or a panic; nothing else changes |
| BufferCache.Cache.Brelse | xv6/base/bio.c:120-141 | drops a reference; the last one moves the buffer to the front of the ring |
| BufferCache.Cache.Unlink | xv6/base/bio.c:132-133 | the ring without the buffer, in the same order |
| BufferCache.Cache.PushFront | xv6/base/bio.c:134-137 | the ring with the buffer in front |
| BufferCache.Cache.MoveToFront | xv6/base/bio.c:130-138 | unlinking and inserting leaves a ring with the buffer first and the others in order |
| BufferCache.ToFrontRecency | xv6/base/bio.c:120-141 | the ring stays sorted by time of release |
| InodeFormat.EntryRoundTrip | xv6/base/fs.c:372-400 | an entry written into an indirect block reads back, and no other entry changes |
| InodeFormat.WithBitUsed | xv6/base/fs.c:56-95 | setting or clearing one mask bit changes the state of exactly one block |
| BlockOwnership.AllocateOwned | xv6/base/fs.c:56-78 | giving a free block to an empty slot keeps the ownership invariant and all data |
| BlockOwnership.FreeOwned | xv6/base/fs.c:81-95 | freeing an owned block keeps the ownership invariant for everything else |
| BlockOwnership.FreeOrOwnedOnce | xv6/base/fs.c:56-95 | each block outside the metadata is free, or is stored in exactly one slot of one inode |
| BlockOwnership.SameFileContent | xv6/base/fs.c:452-511 | an inode whose block numbers and blocks are untouched has the same bytes |
| FileSystem.WriteSettles | xv6/base/fs.c:481-511 | writing a range replaces exactly those bytes, extends the size, leaves every other file alone, and keeps the file free of holes |
| FileSystem.FileSys.constructor | xv6/base/mkfs.c:237-251 | exactly the blocks before the data are marked used, every file is empty, and the invariant holds |
| FileSystem.FileSys.FindFree | xv6/base/fs.c:56-78 | the first clear bit, or none if every block is used |
| FileSystem.FileSys.Balloc | xv6/base/fs.c:56-78 | marks and zeroes the first free block; fails exactly on a full disk |
| FileSystem.FileSys.Bfree | xv6/base/fs.c:81-95 | clears one bit; the panic happens exactly for a free block |
| FileSystem.FileSys.Bmap | xv6/base/fs.c:372-400 | the block of an index, allocated on demand, with nothing that was there moved; fails if and only if the index is out of range or fewer blocks are free than are missing |
| FileSystem.FileSys.BmapIndirect | xv6/base/fs.c:385-397 | the same through the indirect block, which may be the second block that is missing |
| FileSystem.FileSys.ReadLoop | xv6/base/fs.c:468-475 | the bytes of the range, with no allocation |
| FileSystem.FileSys.Readi | xv6/base/fs.c:452-476 | the slice of the file cut at its size, or -1 past the end and on wrap-around |
| FileSystem.FileSys.WriteLoop | xv6/base/fs.c:497-504 | after each turn a prefix of the source is in place and all else is unchanged |
| FileSystem.FileSys.Writei | xv6/base/fs.c:481-511 | replaces exactly the range, extends the size, keeps all other files and the agreement of disk and memory inode, with the three -1 cases |
| FileSystem.FileSys.FreeDirects | xv6/base/fs.c:413-418 | the direct blocks are freed once each |
| FileSystem.FileSys.FreeIndirect | xv6/base/fs.c:420-430 | the indirect entries and the indirect block are freed once each |
| FileSystem.FileSys.Itrunc | xv6/base/fs.c:407-435 | exactly the blocks of the file become free, the panic is unreachable, and other files are untouched |
| Names.ImageInv | xv6/base/mkfs.c:68-168 | the image with a root directory satisfies the invariant |
| Names.NoDangling | xv6/base/sysfile.c:184-283 | no entry of a linked directory names a free inode |
| Names.KeyExactly | xv6/base/fs.c:516-520 | strncmp over DIRSIZ characters finds no difference exactly between names with the same key |
| Names.LinkInv | xv6/base/sysfile.c:118-165 | link keeps counts, names and tree |
| Names.CreateInv | xv6/base/sysfile.c:241-283 | create of a file or directory keeps counts, names and tree |
| Names.UnlinkInv | xv6/base/sysfile.c:184-239 | unlink keeps counts, names and tree, and the nlink panic is unreachable |
| Names.DropInv | xv6/base/fs.c:331-352 | iput frees an inode only when nothing names it |
| Names.CreateExactly | xv6/base/sysfile.c:241-283 | create, of a file or a directory, keeps the invariant and the link counts if and only if its directory is linked |
| Names.LinkExactly | xv6/base/sysfile.c:118-165 | link keeps the invariant and the link counts if and only if its directory is linked |
| Names.RemovedHeld | xv6/base/sysfile.c:184-283 | every mkdir can be followed by an unlink that leaves a directory removed and held, in a run that keeps the invariant |
| Names.RemovedDirectoryBreaks | xv6/base/sysfile.c:118-283 | a run from a fresh image after which create, mkdir and link each leave a wrong link count |
| Names.CreateMeans | xv6/base/sysfile.c:241-283 | the new name leads to a new inode of the kind asked for with one link and one reference, a directory has its dots and counts in its parent, and every other name and inode is as it was |
| Names.LinkMeans | xv6/base/sysfile.c:118-165 | the new name leads to the inode, which has one more link; every other name and inode is as it was |
| Names.UnlinkMeans | xv6/base/sysfile.c:184-239 | exactly the one name is gone; the inode loses a link and is freed exactly with its last one if nobody holds it |
| Names.LinkCountsCorrect | xv6/base/sysfile.c:118-283 | in every run nlink counts the links, names in a directory are distinct, and no link dangles |
| Names.NameSpace.constructor | xv6/base/mkfs.c:68-168 | a file system with the root directory only |
| Names.NameSpace.DirLookup | xv6/base/fs.c:524-548 | the first slot with the name, or none if no slot has it |
| Names.NameSpace.DirLink | xv6/base/fs.c:551-578 | the first empty slot is filled, or -1 if the name is taken |
| Names.NameSpace.IsDirEmpty | xv6/base/sysfile.c:168-181 | true exactly if only the dots are left |
| Names.NameSpace.FindFree | xv6/base/fs.c:194-214 | the first free inode, or none |
| Names.NameSpace.Iget | xv6/base/fs.c:241-272 | one more reference |
| Names.NameSpace.SysCreate | xv6/base/sysfile.c:241-283 | the existing file for O_CREATE, an error for any other existing name, else the first free inode, of the kind asked for, under the new name and nothing else changed; in any directory, and the invariant is lost exactly by a new inode in a removed one |
| Names.NameSpace.SysLink | xv6/base/sysfile.c:118-165 | the new name leads to the inode, which has one more link, or no change at all on an error; the invariant is lost exactly by a new entry in a removed directory |
| Names.NameSpace.SysUnlink | xv6/base/sysfile.c:184-239 | in any directory, exactly the name is gone and the counts follow; -1 for dots, missing names and directories that are not empty |
| Names.NameSpace.Iput | xv6/base/fs.c:331-352 | drops a reference and frees the inode if it was the last and no link is left |
| Malloc.SplitTiled | xv6/base/umalloc.c:78-82 | cutting a block in two keeps the tiling of the heap |
| Malloc.MergeTiled | xv6/base/umalloc.c:33-42 | joining two neighbours keeps the tiling |
| Malloc.GapExists | xv6/base/umalloc.c:30-32 | there is a place in the ring where the search loop of free stops |
| Malloc.GapOnly | xv6/base/umalloc.c:30-32 | the exit tests of the search hold there and nowhere else |
| Malloc.FreeInv | xv6/base/umalloc.c:24-44 | free keeps the ring ascending and coalesced and gives back exactly the block |
| Malloc.TakeInv | xv6/base/umalloc.c:74-85 | unlinking an exact fit keeps the heap invariant |
| Malloc.CarveInv | xv6/base/umalloc.c:78-82 | cutting the tail off a free block keeps the heap invariant |
| Malloc.EnoughUnits | xv6/base/umalloc.c:69 | the units after the header hold the request exactly if the rounding does not wrap |
| Malloc.SbrkExactly | xv6/base/umalloc.c:52-55 | the argument of sbrk is the number of bytes needed exactly below 2 GB; above, the process does not grow and sbrk still answers with an address |
| Malloc.Heap.constructor | xv6/base/umalloc.c:21-22 | an allocator that has not been called yet |
| Malloc.Heap.FindPlace | xv6/base/umalloc.c:30-32 | the ring element behind which the block belongs; the search terminates |
| Malloc.Heap.Free | xv6/base/umalloc.c:24-44 | the block is free, no other held block changes, and the ring stays ordered with no two free blocks touching |
| Malloc.Heap.Morecore | xv6/base/umalloc.c:46-61 | at least MIN_CORE new units are free, or no change if sbrk fails |
| Malloc.Heap.Take | xv6/base/umalloc.c:75-85 | n units of a free block become held |
| Malloc.Heap.Init | xv6/base/umalloc.c:70-73 | a ring of base alone |
| Malloc.Heap.Search | xv6/base/umalloc.c:74-89 | a fitting block with its predecessor, or none in the whole ring |
| Malloc.Heap.Malloc | xv6/base/umalloc.c:63-90 | a block of exactly the units asked for that overlaps no held block, or 0 after at most one request for memory and only if nothing fits and sbrk fails |
| PageTable.FreedPool | xv6/base/kalloc.c:59-77 | pushing a frame keeps the free list linked and free of duplicates |
| PageTable.TakenPool | xv6/base/kalloc.c:82-95 | popping a frame keeps the free list linked and free of duplicates |
| PageTable.WithTableOk | xv6/base/vm.c:35-55 | a new table keeps every frame of the address space its own and conserves frames |
| PageTable.WithTableEntries | xv6/base/vm.c:35-55 | a new table changes no translation |
| PageTable.MappedOk | xv6/base/vm.c:60-80 | mapping a page keeps every frame the space's own, and takes over exactly the frame mapped |
| PageTable.WithLeafEntries | xv6/base/vm.c:60-80 | writing one entry changes the translation of one page |
| PageTable.UnmappedOk | xv6/base/vm.c:265-277 | freeing a page and clearing its entry conserves frames and keeps the space sound |
| Vm.Machine.constructor | xv6/base/kalloc.c:31-37 | an empty free list |
| Vm.Machine.Kfree | xv6/base/kalloc.c:59-77 | the frame is on the list |
| Vm.Machine.Kalloc | xv6/base/kalloc.c:82-95 | the first frame of the list, or none exactly if it is empty |
| Vm.Machine.FreeRange | xv6/base/kalloc.c:46-53 | exactly the frames of the range are added to the free list |
| Vm.Machine.WalkPgdir | xv6/base/vm.c:35-55 | the table of a page; translations and data are untouched, and with alloc it fails only without memory |
| Vm.Machine.MapPages | xv6/base/vm.c:60-80 | exactly the pages asked for are mapped, or a prefix of them; it fails if and only if fewer frames are free than tables are missing; data and other spaces are untouched |
| Vm.Machine.DeallocUvm | xv6/base/vm.c:255-279 | the pages of the range are unmapped, frames are conserved, nothing else changes, and memory and free list are what a page-by-page loop without the jump would leave |
| Vm.NoTableNoPages | xv6/base/vm.c:266-268 | the jump to the next directory entry skips no mapped page |
| Vm.SweptSkip | xv6/base/vm.c:266-268 | jumping over unmapped pages ends where the page-by-page loop ends |
| Vm.DeallocFrees | xv6/base/vm.c:255-279 | the frames freed are exactly those of the mapped pages in the range |
| Vm.Machine.FreeVm | xv6/base/vm.c:283-298 | every user page, table and the directory is on the free list, once, and nothing else changes |
| Vm.Machine.SetupKvm | xv6/base/vm.c:103-136 | a directory with exactly the kernel's mappings, made of free frames; fails if and only if fewer than 65 frames are free, and then all frames are back |
| Vm.Machine.AllocUvm | xv6/base/vm.c:221-249 | all or nothing: the new pages are mapped to zeroed frames, or mappings and data are what they were and frames are conserved; it fails for want of memory if and only if fewer frames are free than new pages and missing tables |
| Vm.OnlyTablesRemain | xv6/base/vm.c:221-249 | after a failed growth a frame that was free is free again or is a page table |
| Vm.Machine.CopyUvm | xv6/base/vm.c:315-345 | the child has the parent's pages with equal flags and bytes on frames of its own; fails if and only if the frames for the kernel's tables, the pages and their tables are not free, and then every frame is back; the parent is untouched |
| SleepLock.StepInv | xv6/base/sleeplock.c:22-42 | every step of every process keeps the protocol's invariant |
| SleepLock.MutualExclusion | xv6/base/sleeplock.c:22-42 | in every run at most one process holds the sleep-lock, and pid names it |
| SleepLock.NoLostWakeup | xv6/base/proc.c:417-474 | in every run with kills, when both the inner lock and the sleep-lock are free nobody sleeps on it or is about to |
| SleepLock.StageExactly | xv6/base/sleeplock.c:22-42 | acquiresleep returns only with the lock held and stamped, through any wakeups and kills, and releasesleep only after it |
| SleepLock.HoldingExactly | xv6/base/sleeplock.c:44-53 | in every run, with the spinlock free, locked and pid tell exactly whether a process holds the lock, and pid is 0 when nobody does |
| SleepLock.KillWakes | xv6/base/proc.c:487-489 | a killed sleeper is awake, and nothing else changes |
| SleepLock.NobodyStuck | xv6/base/sleeplock.c:22-42 | from every reachable state a run leads to all processes through both calls and the lock free |
| ProcTable.ExitInv | xv6/base/proc.c:227-268 | exit keeps the process tree: every child has a live parent, and no parent sleeps beside a zombie |
| ProcTable.StepInv | xv6/base/proc.c:74-312 | every critical section keeps the invariant |
| ProcTable.LifeExactly | xv6/base/proc.c:74-497 | every critical section does to each process exactly what its life prescribes: who moves to which state, who is woken, reparented, marked or cleared |
| ProcTable.TreeInvariant | xv6/base/proc.c:74-312 | in every run live processes have live parents, live pids are distinct, and nobody sleeps in wait beside a zombie child |
| ProcTable.WaitsForSomeone | xv6/base/proc.c:272-312 | in every run a process asleep in wait has a child that is still alive |
| ProcTable.KillWakes | xv6/base/proc.c:479-497 | the victim of a kill is marked, not asleep, and can be scheduled at once if it slept |
| ProcTable.KilledNeverWaits | xv6/base/proc.c:302-310 | from a kill until it is reaped, a process is never asleep in wait and cannot fall asleep there |
| ProcTable.KilledExactly | xv6/base/proc.c:272-312 | in every run a process is marked exactly if kill has hit its slot since it was last reaped |
| ProcTable.BornKilled | xv6/base/proc.c:479-497 | a run in which fork makes a process that is already killed |
| ProcTable.SleepWakeup | xv6/base/proc.c:417-474 | after sleep and wakeup the process runs on unchanged, and exactly the sleepers of the channel are awake |
| ProcTable.ForkExitWait | xv6/base/proc.c:179-312 | fork, exit of the child and wait: wait returns the pid that fork gave out, and the table is what it was |
| ProcTable.ReturnedOnce | xv6/base/proc.c:272-312 | no pid is returned by two waits |
| ProcTable.Ptable.constructor | xv6/base/proc.c:120-154 | the table with the first process |
| ProcTable.Ptable.Wakeup1 | xv6/base/proc.c:456-465 | exactly the processes sleeping on the channel become runnable |
| ProcTable.Ptable.AllocProc | xv6/base/proc.c:73-92 | the first unused slot becomes an embryo with the next pid, or none if there is none |
| ProcTable.Ptable.Exit | xv6/base/proc.c:227-268 | the children go to init, the parent and init are woken as needed, and the process is a zombie |
| ProcTable.Ptable.Wait | xv6/base/proc.c:272-312 | the first zombie child is reaped; without one, -1 exactly if there are no children or the process is killed, else a sleep |
| ProcTable.Ptable.Kill | xv6/base/proc.c:479-497 | the first process with the pid is marked, and runnable if it was asleep, and no other process changes; or -1 |
| Pipe.StoreContent | xv6/base/pipe.c:79-98 | storing a byte appends it to the bytes in flight, across wrap-around of the counters |
| Pipe.FetchContent | xv6/base/pipe.c:101-121 | fetching a byte takes the oldest one |
| Pipe.StepInv | xv6/base/pipe.c:59-121 | every step keeps the FIFO and the writers' condition |
| Pipe.WriteOutcome | xv6/base/pipe.c:78-98 | a write appends what fits; it returns the count exactly if all fits, else sleeps exactly if a reader is there and it is not killed, else fails |
| Pipe.ReadOutcome | xv6/base/pipe.c:100-121 | a read sleeps exactly on an empty pipe with a writer, fails there if killed, and otherwise takes the oldest bytes, as many as there are up to n |
| Pipe.SleepersExactly | xv6/base/pipe.c:59-121 | after a step exactly those sleep who have just gone to sleep or slept before and were neither woken nor killed |
| Pipe.ReadersExactly | xv6/base/pipe.c:78-98 | the readers' condition is kept by a step if and only if no killed process abandons a long write beside a sleeping reader |
| Pipe.PipeCorrect | xv6/base/pipe.c:59-121 | in every run bytes read are a prefix of bytes stored, at most PIPESIZE are in flight, and sleepers have a reason |
| Pipe.EndsExactly | xv6/base/pipe.c:59-75 | in every run an end is open exactly until it is closed |
| Pipe.EndOfFile | xv6/base/pipe.c:100-121 | once the write end is closed a read neither sleeps nor fails, returns 0 at the end, and can take everything ever stored |
| Pipe.BrokenPipe | xv6/base/pipe.c:78-98 | once the read end is closed a write never sleeps and fails exactly if it does not fit |
| Pipe.ReaderLeftAsleep | xv6/base/pipe.c:78-98 | a run that leaves a reader asleep beside a full pipe |
| Pipe.PipeBuf.constructor | xv6/base/pipe.c:22-57 | an empty pipe with both ends open |
| Pipe.PipeBuf.StoreLoop | xv6/base/pipe.c:83-95 | stores bytes up to a full ring |
| Pipe.PipeBuf.PipeWrite | xv6/base/pipe.c:78-98 | one stretch of a write does what the step says, errors included |
| Pipe.PipeBuf.FetchLoop | xv6/base/pipe.c:113-117 | takes bytes up to an empty ring |
| Pipe.PipeBuf.PipeRead | xv6/base/pipe.c:100-121 | one stretch of a read does what the step says |
| Pipe.PipeBuf.PipeClose | xv6/base/pipe.c:59-75 | exactly the end is closed and exactly the other side woken; the pipe is freed with its second end |
| ShellGrammar.PrintParse | xv6/base/sh.c:344-446 | parsing the printed tokens of any command gives the command back with nothing left over |
| ShellGrammar.RedirsExactly | xv6/base/sh.c:374-397 | exactly the complete redirections at the front are taken, in order, as input only after <; it panics only in front of a symbol without a file |
| ShellGrammar.SimpleExactly | xv6/base/sh.c:415-446 | of any simple command the arguments are the words that follow no redirection symbol and the files those that do; it panics exactly for a symbol without a file, a parenthesis or too many arguments |
| ShellGrammar.ParensNeeded | xv6/base/sh.c:361-446 | a command of a lower level is only read after an opening parenthesis, so the printed parentheses are needed |
| ShellGrammar.LinePrintable | xv6/base/sh.c:344-446 | every command the parser returns can be printed and parsed again to the same command |
| ShellGrammar.LineMap | xv6/base/sh.c:344-446 | the parser does not look into words |
| ShellText.ParsedWordsOk | xv6/base/sh.c:344-446 | the words of a parsed command are words of the input |
| ShellText.LexOk | xv6/base/sh.c:265-308 | every word has no delimiter inside and a delimiter or the end behind it |
| ShellText.NulledAt | xv6/base/sh.c:448-493 | nulterminate overwrites exactly the stored end pointers |
| ShellText.TerminationIsSafe | xv6/base/sh.c:415-493 | after any parse every end pointer addresses a delimiter or the final NUL, and every word reads exactly as parsed |
| ShellText.LexRender | xv6/base/sh.c:265-308 | scanning printed text gives the printed tokens |
| ShellText.RoundTrip | xv6/base/sh.c:265-446 | printing a command to text and parsing the text gives back the same command |
| ShellText.AcceptedRoundTrip | xv6/base/sh.c:265-446 | every line that the shell accepts can be printed and parsed again, to the same command |
| ShellParser.GetToken | xv6/base/sh.c:265-308 | takes the first token off the text |
| ShellParser.Peek | xv6/base/sh.c:310-320 | looks at the next character that is not white space |
| ShellParser.ParseRedirs | xv6/base/sh.c:374-397 | the redirections at the front, or the panic for a missing file; terminates |
| ShellParser.ParseExec | xv6/base/sh.c:415-446 | parses what the grammar says, panics exactly where it does, and terminates |
| ShellParser.ParseArgs | xv6/base/sh.c:429-445 | the argument loop, with its limit and its panics |
| ShellParser.ParseBlock | xv6/base/sh.c:399-413 | a parenthesised line with its redirections |
| ShellParser.ParsePipe | xv6/base/sh.c:361-372 | a pipeline |
| ShellParser.ParseLine | xv6/base/sh.c:344-359 | a line |
| ShellParser.NulTerminate | xv6/base/sh.c:448-493 | the buffer with a NUL at every stored end pointer |
| ShellParser.ParseCmd | xv6/base/sh.c:327-342 | the command of the buffer's text or a panic for leftovers; on success every word can be read as a C string |
| MergeSort.CompareExactly | parallel-sort/mergesort.c:40-42 | the comparison has the right sign if and only if the difference of the keys is an int |
| MergeSort.SortsAgree | parallel-sort/mergesort.c:353-374 | two stable sortings of the same records are the same array |
| MergeSort.SMergeStable | parallel-sort/mergesort.c:141-181 | merging two stably sorted runs gives a stable sorting of both |
| MergeSort.MSortStable | parallel-sort/mergesort.c:353-361 | merge sort sorts stably |
| MergeSort.ISortStable | parallel-sort/mergesort.c:118-129 | insertion sort sorts stably |
| MergeSort.BSortStable | parallel-sort/mergesort.c:363-374 | bubble sort sorts stably |
| MergeSort.SerialSortsAgree | parallel-sort/mergesort.c:353-374 | the three serial sorts leave identical arrays, duplicates included |
| MergeSort.InsertAt | parallel-sort/mergesort.c:120-128 | one turn of insertion sort puts an element into its place and touches nothing else |
| MergeSort.InsertionSort | parallel-sort/mergesort.c:118-129 | the range is replaced by its insertion sorting |
| MergeSort.BubbleSort | parallel-sort/mergesort.c:363-374 | the array is replaced by its bubble sorting |
| MergeSort.MergeLoop | parallel-sort/mergesort.c:156-180 | the merge of two runs is written to the destination and nothing else changes |
| MergeSort.MergeSerial | parallel-sort/mergesort.c:140-181 | the two adjacent ranges are replaced by their merge |
| MergeSort.MergeSortSerial | parallel-sort/mergesort.c:353-361 | the range is replaced by its merge sorting |
| ParallelMerge.SearchSplits | parallel-sort/mergesort.c:221-232 | everything before the split point is smaller; everything from it on is not, provided the last element is not |
| ParallelMerge.SearchCapped | parallel-sort/mergesort.c:221-232 | if all elements are smaller than the pivot the answer is the last of them, not one past it |
| ParallelMerge.ParMergeKeeps | parallel-sort/mergesort.c:234-275 | the parallel merge permutes both ranges, on every input |
| ParallelMerge.ParMergeExactly | parallel-sort/mergesort.c:234-275 | its result is ordered if and only if both ranges are and no split lies wholly below its pivot |
| ParallelMerge.ScheduleStores | parallel-sort/mergesort.c:234-275 | under every interleaving the threads store each element of the merge once, in its place |
| ParallelMerge.EveryScheduleMerges | parallel-sort/mergesort.c:234-275 | under every interleaving exactly the output range ends up holding the merge |
| ParallelMerge.NoRace | parallel-sort/mergesort.c:234-275 | no two stores of a merge touch the same cell |
| ParallelMerge.FindSplitPoint | parallel-sort/mergesort.c:221-232 | the binary search with its upper end inside the range |
| ParallelMerge.MergeParallelAux | parallel-sort/mergesort.c:234-275 | the output range holds the parallel merge and nothing else changes; terminates by total length |
| ParallelSort.ParSortKeeps | parallel-sort/mergesort.c:301-346 | the parallel sort permutes its input, on every input |
| ParallelSort.ParSortExactly | parallel-sort/mergesort.c:301-346 | its result is ordered if and only if, at every level, no split goes wrong in merging the merge-sorted halves |
| ParallelSort.ShortIsSorted | parallel-sort/mergesort.c:301-346 | up to 32 elements are always sorted |
| ParallelSort.RunsFail | parallel-sort/mergesort.c:221-275 | merging a run with one of about the same length that lies above it always meets a wrong split, if both are longer than 16 |
| ParallelSort.SortedInputExactly | parallel-sort/mergesort.c:301-346 | a strictly sorted input comes out sorted if and only if it has at most 33 elements |
| ParallelSort.OrderedKeys | parallel-sort/mergesort.c:301-346 | two ordered arrangements of the same records have the same keys in the same places |
| ParallelSort.SplitsKeys | parallel-sort/mergesort.c:221-275 | whether the splits of a merge go wrong depends on the keys only |
| ParallelSort.EveryCopyCopies | parallel-sort/mergesort.c:76-116 | under every interleaving of the copying threads each cell is stored once and the array is copied |
| ParallelSort.ChunkOf | parallel-sort/mergesort.c:85-104 | the j-th thread stores exactly the j-th chunk, and the caller the rest |
| ParallelSort.HalvesApart | parallel-sort/mergesort.c:322-325 | however the stores of the two sorting threads interleave, each half ends as its thread alone would leave it |
| ParallelSort.EveryScheduleSorts | parallel-sort/mergesort.c:301-346 | under every interleaving of all stores of the whole recursion the range ends up holding the parallel sorting, and nothing outside is stored |
| ParallelSort.SomeExecution | parallel-sort/mergesort.c:301-346 | every input has an execution |
| ParallelSort.CopyArrParallel | parallel-sort/mergesort.c:76-116 | the chunks and the remainder together copy the whole array |
| ParallelSort.MergeParallel | parallel-sort/mergesort.c:277-299 | the range is replaced by the parallel merge of its two parts |
| ParallelSort.MergeSortThreaded | parallel-sort/mergesort.c:301-346 | the range is replaced by its parallel sorting |

## Left out

- The other programs of the repository: the UDP file server, the Linux shell, the xv6 patches, and xv6's devices, boot code, console, exec and user utilities.
- Spinlocks are atomic steps; their memory-model detail is not modelled. A disk read or write is one atomic step.
- The log and the cache are one device. Block contents are opaque except for the log header; the lock of a buffer is modelled as free or held by one session, its internals only in SleepLock.
- BufferLog and RedoLog take a client's changes to a buffer as one step; operations are assumed to add at most MAXOPBLOCKS new blocks each.
- The inode layer works on blocks directly, not through the cache and the log; the layout of inodes inside inode blocks, device inodes, ilock and the inode cache's eviction are not modelled.
- Directories in Names are sequences of entries, not file bytes; a system call is one atomic operation; path walking is a parameter; the 16-bit range of nlink is not modelled.
- FileSystem.FileSys.constructor: gives an empty image; it does not model the files that mkfs copies, nor the hole that mkfs can leave in the root directory.
- Malloc.Heap.Malloc: the answer of sbrk is a parameter; an address answered to a request of 2 GB or more, for which SbrkExactly shows that no memory was granted, is excluded; addresses are counted in headers.
- ProcTable: memory and files of a process are not modelled; nextpid is unbounded.
- SleepLock: one sleep-lock at a time; that the scheduler is fair is not assumed, so progress is stated as a possibility.
- Pipe: a step lasts from taking the lock to the next sleep or return; sleeping and waking are not split further as in SleepLock.
- Vm: loaduvm, inituvm, clearpteu, uva2ka, copyout and the hardware registers are not modelled; addresses that the loops step through are counted in pages; a panic is a precondition.
- Vm.Machine.DeallocUvm: sizes up to KERNBASE, the largest that any caller passes; above it lie the kernel's own mappings, which belong to no process.
- Vm.Machine.Kalloc: includes the fill of the page that every caller makes right after it.
- ShellParser.ParseExec: the exec node, which the source fills in place after redirections were wrapped around it, is put together at the end.
- ParallelMerge.MergeParallelAux: runs the spawned thread to its end before the caller's half; that the order does not matter is EveryScheduleMerges.
- ParallelSort.CopyArrParallel: runs the copying threads one after the other; that the order does not matter is EveryCopyCopies.
- ParallelSort.MergeSortThreaded: sorts the two halves one after the other; that the order does not matter is EveryScheduleSorts. The number of processors is a parameter.
- MergeSort: indices are unbounded integers; thread creation and memory allocation do not fail.
