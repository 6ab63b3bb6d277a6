# A verified model of the xv6 kernel

This project models the core of an x86 xv6 kernel with five scheduling policies, and three of its
user programs, in Dafny. It proves what the code keeps over every run: exactly when the file system
log is crash safe, exact ownership of disk blocks and of physical pages, conservation in the user-level
allocator, the process life cycle, link counts, pipes, path lookup, and the meaning of the shell
parser and of the pattern matcher. Crash safety of the file system on top of the log is proved under
a further condition on a run: the log writes of each group between two commits amount to a sequence
of fs.c operations (`CrashConsistency.Faithful`).

Each source file keeps its own form. Code that changes things in place is a class or a method over
arrays and fields, proved against a function or a relation; what the source promises is then proved
about that function or relation. Locks turn critical sections into atomic steps, so concurrent code
is also given as a state machine with theorems over all its runs: `LogMachine`, `PipeProtocol`,
`ProcProtocol`, `Links` and the operations of `FileRuns`. The contracts of the methods say that they
perform its steps; for the log the map from the code's memory to the machine and the step of each
routine are in `LogRefinement`.

| file | models |
|---|---|
| `Blocks.dfy`, `Basics.dfy`, `Wrappers.dfy` | disk blocks as words and bytes; powers of two, sequences and sets; optional values |
| `LogFormat.dfy`, `LogMachine.dfy`, `LogOverflow.dfy` | log.c: the writes of commit and recovery, all interleavings with crashes, runs that outgrow the log region |
| `LogRoutines.dfy`, `LogRefinement.dfy`, `Log.dfy` | what each routine of log.c does to cache and disk, its step in the machine, the code |
| `BufferCache.dfy`, `BufferUse.dfy` | bio.c and the disk of memide.c; who holds and pins buffers |
| `FileLayout.dfy`, `BlockOwnership.dfy`, `FileContents.dfy`, `FileWrites.dfy`, `FileFrees.dfy`, `FileOperations.dfy`, `FileSystem.dfy`, `FileRuns.dfy` | fs.c blocks, inodes and file contents; filewrite of file.c |
| `CrashConsistency.dfy` | log.c under fs.c: what a crash leaves of the file system when transactions are made of fs.c operations |
| `Directories.dfy`, `Paths.dfy`, `Links.dfy` | directories and paths of fs.c, link counts of sysfile.c |
| `PageTables.dfy`, `VirtualMemory.dfy` | vm.c and kalloc.c |
| `ProcProtocol.dfy`, `ProcHistory.dfy`, `ProcTable.dfy`, `Scheduler.dfy`, `Random.dfy` | proc.c |
| `Pipe.dfy` | pipe.c |
| `Malloc.dfy` | umalloc.c |
| `ShellSyntax.dfy`, `ShellGrammar.dfy`, `ShellParser.dfy` | the language of sh.c, the functions its parser computes, and the parser |
| `Grep.dfy` | the matcher of grep.c |

Properties that turned out false of the code are stated as such, with the exact condition:

- The log is crash safe for operations that keep to MAXOPBLOCKS new blocks each exactly when its
  region is not tight (`LogOverflow.CrashSafeIff`): tight means 2 to LOGSIZE blocks on a disk with as
  many blocks outside, as mkfs makes it. `log_write` tests its guard before it takes the lock, so two
  calls can both pass it and both append (`LogOverflow.OutgrownRun`, `LogOverflow.OutgrowsIff`);
  `write_log` then overwrites the block behind the region (`LogOverflow.SpilledRun`). Every run in
  which no append of a new block comes too late for its guard is crash safe
  (`LogMachine.CrashSafety`), and with more than LOGSIZE blocks none does
  (`LogMachine.PromisedCrashSafety`).
- When operations keep their promise, `log_write` panics exactly when at its guard the list holds
  LOGSIZE blocks or all but one block of the region (`LogMachine.LogWritePanicsIff`). With a tight
  region this stops a promised new block (`LogOverflow.PromisedRunCanPanic`). With a larger region it
  stops only a block that is listed already, after every reservation is used up
  (`LogMachine.NewBlockFits`, `LogOverflow.AbsorbedWriteCanPanic`).
- A sleeping reader waits on an empty pipe after every step except exactly those where a writer
  meets a full pipe and gives up (`PipeProtocol.ReadersWaitIff`, `PipeProtocol.KilledWriterStrandsReader`).
- Creating a file or a directory, or linking a file, keeps all link counts exactly when the directory
  that gets the name is still linked (`Links.CreateIff`, `Links.LinkIff`); a removed directory that a
  process still holds is reached by mkdir and unlink (`Links.CreateInRemoved`).
- A process is born killed exactly when some `kill` hit the slot it takes and no `wait` reaped the
  slot since (`ProcProtocol.BornKilledIff`). On an unused slot the pid of such a `kill` is 0 or the pid
  of a fork that failed there (`ProcProtocol.FlaggedUnused`), and both happen
  (`ProcProtocol.FirstChildBornKilled`, `ProcProtocol.StalePidBornKilled`).

## Model

| member | source | states |
|---|---|---|
| `LogFormat.RecoveredIsClean` | log.c:115-122 | after recovery the header is empty and the rest of the log region is untouched |
| `LogFormat.RecoverIsIdempotent` | log.c:69-122 | recovery cut short after any number of block writes and run again ends on the same disk |
| `LogFormat.RecoverClean` | log.c:115-122 | recovering a disk with an empty log changes no block but the header |
| `LogFormat.CommitWrites` | log.c:176-202 | a commit issues 2n+2 block writes, none for an empty batch, all in range |
| `LogFormat.CrashBeforeHeader` | log.c:176-197 | a commit cut before its header write has no effect after recovery |
| `LogFormat.CrashAfterHeader` | log.c:192-202 | a commit cut anywhere from its header write on takes full effect after recovery |
| `LogFormat.HeaderWritten` | log.c:98-113 | at the commit point the log holds the whole batch and no home block has changed |
| `LogMachine.BootEstablishes` | log.c:53-66 | power-on with any well-formed disk establishes the invariants |
| `LogMachine.StepKeeps` | log.c:125-174 | every step of every process, every block write and every crash keep the invariants, as long as an append of a new block finds the guard of its log_write still false |
| `LogMachine.CrashSafety` | log.c:69-122 | over all runs with crashes anywhere, also inside recovery, in which appends come in time: recovery yields whole committed groups in order, no operation is split, every acknowledged group is among them |
| `LogMachine.PromisedCrashSafety` | log.c:125-233 | with a region above LOGSIZE blocks that holds of every run whose operations keep to MAXOPBLOCKS new blocks, however their log_writes interleave |
| `LogMachine.Durability` | log.c:145-202 | committed groups stay committed in every later state |
| `LogMachine.EndOpReturnsDurably` | log.c:165-173 | in every timely run, when the last end_op of a group returns, its group is on the disk |
| `LogMachine.RecoveryYieldsCommitted` | log.c:115-122 | in every state that satisfies the invariants, recovering the disk gives exactly the committed groups |
| `LogMachine.ReservationsFit` | log.c:125-141 | if operations keep to MAXOPBLOCKS new blocks, logged blocks plus unused reservations never exceed LOGSIZE |
| `LogMachine.LogWritePanicsIff` | log.c:218-219 | over every run that keeps the promise, log_write panics exactly when at its guard LOGSIZE blocks are listed or all but one block of the region; at LOGSIZE the block is listed already and no reservation is left |
| `LogMachine.NewBlockFits` | log.c:218-226 | with a region above LOGSIZE blocks it panics exactly when LOGSIZE blocks are listed, so never on a new block, and no append comes too late |
| `LogOverflow.PromisedRunCanPanic` | log.c:218-219 | with a region of at most LOGSIZE blocks a promised run reaches the panic on a new block |
| `LogOverflow.AbsorbedWriteCanPanic` | log.c:218-226 | with a larger region a promised run reaches it on a block listed already |
| `LogOverflow.OutgrownRun` | log.c:218-230 | with a tight region two log_writes of promised operations both pass the guard and both append: the list is as long as the region |
| `LogOverflow.SpilledRun` | log.c:178-190 | the commit of that list writes the block behind the region, which recovery keeps although no commit gave it those contents |
| `LogOverflow.LooseIsTimely` | log.c:125-233 | in every layout that is not tight, appends of promised operations come in time |
| `LogOverflow.OutgrowsIff` | log.c:218-230 | some promised run lists more blocks than the region holds if and only if the layout is tight |
| `LogOverflow.CrashSafeIff` | log.c:69-233 | recovery yields the committed groups in every state of every promised run if and only if the layout is not tight |
| `LogMachine.NoLostWakeup` | log.c:125-174 | whoever sleeps in begin_op still has to wait, a commit runs with no open operation, an idle log has no sleepers and nothing logged |
| `LogRefinement.BeginShows` | log.c:129-140 | one pass of begin_op is the machine's BeginOp: it enters exactly when the machine need not wait |
| `LogRefinement.CheckShows` | log.c:218-221 | the guard of log_write, outside the lock, is the machine's Check, with the same panics |
| `LogRefinement.AppendShows` | log.c:223-232 | the rest of log_write, under the lock, is the machine's Append of what the block holds in the cache |
| `LogRefinement.EndOpShows` | log.c:150-163 | end_op of an operation that is not the last is the machine's EndOp |
| `LogRefinement.CommitShows` | log.c:146-202 | the last end_op is the machine's EndOp, its block writes and FinishCommit; cut short by a panic it leaves the machine's disk after as many writes |
| `LogRefinement.CommitFits` | log.c:192-202 | in every state that satisfies the machine's invariants, the log on disk is empty and the listed blocks fit when the last operation ends |
| `LogRefinement.RecoverShows` | log.c:53-122 | recovery at boot is the machine's, from power-on to its end |
| `LogRoutines.LogOne` | log.c:182-189 | a round of write_log writes the next log block and leaves the home block pinned |
| `LogRoutines.InstallOne` | log.c:74-81 | a round of install_trans writes the next home block, keeps the log region, and changes no contents that were logged |
| `LogRoutines.ListedLeaveRoom` | log.c:231 | with fewer listed blocks than buffers and nothing else in use, a buffer is spare for the commit |
| `LogRoutines.AlwaysPinned` | log.c:213-233 | however processes read, change, log and release blocks, all listed blocks are pinned, so a commit needs only a spare buffer |
| `LogRoutines.BufStepPins` | bio.c:95-141 | bread, a change of data and brelse keep the listed blocks pinned |
| `LogRoutines.PinnedNow` | log.c:224-231 | log_write leaves every listed block pinned |
| `BufferUse.GivesBack` | bio.c:58-141 | a routine that releases what it took leaves locks held by others, spare buffers and other pins as they were |
| `Log.LogState.constructor` | log.c:53-66 | the in-memory log before recovery |
| `Log.LogState.CopyBlock` | log.c:75-80 | one round of write_log or install_trans: one block write, the buffers of other processes untouched; no panic with a spare buffer and the home block pinned |
| `Log.LogState.InstallTrans` | log.c:69-82 | issues exactly the home writes of the logged blocks, or a prefix and a panic; no panic with the listed blocks pinned and one buffer spare |
| `Log.LogState.ReadHead` | log.c:85-96 | the list in memory becomes the list on disk |
| `Log.LogState.WriteHead` | log.c:101-113 | one block write puts the list in memory into the header block; panics only without a spare buffer |
| `Log.LogState.RecoverFromLog` | log.c:115-122 | issues exactly the recovery writes, or a prefix and a panic; no panic on a fresh cache |
| `Log.LogState.BeginOp` | log.c:125-141 | enters exactly when no commit runs and the reservation fits |
| `Log.LogState.EndOp` | log.c:145-174 | the last operation issues exactly the commit writes, then wakes the sleepers; others only wake them |
| `Log.LogState.WriteLog` | log.c:176-190 | issues exactly the log-region writes of the newest contents, or a prefix and a panic; no panic with the listed blocks pinned and one buffer spare |
| `Log.LogState.Commit` | log.c:192-202 | issues exactly the commit writes in order and changes no contents, or a prefix and a panic; never "no buffers" with the listed blocks pinned and one buffer spare, whatever other processes hold |
| `Log.LogState.LogCheck` | log.c:218-221 | panics exactly under its guards and changes nothing |
| `Log.LogState.LogAppend` | log.c:223-232 | lists the block once and pins the buffer; writes past the array exactly when a new block finds it full |
| `Log.LogState.Absorb` | log.c:224-230 | a block already listed is not listed again |
| `BufferCache.Cache.constructor` | bio.c:38-56 | a circular list of all buffers, all idle |
| `BufferCache.Cache.Bget` | bio.c:61-93 | the one buffer of the block, or the least recently used idle clean one recycled; panics exactly when all are in use; the newest contents of every block are unchanged |
| `BufferCache.Cache.Bread` | bio.c:96-106 | a locked buffer holding the newest contents of its block, its own or one that was idle; every other buffer unchanged; panics only when the block is not cached and all buffers are in use |
| `BufferCache.Cache.Bwrite` | bio.c:108-116 | exactly one block write of the buffer's contents |
| `BufferCache.Cache.Brelse` | bio.c:118-141 | releases, and moves a buffer nobody waits for to the front of the list |
| `BufferCache.Cache.Iderw` | memide.c:38-60 | writes a dirty buffer or fills an invalid one; panics exactly under its guards |
| `BufferCache.ViewRecycle` | bio.c:78-90 | recycling a clean idle buffer loses nothing |
| `BufferCache.ViewLoad` | bio.c:101-105 | reading a block in does not change what is newest |
| `BufferCache.ViewStore` | bio.c:109-116 | writing a buffer back does not change what is newest |
| `BufferCache.ViewChange` | bio.c:96-106 | changing a held buffer changes the newest contents of its block and of no other |
| `BufferCache.UnlinkedIsLinked` | bio.c:132-133 | unlinking keeps a circular doubly linked list of the others in order |
| `BufferCache.PushedIsLinked` | bio.c:134-137 | linking at the head keeps the list circular with the buffer first |
| `BufferCache.MovedFrontIs` | bio.c:130-138 | most-recently-used order: the released buffer first, the others in their old order |
| `FileLayout.PutBitMeans` | fs.c:66-68 | changing one bit of a bitmap block changes that bit only |
| `FileLayout.PutDinodeReads` | fs.c:220-236 | an inode written to its block reads back, and its neighbours are untouched |
| `BlockOwnership.AllocedKeeps` | fs.c:56-78 | an allocated block belonged to nobody and is no metadata |
| `BlockOwnership.SlotStepKeeps` | fs.c:378-397 | filling a direct, indirect or table slot keeps exact ownership |
| `BlockOwnership.BmapKeeps` | fs.c:372-400 | bmap keeps exact ownership for every block number, so no two files share a block |
| `FileContents.MappedImage` | fs.c:372-400 | bmap changes no byte the file already has |
| `FileContents.WriteStepKeeps` | fs.c:498-504 | one round of the write loop replaces exactly its bytes, keeps ownership and leaves no hole |
| `FileContents.UpdatedKeeps` | fs.c:220-236 | iupdate makes ownership hold for the inode table on disk |
| `FileContents.OtherFile` | fs.c:481-511 | files other than the one written keep every byte |
| `FileWrites.ChunkFitsTransaction` | file.c:133-152 | a filewrite chunk touches at most 7 distinct blocks at any offset, below MAXOPBLOCKS |
| `FileWrites.LogRound` | fs.c:498-504 | a round of writei keeps every changed block and every data block so far in the log set, and adds nothing else but bitmap and address blocks |
| `FileFrees.FreeStep` | fs.c:414-431 | every block itrunc frees has its bit set when freed |
| `FileFrees.FreedKeeps` | fs.c:407-435 | after itrunc ownership holds without the file, and other files keep their blocks |
| `FileOperations.WritesWriting` | fs.c:498-504 | any number of rounds of the write loop keep ownership and replace exactly the bytes written so far |
| `FileOperations.WriteKeeps` | fs.c:481-511 | the whole of writei takes a consistent disk to a consistent one with the file patched |
| `FileOperations.TruncateKeeps` | fs.c:407-435 | the frees of itrunc in order, then iupdate, keep ownership without the file's blocks |
| `FileOperations.DescribeKeeps` | fs.c:220-236 | changing device numbers or the link count keeps ownership |
| `FileOperations.OperationKeeps` | fs.c:194-511 | each operation, given by the blocks it changes, takes a consistent disk to a consistent one |
| `FileSystem.Fs.Balloc` | fs.c:56-78 | the first free block, marked and zeroed; panics exactly when none is free |
| `FileSystem.Fs.Bfree` | fs.c:81-95 | clears the bit and logs its block; panics exactly when it is clear already |
| `FileSystem.Fs.Bmap` | fs.c:372-400 | the address of the block, allocating at most the table and the block; every block it changes is logged; panics only out of range or out of blocks |
| `FileSystem.Fs.Iupdate` | fs.c:220-236 | the in-memory inode replaces the one in its inode block, which is logged |
| `FileSystem.Fs.Readi` | fs.c:452-476 | the bytes of the file from the offset on, across block boundaries, without allocating |
| `FileSystem.Fs.Writei` | fs.c:481-511 | the file becomes old prefix, source, old tail; no other field of the inode and no other file changes; ownership and the no-holes rule kept; every block it changes is logged, and at most 7 per chunk; panics only when no block is free |
| `FileSystem.Fs.Itrunc` | fs.c:407-435 | gives back every block and never meets the panic for freeing a free block; every block it changes is logged |
| `FileSystem.Fs.Ialloc` | fs.c:194-214 | the first free inode becomes an empty one of the given type, nothing else changes, and the block that changes is logged |
| `FileSystem.Fs.FreeInode` | fs.c:331-345 | the last iput of an unlinked inode empties it, frees its number and changes no other field; every block it changes is logged |
| `FileSystem.Fs.Filewrite` | file.c:126-154 | all of it is written, as one write, exactly when it starts inside the file and ends below the largest size; otherwise the whole chunks that fit are written and -1 is returned; each transaction logs every block it changes, and at most 7 |
| `FileSystem.WriteDoneTwice` | file.c:135-152 | consecutive chunk writes amount to one write of the concatenation |
| `FileRuns.OwnedOnce` | fs.c:56-95 | a bit is set exactly for metadata and for blocks held by one slot of one inode |
| `FileRuns.FormattedInv` | mkfs.c:94-111 | an image with exactly the metadata bits set and no inode in use satisfies the invariants |
| `FileRuns.ChainKeeps` | fs.c:194-511 | any sequence of operations from a consistent disk stays consistent |
| `FileRuns.ReachableDisk` | fs.c:194-511 | after every sequence of writes, truncations, allocations, releases and inode updates from a formatted disk the bitmap is exact and no block is held twice |
| `CrashConsistency.InvHome` | fs.c:56-95 | ownership and the no-holes rule do not depend on the log region |
| `CrashConsistency.Installed` | log.c:192-202 | the committed history grows only at the header write, to the contents the cache had when the commit began |
| `CrashConsistency.GroupStarts` | log.c:125-174 | every open group began in a state with no operation open and no commit running |
| `CrashConsistency.AlwaysGood` | log.c:125-202 | if the log writes of each group amount to fs.c operations, every commit begins with a consistent file system in the cache and on the disk |
| `CrashConsistency.OperationRun` | log.c:125-233 | every fs.c operation that changes at most MAXOPBLOCKS blocks has a run that meets the condition, its one group taking the cache from before the operation to after it |
| `CrashConsistency.PromisedLeavesConsistent` | log.c:69-233 | with a region above LOGSIZE blocks and promised operations, timeliness need not be assumed |
| `CrashConsistency.CrashLeavesConsistent` | log.c:69-202 | under that condition, and with appends in time, a crash at any moment of any run followed by recovery leaves a consistent file system: exact bitmap, blocks owned once, no holes |
| `Directories.Namecmp` | fs.c:516-520 | compares names cut to DIRSIZ characters |
| `Directories.AsMapIs` | fs.c:524-548 | the map of a directory has exactly the names of its used slots |
| `Directories.Dirlookup` | fs.c:524-548 | finds the inode number the directory maps the cut name to, and the offset of its entry |
| `Directories.Dirlink` | fs.c:552-578 | adds one binding to the map, fails exactly when the name is bound, panics exactly when a directory of the largest size has no free slot, grows only when no slot is free |
| `Directories.Direrase` | sysfile.c:218-220 | clearing an entry removes exactly its name from the map |
| `Directories.Isdirempty` | sysfile.c:168-181 | true exactly when the map binds nothing but the two dots |
| `Directories.LinkKeeps` | fs.c:564-577 | writing an unused slot adds the name and keeps names unique |
| `Directories.EraseKeeps` | sysfile.c:218-220 | zeroing a slot removes its name and keeps names unique |
| `Paths.Skipelem` | fs.c:595-618 | skips the slashes, takes the whole name, cut to 14 characters, and stops at the next one; finds none exactly when only slashes are left |
| `Paths.NamesJoined` | fs.c:583-594 | splitting a path made of good names gives the names back |
| `Paths.NamesSpelled` | fs.c:583-618 | a path splits into exactly the names it spells, for any number of slashes before, between and behind names of any length |
| `Paths.Icache.Iget` | fs.c:241-272 | one more reference to the inode, cached in one slot only; panics exactly when it is not cached and no slot is free |
| `Paths.Icache.Idup` | fs.c:276-283 | one more reference |
| `Paths.Icache.Iput` | fs.c:349-351 | one reference less |
| `Paths.TargetStep` | fs.c:634-651 | one name of a path is one lookup, then the rest of the path |
| `Paths.Icache.Namex` | fs.c:624-657 | the result is the fold of lookup over the names, or the directory holding the last one; exactly one reference gained on it and none on failure |
| `Links.CreatedKeeps` | sysfile.c:241-283 | create and mkdir keep every link count exact |
| `Links.CreateIff` | sysfile.c:260-278 | creating a file or a directory keeps the counts exact if and only if its parent is still linked |
| `Links.CreateInRemoved` | sysfile.c:241-283 | mkdir and unlink reach a removed directory in which creating a file or a directory breaks a count |
| `Links.LinkIff` | sysfile.c:140-151 | linking a file keeps the counts exact if and only if the directory is still linked |
| `Links.LinkedKeeps` | sysfile.c:140-151 | link keeps every count exact |
| `Links.UnlinkTarget` | sysfile.c:207-212 | the unlinked inode exists and has a link, so unlink does not panic |
| `Links.EmptyDirCount` | sysfile.c:213-228 | an empty directory has exactly one link |
| `Links.ParentCount` | sysfile.c:221-224 | a directory with a linked subdirectory has two links or more |
| `Links.UnlinkedKeeps` | sysfile.c:184-239 | unlink of files and empty directories keeps every count exact |
| `Links.FreedKeeps` | fs.c:335-346 | freeing an inode without links keeps every count exact |
| `Links.CountsHold` | sysfile.c:118-283 | after every run in which only linked directories get new names, each count is the number of entries other than "." naming the inode from linked directories |
| `Links.Tree.SysLink` | sysfile.c:118-165 | 0 exactly when the old path is a file and the new name is free, and then one name and one link more; otherwise -1 and nothing changed |
| `Links.Tree.SysUnlink` | sysfile.c:184-239 | 0 exactly when the name is bound, is no dot and is a file or an empty directory; then the name is gone and the counts are lowered; otherwise -1 and nothing changed |
| `Links.Tree.Make` | sysfile.c:260-282 | the new inode, its dots and its name |
| `Links.Tree.SysCreate` | sysfile.c:241-283 | for a free name the given inode, with its dots, name and counts; for a bound name the bound inode exactly when neither it nor the request is a directory, -1 otherwise, and nothing changed |
| `PageTables.AddTable` | vm.c:45-52 | linking an empty page table changes no translation |
| `PageTables.MapKeeps` | vm.c:71-73 | setting a user entry changes one translation and gives the frame one owner |
| `PageTables.KernelMapKeeps` | vm.c:71-73 | setting a kernel entry changes one translation and no owner |
| `PageTables.UnmapKeeps` | vm.c:269-276 | clearing a user entry removes one translation and frees its one owner |
| `PageTables.OrphanedKeeps` | vm.c:284-298 | giving up a directory leaves all other address spaces owned exactly |
| `PageTables.Isolated` | vm.c:221-298 | an operation on one address space keeps the translations and contents of every other |
| `VirtualMemory.Machine.constructor` | kalloc.c:31-37 | before kinit no page is free |
| `VirtualMemory.Machine.Freerange` | kalloc.c:46-53 | exactly the pages of the range become free |
| `VirtualMemory.Machine.Kfree` | kalloc.c:59-77 | the page becomes the head of the linked free list; panics exactly for pages of the kernel or beyond PHYSTOP |
| `VirtualMemory.Machine.Kalloc` | kalloc.c:82-95 | a free page leaves the list; fails exactly when the list is empty |
| `VirtualMemory.Machine.Walk` | vm.c:35-55 | the page table of an address, added when asked for; no translation changes; fails only when none exists and no page is free |
| `VirtualMemory.Machine.Mappages` | vm.c:60-80 | maps a range to consecutive frames and nothing else; on failure a prefix is mapped and memory is exhausted; panics exactly at the first page mapped before |
| `VirtualMemory.Machine.Setupkvm` | vm.c:118-136 | an empty user half and the kernel's mappings; on failure every page is free again; fails only with at most 67 pages free |
| `VirtualMemory.KmapIsKernel` | vm.c:105-115 | the mapping table is physical memory at KERNBASE, read-only exactly over the kernel text, plus devices at their own addresses |
| `VirtualMemory.Machine.Allocuvm` | vm.c:221-249 | zeroed fresh pages over exactly the new addresses, or every translation as before; fails only when memory is short, panics only when one of the addresses is mapped |
| `VirtualMemory.Machine.Deallocuvm` | vm.c:255-279 | exactly the pages between the sizes are unmapped and freed |
| `VirtualMemory.Machine.Freevm` | vm.c:283-298 | exactly the pages of the address space become free, others keep owner and contents |
| `VirtualMemory.Machine.Copyuvm` | vm.c:315-345 | equal contents and flags on pages that were free; on failure the owner of every page is as before; panics only when a page below the size is not mapped |
| `VirtualMemory.GrowthUndone` | vm.c:235-246 | a failed growth followed by deallocuvm restores every translation |
| `VirtualMemory.NewSpaceUndone` | vm.c:342-344 | freeing a half-built address space restores the owner of every page |
| `ProcProtocol.AllocKeeps` | proc.c:88-118 | allocproc keeps the invariants: a new pid, one embryo |
| `ProcProtocol.BuildKeeps` | proc.c:217-243 | each further stage of fork keeps the invariants |
| `ProcProtocol.ExitKeeps` | proc.c:274-293 | exit keeps them: children have a live parent, nobody is left asleep in wait over a zombie |
| `ProcProtocol.WaitKeeps` | proc.c:300-384 | wait and waitx keep them, reaping or sleeping |
| `ProcProtocol.SleepKeeps` | proc.c:616-658 | sleep keeps them |
| `ProcProtocol.DispatchKeeps` | proc.c:419-422 | handing a CPU to a runnable process keeps the match of CPUs and running processes |
| `ProcProtocol.KillKeeps` | proc.c:685-703 | kill keeps the invariants, whatever slot it hits |
| `ProcProtocol.StepKeeps` | proc.c:204-703 | every action keeps the invariants |
| `ProcProtocol.ReachableTable` | proc.c:88-142 | in every reachable table: live parents, no sleeper in wait over a zombie child, running processes and CPUs one to one, distinct pids |
| `ProcProtocol.FlagHistory` | proc.c:685-703 | in every reachable table a slot carries the flag exactly when some kill hit it and no wait reaped it since |
| `ProcProtocol.FlaggedUnused` | proc.c:217-222 | an unused slot that carries the flag was hit under pid 0 or under the pid of a fork that failed there |
| `ProcProtocol.StalePid` | proc.c:217-222 | an unused slot has pid 0 or the pid of a fork that failed there |
| `ProcProtocol.BornKilledIff` | proc.c:103-116 | in every run a process is born killed exactly when some kill hit its slot and no wait reaped it since |
| `ProcProtocol.FirstChildBornKilled` | proc.c:691-699 | a run from boot: kill(0), then the first fork builds a killed child |
| `ProcProtocol.StalePidBornKilled` | proc.c:691-699 | a run from boot: a failed fork, kill of its pid, then a fork that builds a killed child |
| `ProcHistory.StatusStep` | proc.c:88-703 | the state every action leaves every slot in, slot by slot: who falls asleep, who is woken, reaped, started or dispatched |
| `ProcHistory.FieldsStep` | proc.c:88-703 | which action changes a slot's pid, parent or channel, to what, and that no other does |
| `ProcHistory.CpuStep` | proc.c:407-645 | a CPU is given up in exit, sleep, yield and a wait that sleeps, taken by a dispatch, and otherwise kept |
| `ProcHistory.SleepStep` | proc.c:616-703 | a slot sleeps on a channel after an action exactly when it just fell asleep on it, or slept on it and was not woken |
| `ProcHistory.SleepHistory` | proc.c:616-703 | over every run a slot sleeps on a channel exactly when it went to sleep on it and no wakeup, kill or exit has woken it since |
| `ProcHistory.Awake` | proc.c:584-703 | over every run: a process that kill just hit is flagged and awake, after a wakeup nobody sleeps on its channel, and a process that yields is runnable |
| `ProcTable.Ptable.constructor` | proc.c:146-178 | one runnable process, every CPU idle |
| `ProcTable.Ptable.Wakeup1` | proc.c:663-671 | exactly the sleepers on the channel become runnable |
| `ProcTable.Ptable.Wakeup` | proc.c:674-680 | exactly the sleepers on the channel become runnable, as one step |
| `ProcTable.Ptable.Allocproc` | proc.c:88-118 | the lowest unused slot becomes an embryo with a new pid and the starting values, or nothing changes |
| `ProcTable.Ptable.Abandon` | proc.c:217-222 | the embryo is unused again, its pid left behind |
| `ProcTable.Ptable.Adopt` | proc.c:224 | the forking process becomes the parent |
| `ProcTable.Ptable.Start` | proc.c:237-245 | the child is runnable and its pid is returned; no other slot changes |
| `ProcTable.Ptable.Reparent` | proc.c:279-286 | the children go to init, which is woken exactly when one is a zombie |
| `ProcTable.Ptable.Exit` | proc.c:274-293 | the caller is a zombie without a CPU, its children go to init, its parent and, for a zombie child, init are woken, and no other state, pid, parent or channel changes |
| `ProcTable.Ptable.Wait` | proc.c:306-338 | reaps the lowest zombie child, or sleeps exactly with a live child and no kill pending, or returns -1 |
| `ProcTable.Ptable.Sleep` | proc.c:641-645 | the caller sleeps on the channel and its CPU is idle; nothing else changes |
| `ProcTable.Ptable.Yield` | proc.c:584-591 | the caller is runnable and its CPU is idle; nothing else changes |
| `ProcTable.Ptable.Kill` | proc.c:685-703 | the lowest slot with the pid is flagged, and runnable if it slept; no other slot changes; -1 exactly when there is none |
| `ProcTable.Ptable.Dispatch` | proc.c:419-422 | the process runs on the CPU; nothing else changes |
| `Scheduler.PickFcfs` | proc.c:407-415 | the lowest slot of least creation time among the runnable, none exactly when none is runnable |
| `Scheduler.PickSjf` | proc.c:426-438 | the same for the estimated burst |
| `Scheduler.PickBjf` | proc.c:451-482 | the same for priority, then creation time |
| `Scheduler.LowestBestUnique` | proc.c:407-482 | those policies determine the choice |
| `Scheduler.PickRandom` | proc.c:506-526 | the runnable process whose rank is the drawn index |
| `Scheduler.RandomIsFair` | proc.c:506-526 | while the same 2^k processes are runnable, any 2^k consecutive picks choose each exactly once |
| `Scheduler.RoundRobinBound` | proc.c:537-551 | a process that stays runnable is dispatched after at most NPROC-1 others, whatever they do |
| `Scheduler.RoundRobinNext` | proc.c:539-541 | the next runnable slot at or after the cursor |
| `Random.Wrapped` | proc.c:33-36 | 32-bit wrap-around does not disturb the sequence modulo powers of two |
| `Random.NoRepeat` | proc.c:33-36 | the generator does not repeat a remainder modulo 2^k within 2^k steps |
| `Random.FullPeriod` | proc.c:29-36 | any 2^k consecutive draws among 2^k hit each index exactly once, for every seed |
| `PipeProtocol.StepKeeps` | pipe.c:59-121 | every step keeps order, the bound PIPESIZE, and that a sleeping writer has a full pipe with an open read end |
| `PipeProtocol.RunKeeps` | pipe.c:77-121 | under any interleaving delivered bytes are a prefix of accepted ones and at most PIPESIZE are in between |
| `PipeProtocol.ReadersWaitIff` | pipe.c:85-92 | sleeping readers have an empty pipe with a writer after a step exactly when the step is no abandoned write |
| `PipeProtocol.KilledWriterStrandsReader` | pipe.c:86-89 | a killed writer can leave a reader asleep on a full pipe |
| `PipeProtocol.ReadersAlwaysWait` | pipe.c:59-121 | without killed writers every sleeping reader has an empty pipe with a writer, over all runs |
| `PipeProtocol.StepDrains` | pipe.c:100-121 | a read delivers as many bytes as it asks for, or all there are; nothing else delivers any |
| `PipeProtocol.Drains` | pipe.c:77-121 | over every run the bytes accepted by a state are delivered once later reads have asked for as many as were left |
| `PipeProtocol.CompletedWriteArrives` | pipe.c:77-121 | over every run a write that fits is accepted whole, and delivered whole and in order once later reads have asked for enough |
| `PipeBuffer.Apart` | pipe.c:85 | wrapped counters compare as the true counts do |
| `PipeBuffer.Channel.constructor` | pipe.c:33-37 | an empty pipe with both ends open |
| `PipeBuffer.Channel.Pipewrite` | pipe.c:78-98 | performs the write step on the ring with wrapping counters: all bytes are accepted and readers woken exactly when they fit; otherwise the pipe is filled and the writer sleeps, or fails exactly when it is killed or has no reader |
| `PipeBuffer.Channel.Piperead` | pipe.c:100-121 | returns the oldest bytes, as many as asked for or all there are, and wakes writers; no byte only if the pipe is empty and has no writer; otherwise it sleeps, or fails exactly when killed |
| `PipeBuffer.Channel.Pipeclose` | pipe.c:59-69 | closes one end and wakes exactly the sleepers of the other |
| `Malloc.FreedChain` | umalloc.c:33-42 | free keeps the list circular, sorted by address and fully coalesced |
| `Malloc.FreedUnits` | umalloc.c:33-42 | free adds exactly the units of the block |
| `Malloc.FreeKeeps` | umalloc.c:24-44 | free keeps free and live blocks disjoint and units conserved |
| `Malloc.TakenUnits` | umalloc.c:75-82 | malloc removes exactly the units it hands out |
| `Malloc.TakeKeeps` | umalloc.c:75-84 | the new block was free and overlaps no live one, units conserved |
| `Malloc.GrowKeeps` | umalloc.c:54-58 | a chunk from sbrk keeps the heap in order |
| `Malloc.RunInOneBlock` | umalloc.c:24-44 | because neighbours are merged, a run of free units lies in one free block |
| `Malloc.Heap.Free` | umalloc.c:24-44 | gives the block back, everything else as before |
| `Malloc.Heap.FindPlace` | umalloc.c:30-32 | the search ends at the last free block below |
| `Malloc.Heap.Morecore` | umalloc.c:46-61 | at least 4096 units join the free list, or nothing changes |
| `Malloc.Heap.Malloc` | umalloc.c:63-90 | ends after at most one morecore, with a new disjoint block of the right size, or fails only when no block fits and sbrk refuses |
| `ShellGrammar.LexPrint` | sh.c:267-310 | the lexer reads printed tokens back |
| `ShellGrammar.ExecParse` | sh.c:417-448 | parseexec undoes the printer of simple commands with redirections and blocks |
| `ShellGrammar.PipeParse` | sh.c:363-374 | parsepipe undoes the printer of pipelines |
| `ShellGrammar.LineParse` | sh.c:346-361 | parseline undoes the printer of lists and background commands |
| `ShellGrammar.ParseShow` | sh.c:329-344 | parsing the printed form of any legal command tree gives the tree back |
| `ShellSyntax.LineComplete` | sh.c:346-448 | parseline accepts every line of the language and builds its tree: redirections anywhere among the words, blocks, pipelines, `&` and `;` |
| `ShellSyntax.LineSound` | sh.c:346-448 | whatever parseline accepts is a line of the language, and the tree is the one it stands for |
| `ShellSyntax.ParseIff` | sh.c:329-344 | tokens are parsed to a tree exactly when they form a line that stands for the tree |
| `ShellSyntax.PanicIff` | sh.c:329-344 | the parser panics exactly on tokens that form no line |
| `ShellSyntax.LexComplete` | sh.c:267-310 | if a line spells tokens, with any white space and the longest words, gettoken finds them |
| `ShellSyntax.LexSound` | sh.c:267-310 | the line spells the tokens that gettoken finds |
| `ShellSyntax.LineMeans` | sh.c:329-344 | a line is parsed to a tree exactly when it spells tokens that stand for the tree |
| `ShellSyntax.LineRefused` | sh.c:329-344 | a line is refused exactly when it stands for no tree |
| `ShellParser.Parser.Gettoken` | sh.c:267-310 | the next token, and the position after it |
| `ShellParser.Parser.Peek` | sh.c:312-322 | whether the next token is one of the symbols, consuming only white space |
| `ShellParser.Parser.ParseRedirs` | sh.c:376-399 | the redirections of the grammar, or its panic |
| `ShellParser.Parser.ParseExec` | sh.c:417-448 | the tree of the grammar, or its panic |
| `ShellParser.Parser.ParseBlock` | sh.c:401-415 | the tree of the grammar, or its panic |
| `ShellParser.Parser.ParsePipe` | sh.c:363-374 | the tree of the grammar, or its panic; the recursion ends |
| `ShellParser.Parser.ParseLine` | sh.c:346-361 | the tree of the grammar, or its panic; the recursion ends |
| `ShellParser.Nulterminate` | sh.c:450-495 | exactly the ends of words become NUL |
| `ShellParser.PointersRead` | sh.c:450-495 | every stored pointer then reads as exactly its word |
| `ShellParser.Parsecmd` | sh.c:329-344 | a tree that the line stands for, its words in place in the buffer, or the panic exactly when the line stands for no tree |
| `Grep.HereCons` | grep.c:84-106 | a list of items matches exactly when the first accepts a prefix and the others the rest |
| `Grep.Matchhere` | grep.c:84-96 | true exactly when the text can be cut into stretches the items accept |
| `Grep.Matchstar` | grep.c:98-106 | the same for a repetition followed by a pattern |
| `Grep.Match` | grep.c:72-82 | true exactly when the pattern occurs, at the front when it starts with ^ |

## Left out

- FileSystem.Fs.Bmap: the class works on the newest contents of all blocks, as bread returns them inside a transaction; its calls of bread, log_write and brelse are the reads, the `logged` set and nothing.
- Directories.Dirlookup: works on the byte string of the directory, which `FileSystem.Fs.Readi` and `FileSystem.Fs.Writei` read and write.
- FileSystem.Fs.Writei: nothing is said of the disk after the panic for running out of blocks, because the kernel stops there.
- FileRuns.FormattedInv: the files mkfs copies into the image and its rounding of the root directory's size; runs start from an image without inodes in use.
- Paths.Icache.Namex: the directory tree does not change during one lookup; other processes changing it between two steps are not modelled.
- Paths.Icache.Iput: only the reference count; the freeing of an inode without links is `FileSystem.Fs.FreeInode`.
- FileSystem.Fs.Filewrite: no other process writes the file between two chunk transactions.
- CrashConsistency.AlwaysGood: as CrashConsistency.CrashLeavesConsistent below, it rests on the condition `Faithful`.
- CrashConsistency.CrashLeavesConsistent: that the system calls of sysfile.c log their blocks as whole fs.c operations is the condition `Faithful`; it is not derived from the code of sysfile.c.
- BufferCache.Cache.Brelse: a caller that changed the data has logged or written it; nothing is said when it has not.
- BufferCache.Cache.Bread: the caller finds the block's buffer unlocked; waiting for another holder is not modelled.
- LogMachine.StepKeeps: after lh.block or the log region has been overrun only a crash is described, not what the kernel does next.
- Log.LogState.EndOp: a list that outgrew the region; `LogOverflow.SpilledRun` follows its commit to the first write past the region.
- Log.LogState.CopyBlock: waiting for a reader outside a transaction that holds the home block is not modelled.
- Log.LogState.WriteLog: waiting for a reader outside a transaction that holds a listed block is not modelled.
- Log.LogState.InstallTrans: waiting for a reader outside a transaction that holds a listed block is not modelled.
- Log.LogState.Commit: waiting for a reader that holds a listed block is not modelled, and no other process takes or releases buffers between two of its steps, so room for the commit is judged when it begins.
- Links.Tree.SysUnlink: the path is given as the inode it leads to, and the call is one atomic step.
- Links.Tree.SysCreate: the path is given as the inode it leads to, the number from ialloc is an input, and the call is one atomic step.
- VirtualMemory.Machine.Deallocuvm: old sizes above KERNBASE, which no process has.
- VirtualMemory.Machine.Copyuvm: sizes above KERNBASE, which no process has.
- Links.Tree.SysLink: paths are given as the inodes they lead to, the call is one atomic step although the inode is unlocked between nlink++ and dirlink, and nlink is unbounded, not 16 bits wide.
- ProcTable.Ptable.Allocproc: process numbers are unbounded; the kernel's counter would overflow after 2^31 forks.
- ProcTable.Ptable.Wait: the release of the child's kernel stack and memory, and the times that waitx reports.
- PipeBuffer.Channel.Pipeclose: the pipe's page going back to the allocator when both ends are closed.
- Malloc.Heap.Malloc: request sizes that wrap around 32 bits.
- VirtualMemory.Machine.Kfree: addresses are page numbers, so the checks for unaligned addresses are not modelled; freeing a page that is free already, which the source does not detect, is excluded.
- Device inodes and the functions behind them, in readi, writei and create.
- copyout, uva2ka, clearpteu, loaduvm and inituvm of vm.c.
- sys_copy_file and the other system calls of sysfile.c beyond create, link and unlink; argument fetching.
- exec.c, trap.c, syscall.c, console, interrupt and disk drivers, locks below the level of atomic critical sections, and assembly.
- The line buffering of grep, the command execution of the shell, and all other user programs.
- Time slices, tick counters and the statistics in the process table.
