# Models of the xv6 kernels in this repository

The repository holds three xv6 kernels, each extended in one place. This project models
their hardest parts in Dafny and proves what they promise. Most code is modelled in its own
imperative form: classes and arrays that methods update step by step, each method tied to
a function of the state before it, and the promises proved about those functions.

- **Write-ahead log** (`LogProtocol`, `LogSafety`, `LogReservation`, `Log`). The group-commit
  log of the first project as a machine whose steps are single block writes, with a crash
  allowed between any two, also during recovery: crash atomicity, durability, atomicity of
  each operation, the space reservation. `Log` is log.c itself, running on the buffer cache;
  a ghost record ties every one of its disk writes to a step of the machine.
- **Buffer cache** (`BufferRing`, `CacheSpec`, `BufferCache`). bio.c on an array of buffers
  with prev/next links: cache agreement in every interleaving of its regions.
- **File block tree** (`DiskBytes`, `FsTree`, `FsContent`, `FsDirty`, `FsTrunc`,
  `FileSystem`, `FileWrite`, `FullOperation`, `FsOnDisk`). bmap, balloc, readi and writei of the third
  project, through the triple-indirect tier, down to bits and bytes of the blocks: an
  ownership forest, and files as byte sequences. A `Layout` with one tier is the first
  project's version; its itrunc and filewrite are modelled with it, and exactly which blocks
  each operation logs.
- **The file system on the log** (`FileRuns`, `CrashFiles`). Operations of filewrite never meet
  the log's panic when the log area is long enough, and what recovery leaves on disk is a
  well-formed file system again.
- **Heap of user programs** (`HeapSpec`, `Umalloc`). The circular free list of umalloc.c in
  an array of headers.
- **MLFQ scheduler** (`MlfqSpec`, `MlfqLists`, `MlfqRuns`, `Mlfq`). The three intrusive lists
  of the first project's proc.c, picking, demotion and boosting, with runs and their
  starvation bounds. A region under `ptable.lock` is one event.
- **Virtual memory** (`PageTable`, `VmSpec`, `VmBuild`, `VmCopy`, `VmRuns`, `Vm`). kalloc.c
  and vm.c on physical pages of bytes, with the two-level tables (section 4.3 of the Intel
  SDM, Volume 3A) refining a flat map and every page owned once. Over runs no page is lost
  and address spaces are isolated; each method of `Vm.Machine` says which step of a run it is.
- **Pipe** (`PipeSpec`, `Pipe`), **grep's matcher** (`Grep`) and the **shell's parser**
  (`ShSpec`, `Sh`).

Three things the proofs show to be different from what the code's comments or its callers
take for granted:

- mkfs.c makes the log exactly LOGSIZE blocks long, header included, while log_write wants
  one block more, so operations that keep to their budget can still meet the panic
  (`LogReservation.ReservationIsEnoughIff`).
- itrunc of the third project stops at the single-indirect tier, so a larger file keeps its
  other blocks for ever (`FsTrunc.TruncationIsCompleteIff`, `FsTrunc.TruncationCanLeave`).
- A killed writer can fill a pipe and leave without waking the reader that sleeps on it
  (`PipeSpec.KilledKeepsInvIff`, `PipeSpec.KilledWriterLosesWakeup`).

Two smaller ones: log_write tests for room before it looks for a slot to absorb into
(`LogReservation.AbsorbingWriteCanPanic`), and malloc's sums wrap for requests close to
2^32 bytes, while sbrk is given a wrong count from 2^28 units on (`Umalloc.RequestFitsIff`,
`Umalloc.SbrkArgumentIff`; `Allocator.Malloc` reports the latter as `Overflow`).

`dafny verify dfyconfig.toml` checks the whole project.

## Model

| member | source | states |
|---|---|---|
| LogProtocol.AbsorbInserts | pj1/xv6-public/log.c:223-230 | Log absorption keeps the block numbers in the header distinct and is exactly set insertion: a block already there keeps its slot. |
| LogProtocol.LogWriteKeepsData | pj1/xv6-public/log.c:213-233 | Logging a write keeps the disk invariant: replaying the header over the home blocks still gives the committed contents, and the cache shows the running group on top. |
| LogProtocol.CopyKeepsData | pj1/xv6-public/log.c:176-190 | Copying a cached block to its log slot changes nothing that a crash could see. |
| LogProtocol.WriteHeadKeepsData | pj1/xv6-public/log.c:98-113 | The one block write of the header moves the disk from the old committed contents to the contents with the whole group applied. |
| LogProtocol.HeaderSwitchesHome | pj1/xv6-public/log.c:98-113 | Writing a header over complete log slots makes the disk stand for the new contents, in a single block write. |
| LogProtocol.InstallKeepsData | pj1/xv6-public/log.c:68-82 | Installing one log block, at commit or in recovery, leaves unchanged what the disk stands for. |
| LogProtocol.ClearHeadKeepsData | pj1/xv6-public/log.c:199-200 | Erasing the header after all blocks are installed leaves unchanged what the disk stands for. |
| LogProtocol.ReadHeadKeepsData | pj1/xv6-public/log.c:84-96 | Reading the header after power came back restores the in-memory header that replay needs. |
| LogProtocol.EndKeepsData | pj1/xv6-public/log.c:145-174 | An operation ending, last or not, keeps the invariant and starts a commit only when it is the last. |
| LogProtocol.ReplayInstalls | pj1/xv6-public/log.c:115-122 | Replaying any well-formed header installs home blocks one by one and leaves the log area alone. |
| LogProtocol.StepKeepsData | pj1/xv6-public/log.c:68-233 | Every step of the protocol, a crash included, keeps the on-disk and in-memory invariant for the history of committed groups. |
| LogProtocol.StepKeepsOps | pj1/xv6-public/log.c:124-174 | Nobody who wrote in a committed group can write again: operations are never split over two groups. |
| LogProtocol.StepKeepsSleep | pj1/xv6-public/log.c:126-174 | No wakeup is lost: whoever sleeps in begin_op could not be admitted now. |
| LogSafety.StepKeepsInv | pj1/xv6-public/log.c:68-233 | Every step keeps the whole protocol invariant. |
| LogSafety.BootGivesInv | pj1/xv6-public/log.c:53-66 | Power-on over any disk with a well-formed header establishes the invariant. |
| LogSafety.RunKeepsInv | pj1/xv6-public/log.c:68-233 | Every run of begins, writes, ends, commits, crashes and recoveries keeps it. |
| LogSafety.CrashAtomicity | pj1/xv6-public/log.c:68-122 | Stop any run after any single block write, recovery included: recovering that disk gives every home block exactly the committed groups applied in order, and nothing else. |
| LogSafety.OpenLogIsInstalled | pj1/xv6-public/log.c:192-202 | Whenever the log is open for business the disk already holds all committed groups and the cache shows them with the current group on top. |
| LogSafety.CommitPoint | pj1/xv6-public/log.c:98-113 | A group enters the history at exactly one step, the write that replaces the empty header on disk by a non-empty one; no other step touches the history. |
| LogSafety.HistoryOnlyGrows | pj1/xv6-public/log.c:115-122 | Durability: the history only ever grows, through crashes and recoveries. |
| LogSafety.RecoveryCanGoOn | pj1/xv6-public/log.c:115-122 | Recovery never gets stuck on a header the log wrote itself. |
| LogSafety.OperationsAreAtomic | pj1/xv6-public/log.c:124-174 | After any run, each operation has all the writes it issued in one committed group, in order, or none of them in any. |
| LogSafety.RunKeepsWholeOp | pj1/xv6-public/log.c:124-174 | Along any run, crashes included, the writes of an operation stay together: pending while it runs, in one group of the history or gone afterwards. |
| LogSafety.ReachedIff | pj1/xv6-public/log.c:68-233 | The record of runs that the imperative log carries is the reachability of the protocol machine, no more and no less. |
| LogReservation.ReservationHolds | pj1/xv6-public/log.c:124-141 | In every interleaving of operations that log at most MAXOPBLOCKS distinct blocks, logged blocks plus unspent budgets fit in LOGSIZE, and nothing runs during a commit. |
| LogReservation.RunKeepsReserved | pj1/xv6-public/log.c:124-174 | That bound is kept by every legal run. |
| LogReservation.AddingWriteFits | pj1/xv6-public/log.c:218-219 | A write that adds a block never meets the LOGSIZE half of the check. |
| LogReservation.FitsWhenLogIsLonger | pj1/xv6-public/log.c:218-219 | With a log area longer than LOGSIZE no disciplined operation ever meets the panic. |
| LogReservation.PanicsWhenLogIsShort | pj1/xv6-public/log.c:218-219 | With a log area of LOGSIZE blocks, as mkfs makes it, three disciplined operations reach a state in which the next block panics. |
| LogReservation.ReservationIsEnoughIff | pj1/xv6-public/mkfs.c:25 | For LOGSIZE and MAXOPBLOCKS as param.h relates them, the reservation of begin_op suffices if and only if the log area is longer than LOGSIZE; mkfs makes it equal. |
| LogReservation.AbsorbingWriteCanPanic | pj1/xv6-public/log.c:218-226 | The limit is tested before absorption, so a full log stops even a rewrite of a block that is already logged. |
| BufferRing.UnlinkRing | pj1/xv6-public/bio.c:132-133 | Taking a buffer out leaves a doubly linked ring of exactly the others, in the same order, and touches only links. |
| BufferRing.LinkFrontRing | pj1/xv6-public/bio.c:134-137 | Putting it behind the head gives a ring with it in front. |
| CacheSpec.EmptyInv | pj1/xv6-public/bio.c:38-56 | The empty cache satisfies the invariant. |
| CacheSpec.HitKeepsInv | pj1/xv6-public/bio.c:68-76 | A hit adds a reference and keeps cache agreement. |
| CacheSpec.RecycleKeepsInv | pj1/xv6-public/bio.c:78-91 | Recycling an unreferenced clean buffer keeps at most one buffer per block. |
| CacheSpec.SyncKeepsInv | pj1/xv6-public/ide.c:130-168 | iderw shows readers nothing new, and writes the disk only from a dirty buffer. |
| CacheSpec.UnlockKeepsInv | pj1/xv6-public/bio.c:121-126 | Letting go of a buffer keeps cache agreement as long as its contents are on disk or pinned for the log. |
| CacheSpec.DropKeepsInv | pj1/xv6-public/bio.c:128-138 | Dropping a reference, with the move to the front, keeps all buffers on the ring and cache agreement. |
| CacheSpec.RegionKeepsInv | pj1/xv6-public/bio.c:61-141 | Every locked region keeps the invariant where bio.c's tests let it run, provided that callers store to and mark only buffers bread has filled, and pass new contents to log_write or bwrite before brelse. |
| CacheSpec.RegionKeepsSettled | pj1/xv6-public/log.c:208-233 | With that discipline a buffer whose holder has nothing left to pass on shows what the disk or the log has, so brelse is safe, whatever the other processes do. |
| CacheSpec.RunKeepsInv | pj1/xv6-public/bio.c:61-141 | Every interleaving of the locked regions keeps the invariant. |
| CacheSpec.CacheAgreement | pj1/xv6-public/bio.c:61-141 | In every reachable state a block has at most one buffer, a valid clean unlocked buffer equals the disk, and the ring holds all NBUF buffers once. |
| CacheSpec.PinnedStays | pj1/xv6-public/log.c:231 | A buffer marked by log_write keeps its block, and the disk its old contents, until the log writes that buffer; nobody else's bread can. |
| CacheSpec.PinnedStaysInRun | pj1/xv6-public/log.c:231 | The same over any interleaving with other processes, in which only the log calls bwrite. |
| BufferCache.Cache.constructor | pj1/xv6-public/bio.c:38-56 | binit makes a ring of all buffers. |
| BufferCache.Cache.Lookup | pj1/xv6-public/bio.c:68-76 | The forward scan finds the one buffer of the block, or there is none. |
| BufferCache.Cache.FindVictim | pj1/xv6-public/bio.c:78-92 | The backward scan finds the last eligible buffer of the ring, or none is eligible. |
| BufferCache.Cache.Bget | pj1/xv6-public/bio.c:61-93 | bget is a hit or the recycling of that victim; it panics exactly when no buffer is eligible. |
| BufferCache.Cache.Iderw | pj1/xv6-public/ide.c:130-168 | iderw writes a dirty buffer or reads an invalid one, and panics exactly when the buffer is not locked, there is nothing to do, or the second disk is missing. |
| BufferCache.Cache.Deref | pj1/xv6-public/bio.c:128-140 | The rest of brelse drops the reference and moves an unused buffer to the front. |
| BufferCache.Cache.MoveToFront | pj1/xv6-public/bio.c:132-137 | The six link assignments are unlinking followed by linking at the front. |
| BufferCache.Cache.Bread | pj1/xv6-public/bio.c:95-106 | The returned buffer shows the contents of the block; disk, other readers and pinned buffers are not disturbed. |
| BufferCache.Cache.Bwrite | pj1/xv6-public/bio.c:108-116 | The disk block becomes what the holder sees, and only that block. |
| BufferCache.Cache.Brelse | pj1/xv6-public/bio.c:118-141 | The block can be read by others afterwards with the same contents. |
| Log.MoveBlock | pj1/xv6-public/log.c:74-81 | The loop body shared by install_trans and write_log copies one block and writes only its target. |
| Log.Log.constructor | pj1/xv6-public/log.c:53-66 | initlog starts the protocol over whatever disk it finds. |
| Log.Log.FormatHead | pj1/xv6-public/log.c:107-110 | The loop writes the count and the block numbers and keeps the rest of the block. |
| Log.Log.WriteHeader | pj1/xv6-public/log.c:101-113 | write_head performs exactly the protocol step it stands for: the commit point, or the clearing. |
| Log.Log.WriteLog | pj1/xv6-public/log.c:176-190 | write_log copies the cached blocks to the log, one protocol step each. |
| Log.Log.InstallTrans | pj1/xv6-public/log.c:68-82 | install_trans installs every logged block, at commit and at boot. |
| Log.Log.Install | pj1/xv6-public/log.c:196-200 | From the first write_head on a commit cannot fail: the group is in the history and the log is empty. |
| Log.Log.Commit | pj1/xv6-public/log.c:192-202 | commit adds the pending group to the history and empties the log; it can fail only when bget finds no clean buffer. |
| Log.Log.ReadHeader | pj1/xv6-public/log.c:84-96 | read_head restores count and block numbers from the header block. |
| Log.Log.RecoverFromLog | pj1/xv6-public/log.c:115-122 | Recovery ends with the committed contents installed and an empty header. |
| Log.Log.BeginOp | pj1/xv6-public/log.c:124-141 | One pass of the loop admits the operation, or it sleeps for a reason that still holds. |
| Log.Log.EndOp | pj1/xv6-public/log.c:143-174 | The last operation to leave commits the group; any other only leaves. |
| Log.Log.LogWrite | pj1/xv6-public/log.c:213-233 | log_write records the block once, marks its buffer dirty and panics exactly on the two tests. |
| Log.Log.Update | pj1/xv6-public/log.c:208-212 | A logged update by an operation is the protocol step that issues its write. |
| Log.Log.OpenLog | pj1/xv6-public/log.c:192-202 | Between commits the disk holds the committed groups and readers of the cache see the current group too. |
| DiskBytes.PutWord | pj3/fs.c:418-424 | Storing one word of a block changes that word and no other. |
| DiskBytes.FlipMapBitFlips | pj3/fs.c:64-69 | Setting or clearing a bit of the free map changes the bit of that block and of no other. |
| FsTree.PathOfIsLeaf | pj3/fs.c:384-464 | Every file block below MAXFILE has a leaf position in the four tiers, and the position gives it back. |
| FsTree.LeafIsPathOf | pj3/fs.h:24-28 | Every leaf position is the position of one file block: the tier arithmetic is a bijection. |
| FsTree.AllocateKeepsForest | pj3/fs.c:56-80 | After balloc no address has changed, all blocks are still owned once, and the new block is zeroed and unowned. |
| FsTree.LinkKeepsForest | pj3/fs.c:385-386 | Linking the fresh block into an empty slot changes that position and no other, and every block still has one owner. |
| FsTree.StoreKeepsForest | pj3/fs.c:577-580 | Writing a data block leaves every tree as it is. |
| FsContent.GrownKeepsForest | pj3/fs.c:378-468 | Allocating and linking a block keeps the ownership forest. |
| FsContent.GrownKeepsBytes | pj3/fs.c:378-468 | It changes no byte of any file: the new block reads as the zeroes that were there. |
| FsContent.StoreBytes | pj3/fs.c:577-584 | Writing one data block changes the bytes of one file block of one inode. |
| FsContent.SpanShows | pj3/fs.c:542-547 | The slice of a block that readi copies is the file's bytes at that offset. |
| FsContent.PatchIsWrote | pj3/fs.c:577-584 | One turn of writei writes its chunk at its offset and nothing else, in any file. |
| FsContent.WroteContent | pj3/fs.c:554-591 | A file written at off is old[..off] + src + old[off + n..]; every other file is unchanged. |
| FsContent.WroteTransitive | pj3/fs.c:577-584 | Consecutive chunks add up to one write. |
| FsContent.StillNoHoles | pj3/fs.c:586-589 | Writing at or before the end leaves a file without holes without holes. |
| FsDirty.RootLogged | pj1/xv6-public/fs.c:378-388 | Filling a slot of the inode logs the new block and its free map block, and changes no other block of the disk. |
| FsDirty.IndexLogged | pj1/xv6-public/fs.c:389-394 | Filling an entry of an index block logs that block as well. |
| FsDirty.LoggedTransitive | pj1/xv6-public/fs.c:478-511 | What is logged adds up: one after the other, the blocks logged are still exactly the data blocks written and what filled positions log, cover every change, and the free map has given away only blocks that now hang in the tree. |
| FsDirty.OneMoreSpan | pj3/fs.c:577-579 | Each turn of the loop touches one block more. |
| FsDirty.WriteLoggedMore | pj1/xv6-public/fs.c:498-504 | Each turn of the loop logs its data block and what was filled on the way to it, nothing more and nothing less. |
| FsDirty.WriteLogBound | pj1/xv6-public/file.c:127-133 | With one indirect tier and no holes, the tree blocks that a write of k blocks of data logs are at most 2k + 3, aligned or not, whether it allocates the indirect block or not. |
| FsDirty.WithInodeBlock | pj1/xv6-public/fs.c:506-509 | The inode block is logged as well, exactly when the file grows. |
| FsDirty.WriteiLogBound | pj1/xv6-public/file.c:127-133 | With it a write of k blocks of data logs at most 2k + 4 blocks. |
| FileSystem.FileSystem.Balloc | pj3/fs.c:56-80 | balloc takes the first free block, marks and zeroes it; it panics exactly when all are in use. |
| FileSystem.FileSystem.Bmap | pj3/fs.c:378-468 | bmap returns the non-zero address at the block's position through all four tiers, the same on repeat calls, moves no other block, logs exactly what it fills, and fails only on a full disk or out of range. |
| FileSystem.FileSystem.MapDouble | pj3/fs.c:406-428 | The double-indirect tier. |
| FileSystem.FileSystem.MapTriple | pj3/fs.c:430-465 | The triple-indirect tier. |
| FileSystem.FileSystem.Readi | pj3/fs.c:520-549 | readi returns exactly the requested slice of the file, cut at its end, with the source's error conditions, and changes no file. |
| FileSystem.FileSystem.Writei | pj3/fs.c:554-591 | writei makes the file old[..off] + src + the tail, adjusts the size and leaves every other file unchanged; the blocks it logs are exactly the data blocks written, what was filled on the way to them and the inode block if the file grew, at most 2k + 4 with one indirect tier, and no other block has changed. |
| FileSystem.FileSystem.Bfree | pj3/fs.c:82-98 | bfree clears the bit of a block in use and of no other, and panics exactly on a free one. |
| FileSystem.FileSystem.FreeDirect | pj1/xv6-public/fs.c:414-419 | The direct blocks are given back, and no panic is met. |
| FileSystem.FileSystem.FreeIndirect | pj1/xv6-public/fs.c:421-431 | The leaves of the indirect block and the block itself are given back. |
| FileSystem.FileSystem.Itrunc | pj1/xv6-public/fs.c:402-435 | itrunc never panics, empties the inode, frees exactly the blocks it has passed, changes nothing but free map blocks, and leaves every other file with its contents. |
| FsTrunc.FreeOneMore | pj1/xv6-public/fs.c:414-427 | Each position passed needs one free bit cleared, and that bit is still set when it comes to it. |
| FsTrunc.GoneIff | pj1/xv6-public/fs.c:402-435 | The blocks given back are exactly those reached through the direct slots and the indirect block, and that block. |
| FsTrunc.TruncatedForest | pj1/xv6-public/fs.c:402-435 | What remains is a well-formed forest with every other inode's addresses and bytes. |
| FsTrunc.TruncatedContent | pj1/xv6-public/fs.c:402-435 | Once itrunc has freed what it passes, every other file has the same contents. |
| FsTrunc.TruncationIsCompleteIff | pj3/fs.c:475-503 | All blocks of the inode are given back if and only if the slots beyond the single-indirect one were empty: always in the first project, not for larger files in the third. |
| FsTrunc.TruncationCanLeave | pj3/fs.c:475-503 | It does leave blocks: after bmap has filled the slot behind the single-indirect one of any file, that block is still marked in use when itrunc is done. |
| FileWrite.WriteChunk | pj1/xv6-public/file.c:138-143 | One operation hands a chunk to writei and moves the offset past it; in a file without holes it logs at most MAXOPBLOCKS blocks. |
| FileWrite.Filewrite | pj1/xv6-public/file.c:117-156 | filewrite writes a prefix of the buffer, all of it unless writei refuses, as one operation for every MAXCHUNK bytes; each logs exactly what its writei must, at most MAXOPBLOCKS blocks, and together they log every block that changed. |
| FullOperation.FullIff | pj1/xv6-public/file.c:127-133 | A largest unaligned chunk that ends the direct blocks logs MAXOPBLOCKS blocks exactly when the four blocks it allocates are covered by different free map blocks. |
| FullOperation.ReservationUsedUp | pj1/xv6-public/file.c:127-133 | On a disk with one free block in each of five free map blocks, writei succeeds with such a chunk and logs exactly MAXOPBLOCKS blocks. |
| FileRuns.ChunkFits | pj1/xv6-public/file.c:127-143 | What a chunk of filewrite logs fits the reservation, with a block to spare before the inode block. |
| FileRuns.FollowsIsDisciplined | pj1/xv6-public/log.c:124-141 | Operations that log what fits, the inode block last, keep to the budget of begin_op in every run. |
| FileRuns.PlannedWriteFits | pj1/xv6-public/log.c:218-219 | With a log area longer than LOGSIZE no log_write of such an operation, a rewrite of a logged block included, meets the panic, however many of them run at once. |
| FsOnDisk.ForestFromTail | pj1/xv6-public/fs.h:26-57 | Whether the block trees form a forest depends on the free map and the blocks behind it only. |
| FsOnDisk.WrittenInodesAreConsistent | pj1/xv6-public/fs.c:220-240 | If the inode blocks hold the addresses of the inodes in memory, or none yet, the disk by itself holds a well-formed forest. |
| CrashFiles.InvariantSurvives | pj1/xv6-public/log.c:115-122 | Whatever holds of the home blocks after power-on and, in the cache, at every commit, holds of them after a crash at any point and recovery. |
| CrashFiles.CrashKeepsForest | pj1/xv6-public/log.c:115-122 | So after a crash at any point recovery leaves a well-formed forest of block trees on disk, inode blocks included, if the cache held one at every commit. |
| HeapSpec.BlocksDisjoint | pj1/xv6-public/umalloc.c:24-61 | Any two blocks, free or live, are disjoint. |
| HeapSpec.InsertSound | pj1/xv6-public/umalloc.c:29-42 | Linking a block between its neighbours keeps one circular list in address order with one wrap point. |
| HeapSpec.MergeSound | pj1/xv6-public/umalloc.c:32-40 | Swallowing the adjacent next block keeps list, order and partition, and leaves one adjacency fewer. |
| HeapSpec.TakeInv | pj1/xv6-public/umalloc.c:76-77 | Taking a whole block off the list keeps the heap invariant. |
| HeapSpec.SplitInv | pj1/xv6-public/umalloc.c:78-82 | Carving the tail off a free block keeps it. |
| HeapSpec.GrowInv | pj1/xv6-public/umalloc.c:52-60 | A new piece from sbrk becomes one more block; the units obtained grow by exactly that piece. |
| Umalloc.CoalesceBoth | pj1/xv6-public/umalloc.c:32-41 | After the two tests of free no two free blocks are adjacent. |
| Umalloc.FreedHeaders | pj1/xv6-public/umalloc.c:32-42 | The header assignments of free are exactly insertion followed by both coalescing steps. |
| Umalloc.FreedInv | pj1/xv6-public/umalloc.c:24-43 | free keeps the heap invariant, takes one block out of the program's hands and loses no unit. |
| Umalloc.FreedSpares | pj1/xv6-public/umalloc.c:24-43 | free writes no header and no data of any other live block. |
| Umalloc.ServedInv | pj1/xv6-public/umalloc.c:75-87 | Handing out a block keeps the invariant and gives the program a block it did not have, of the size asked for. |
| Umalloc.ServedSpares | pj1/xv6-public/umalloc.c:75-87 | It writes nothing inside a live block. |
| Umalloc.UnitsAreConserved | pj1/xv6-public/umalloc.c:24-90 | Units obtained from sbrk are the free ones and the live ones, each once; a block has exactly the units its header claims. |
| Umalloc.WholeLap | pj1/xv6-public/umalloc.c:73-89 | Back at the rover, every free block has been seen and is too small. |
| Umalloc.RequestFitsIff | pj1/xv6-public/umalloc.c:69 | The rounding gives room for the request exactly up to 2^32 - 8 bytes; beyond that the sum wraps. |
| Umalloc.SbrkArgumentIff | pj1/xv6-public/umalloc.c:52 | The byte count given to sbrk is the one meant exactly below 2^28 units. |
| Umalloc.Allocator.FindPlace | pj1/xv6-public/umalloc.c:29-31 | The walk from the rover ends between the two list neighbours of the block. |
| Umalloc.Allocator.CoalesceHeaders | pj1/xv6-public/umalloc.c:32-41 | The two tests and their assignments. |
| Umalloc.Allocator.Free | pj1/xv6-public/umalloc.c:24-43 | free(ap) gives back that block; the other live blocks keep extent and contents, and no unit is lost. |
| Umalloc.Allocator.Morecore | pj1/xv6-public/umalloc.c:45-61 | morecore adds at least 4096 units and leaves the rover where the request now fits, or changes nothing. |
| Umalloc.Allocator.Serve | pj1/xv6-public/umalloc.c:75-87 | The inner if hands out a whole block or the tail of one. |
| Umalloc.Allocator.Search | pj1/xv6-public/umalloc.c:73-89 | The search ends after one lap plus at most one morecore. |
| Umalloc.Allocator.Malloc | pj1/xv6-public/umalloc.c:63-90 | malloc returns a new block of the right size and disturbs no live one; it asks the kernel only when nothing fits, and returns null only when nothing fits and the kernel refuses. |
| MlfqSpec.QueuedIffRunnable | pj1/xv6-public/proc.c:70-91 | At every release of ptable.lock a process is on list k exactly when it is RUNNABLE with level k. |
| MlfqSpec.PatchKeeps | pj1/xv6-public/proc.c:742-750 | Changing one process within its state keeps the queue invariant. |
| MlfqSpec.AppendKeeps | pj1/xv6-public/proc.c:70-91 | Going to the tail of its level's list puts a process on exactly one list. |
| MlfqSpec.UnlinkKeeps | pj1/xv6-public/proc.c:108-131 | Leaving a list leaves the others in order. |
| MlfqSpec.WakeFrom | pj1/xv6-public/proc.c:742-752 | wakeup1 keeps the invariant over the whole table. |
| MlfqSpec.BestIsFirstLeast | pj1/xv6-public/proc.c:502-507 | The scan of L2 finds the earliest process of least priority number. |
| MlfqSpec.PickKeeps | pj1/xv6-public/proc.c:497-528 | Picking keeps the invariant. |
| MlfqSpec.BackKeeps | pj1/xv6-public/proc.c:543-610 | Demotion, re-queueing and boost keep the invariant, with quantum 2 * level + 4, priority in 0..3 and allotment below the quantum. |
| MlfqSpec.BoostStartsOver | pj1/xv6-public/proc.c:564-610 | A boost makes L0 the concatenation L0 + L1 + L2 with level 0, priority 3, nothing used up, and touches nobody who is not queued. |
| MlfqSpec.BoostKeeps | pj1/xv6-public/proc.c:564-610 | The boost keeps the invariant. |
| MlfqLists.AppendLinked | pj1/xv6-public/proc.c:70-91 | The pointer writes of enqueue append to one list and leave the other two alone. |
| MlfqLists.RemoveLinked | pj1/xv6-public/proc.c:94-131 | Those of dequeue and dequeue_specific take one process off one list. |
| MlfqLists.SpliceChain | pj1/xv6-public/proc.c:585-606 | Hanging one list behind another is one list. |
| MlfqLists.JoinEnd | pj1/xv6-public/proc.c:585-606 | After the boost's loops there is one list of everybody, and the flags are right. |
| MlfqRuns.StepKeepsInv | pj1/xv6-public/proc.c:70-131 | Every region under ptable.lock, and both timer counters, keep the queue invariant. |
| MlfqRuns.Exec | pj1/xv6-public/proc.c:481-614 | So does every run. |
| MlfqRuns.ListsGrow | pj1/xv6-public/proc.c:543-558 | Only a pick takes a process off a list, and only a return with a hundred ticks gone moves any between lists. |
| MlfqRuns.FirstInFirstOut | pj1/xv6-public/proc.c:70-107 | The process at position k of L0 is the (k+1)-th picked from then on, whatever else happens. |
| MlfqRuns.NoStarvation | pj1/xv6-public/proc.c:564-610 | Whoever waits on any list is picked within one pick per table entry after the first return to the scheduler that follows the hundredth tick. |
| Mlfq.Scheduler.constructor | pj1/xv6-public/proc.c:13-16 | The zeroed table has three empty lists. |
| Mlfq.Scheduler.Enqueue | pj1/xv6-public/proc.c:70-92 | enqueue appends to the list of the process's level, unless it is on a list already. |
| Mlfq.Scheduler.FindTail | pj1/xv6-public/proc.c:81-84 | The walk ends at the last element. |
| Mlfq.Scheduler.Dequeue | pj1/xv6-public/proc.c:94-107 | dequeue takes the front of a list. |
| Mlfq.Scheduler.DequeueSpecific | pj1/xv6-public/proc.c:109-131 | dequeue_specific takes exactly that process off the list, or it is not on it. |
| Mlfq.Scheduler.Wakeup1 | pj1/xv6-public/proc.c:742-752 | wakeup1 wakes every sleeper on the channel, in table order. |
| Mlfq.Scheduler.Wakeup | pj1/xv6-public/proc.c:755-762 | wakeup, as one region. |
| Mlfq.Scheduler.FindLeast | pj1/xv6-public/proc.c:502-507 | The scan of L2 with its candidate pointer. |
| Mlfq.Scheduler.TakeChosen | pj1/xv6-public/proc.c:497-519 | The loop over the levels takes the chosen process off its list. |
| Mlfq.Scheduler.Pick | pj1/xv6-public/proc.c:493-531 | One choice of the scheduler up to the switch. |
| Mlfq.Scheduler.RefreshFront | pj1/xv6-public/proc.c:566-580 | The first loop of the boost resets the processes of L0 and ends on the last. |
| Mlfq.Scheduler.SpliceLevel | pj1/xv6-public/proc.c:583-607 | The inner loop hangs a lower list behind the front one and resets its processes. |
| Mlfq.Scheduler.BoostQueues | pj1/xv6-public/proc.c:564-615 | The boost as a whole. |
| Mlfq.Scheduler.Back | pj1/xv6-public/proc.c:543-615 | The scheduler after the switch: demotion, re-queueing, boost. |
| Mlfq.Scheduler.Yield | pj1/xv6-public/proc.c:702-709 | yield, with what the scheduler does before it releases the lock. |
| Mlfq.Scheduler.Sleep | pj1/xv6-public/proc.c:660-695 | sleep, likewise. |
| Mlfq.Scheduler.Exit | pj1/xv6-public/proc.c:366-407 | exit: the parent is woken, the children pass to init, the process becomes a zombie. |
| Mlfq.Scheduler.Kill | pj1/xv6-public/proc.c:767-788 | kill marks the process and makes a sleeper runnable on its list; it reports whether the pid exists. |
| Mlfq.Scheduler.SetPriority | pj1/xv6-public/proc.c:712-735 | setPriority changes one priority within 0..3, or nothing. |
| Mlfq.Scheduler.Allocproc | pj1/xv6-public/proc.c:203-228 | allocproc claims the first unused entry at level 0, priority 3, or there is none. |
| Mlfq.Scheduler.StartChild | pj1/xv6-public/proc.c:358-361 | The end of fork and userinit queues the new process. |
| Mlfq.Scheduler.Abandon | pj1/xv6-public/proc.c:334-339 | A child that could not be built becomes unused again. |
| Mlfq.Scheduler.ReapChild | pj1/xv6-public/proc.c:419-438 | wait's scan frees the first dead child, or there is none. |
| Mlfq.Scheduler.CountTick | pj1/xv6-public/trap.c:60-66 | The global tick. |
| Mlfq.Scheduler.ChargeProc | pj1/xv6-public/trap.c:69-72 | A running process is charged one tick. |
| PageTable.PutEntry | pj1/xv6-public/vm.c:75 | Storing one entry of a table changes that entry and no other. |
| PageTable.SetPteLookup | pj1/xv6-public/vm.c:75 | Writing one page-table entry changes the translation of one page of one address space. |
| PageTable.AddTable | pj1/xv6-public/vm.c:46-54 | A fresh zeroed table changes no translation. |
| PageTable.LeafAdded | pj1/xv6-public/vm.c:75 | A page entering a map keeps every page owned once. |
| PageTable.LeafDropped | pj1/xv6-public/vm.c:274-275 | So does a page leaving one. |
| PageTable.NewDir | pj1/xv6-public/vm.c:124-126 | A zeroed page becomes a directory that maps nothing. |
| PageTable.DropDir | pj1/xv6-public/vm.c:290-297 | Giving up a directory and its tables at once keeps the ownership of everything else. |
| VmSpec.FreeListPop | pj1/xv6-public/kalloc.c:88-90 | Taking the head leaves a list of exactly the other free pages. |
| VmSpec.FreeListPush | pj1/xv6-public/kalloc.c:72-74 | Freeing a page adds exactly that page. |
| VmSpec.PagesIn | pj1/xv6-public/vm.c:67-68 | The pages a byte range touches, from its first to its last address. |
| VmSpec.SetPteIsMapped | pj1/xv6-public/vm.c:70-75 | One turn of mappages maps one page and changes nothing else. |
| VmSpec.JumpMissesNothing | pj1/xv6-public/vm.c:267-268 | The jump of deallocuvm over the rest of a missing table's range skips no mapped page. |
| VmSpec.EntryCleared | pj1/xv6-public/vm.c:269-276 | Freeing the page and clearing its entry unmaps that page alone. |
| VmSpec.UnmappedMore | pj1/xv6-public/vm.c:264-277 | Consecutive ranges add up. |
| VmSpec.GivingEnds | pj1/xv6-public/vm.c:289-297 | When the last table and the directory are freed, exactly the pages of the address space are free. |
| VmBuild.InstallIsDone | pj1/xv6-public/vm.c:239-246 | A page handed to mappages belongs to the map afterwards. |
| VmBuild.ExtendedUnmapped | pj1/xv6-public/vm.c:233-234 | Taking the new pages back after a failure takes every page of the range, new or not. |
| VmBuild.WithdrawnNothing | pj1/xv6-public/vm.c:233-234 | If the range was unmapped before, at most page tables are left behind. |
| VmBuild.BuiltThenGone | pj1/xv6-public/vm.c:343-345 | Building an address space and giving it up is as if nothing had happened: same owners, same free pages. |
| VmBuild.KmapCovers | pj1/xv6-public/vm.c:105-116 | The four lines of kmap cover exactly the kernel's pages, with the device line ending at the top of the address space. |
| VmBuild.KernelUpToMore | pj1/xv6-public/vm.c:129-135 | After each line the kernel's entries up to there are in place. |
| VmBuild.CopiedMore | pj1/xv6-public/vm.c:323-338 | Copying one page adds a page with the same contents and flags. |
| VmCopy.PatchIsWritten | pj1/xv6-public/vm.c:381 | A write inside one user page is seen at its addresses and nowhere else. |
| VmCopy.WrittenMore | pj1/xv6-public/vm.c:373-386 | Writes across page boundaries add up to one flat write. |
| VmCopy.NoSharing | pj1/xv6-public/vm.c:312-345 | No physical page is used by two user pages, or by a page and a table. |
| VmRuns.StepHeld | pj1/xv6-public/vm.c:117-386 | Nothing done to an address space, successful or not, takes or leaves a page in the kernel's hands; only the kernel's own kalloc and kfree do. |
| VmRuns.NothingLost | pj1/xv6-public/vm.c:281-298 | After any run of setupkvm, allocuvm, deallocuvm, copyuvm, copyout, freevm, kalloc and kfree, failures included, that has given up every address space, each page is free or in hand as the run's own kallocs and kfrees say. |
| VmRuns.BackToStart | pj1/xv6-public/vm.c:281-298 | From no address space to no address space, with every page that was taken given back, exactly the pages that were free are free. |
| VmRuns.StepKeepsUser | pj1/xv6-public/vm.c:117-386 | A step for one address space, or for none, changes no user page and no user byte of another. |
| VmRuns.Isolation | pj1/xv6-public/vm.c:117-386 | Over any run without a step for it, the user part of an address space reads the same. |
| VmRuns.KernelIsPrivate | pj1/xv6-public/vm.c:347-359 | With the kernel's part in place uva2ka finds no user page above KERNBASE. |
| VmRuns.RunKeepsKernel | pj1/xv6-public/vm.c:117-136 | In every run each address space keeps the kernel's part, as copyout needs it. |
| Vm.Machine.constructor | pj1/xv6-public/kalloc.c:30-37 | Before the allocator is set up its pages are in hand and the list is empty. |
| Vm.Machine.Kalloc | pj1/xv6-public/kalloc.c:82-95 | kalloc returns a page that was free, or 0 exactly when none is. |
| Vm.Machine.Kfree | pj1/xv6-public/kalloc.c:59-77 | kfree fills the page with junk and puts it on the list; no other page changes. |
| Vm.Machine.KfreeAt | pj1/xv6-public/kalloc.c:59-65 | kfree panics exactly on an address that is no page's start, below the kernel's end or not below PHYSTOP. |
| Vm.Machine.FreeRange | pj1/xv6-public/kalloc.c:46-53 | freerange frees exactly the pages that lie whole between its two addresses, and meets no panic. |
| Vm.Machine.WalkPgdir | pj1/xv6-public/vm.c:32-56 | The walk finds the table of the page, makes it if asked and a page is free, and changes no translation. |
| Vm.Machine.Mappages | pj1/xv6-public/vm.c:58-81 | mappages maps exactly its range, or a prefix of it when memory runs out or it meets a page that is mapped already, on which it panics; it ends even at the top of the address space. |
| Vm.Machine.MapRange | pj1/xv6-public/vm.c:67-80 | Its loop, with addresses that wrap at 2^32. |
| Vm.Machine.FreePage | pj1/xv6-public/vm.c:269-276 | One mapped page is freed and unmapped. |
| Vm.Machine.Deallocuvm | pj1/xv6-public/vm.c:251-279 | Exactly the user pages from PGROUNDUP(newsz) to oldsz are unmapped and free; nothing else changes. |
| Vm.Machine.Freevm | pj1/xv6-public/vm.c:281-298 | Exactly the pages of the address space become free, and the others and their data are untouched. |
| Vm.Machine.Setupkvm | pj1/xv6-public/vm.c:117-136 | A new address space with the kernel's part, made of pages that were free; or nothing at all has changed. |
| Vm.Machine.Allocuvm | pj1/xv6-public/vm.c:219-249 | The size grows by zeroed writable user pages, all of them or none, and only page tables may be left behind; it panics only on a page that is mapped already, and takes such pages away if memory runs out first. |
| Vm.Machine.Copyuvm | pj1/xv6-public/vm.c:313-345 | Equal contents and flags on pages of its own for the first sz bytes; or nothing at all has changed; it panics only on a missing page, and never returns a copy without it. |
| Vm.Machine.Uva2ka | pj1/xv6-public/vm.c:347-359 | uva2ka translates user pages, refuses others, and reads through a null entry where no table exists. |
| Vm.Machine.Copyout | pj1/xv6-public/vm.c:362-386 | A flat update of the user's bytes across page boundaries; a bad page stops it where that page begins. |
| PipeSpec.WriteAddsAtEnd | pj1/xv6-public/pipe.c:83-93 | A region of pipewrite adds a slice of the caller's bytes behind what is buffered, and stops short only when the pipe is full. |
| PipeSpec.ReadTakesFront | pj1/xv6-public/pipe.c:113-117 | A region of piperead takes the front of the buffer, all that is asked for or all there is. |
| PipeSpec.StepKeepsInv | pj1/xv6-public/pipe.c:59-121 | With nobody killed, a sleeping reader means an empty pipe with the write end open, and a sleeping writer a full one with the read end open. |
| PipeSpec.KilledKeepsInvIff | pj1/xv6-public/pipe.c:85-88 | A killed writer breaks that exactly when a reader sleeps and more than PIPESIZE bytes are left to write. |
| PipeSpec.KilledWriterLosesWakeup | pj1/xv6-public/pipe.c:85-88 | A run from an idle empty pipe to a reader asleep beside a full one: the reader sleeps, a writer starts on more than PIPESIZE bytes and is killed. |
| PipeSpec.StepMoves | pj1/xv6-public/pipe.c:77-121 | What a region takes and what is buffered after it is what was buffered before and what it puts in, killed or not. |
| PipeSpec.NothingLostOrReordered | pj1/xv6-public/pipe.c:77-121 | Over any run, whoever is killed, awake or asleep, what the readers got followed by what is buffered is what was buffered followed by what the writers put in, and never more than PIPESIZE bytes wait. |
| PipeSpec.RunKeepsInvIff | pj1/xv6-public/pipe.c:59-121 | Nobody ever sleeps without a reason in a run if and only if no killed writer with more than PIPESIZE bytes left runs beside a sleeping reader. |
| PipeSpec.NoDeadlock | pj1/xv6-public/pipe.c:84-91 | A reader and a writer are never asleep on the same pipe. |
| PipeSpec.FreedUnused | pj1/xv6-public/pipe.c:70-72 | Once both ends are closed nobody is inside a call on the pipe and no region follows, granted that the reference counts of open files, which are not modelled, close an end only with nobody inside. |
| Pipe.Slot | pj1/xv6-public/pipe.c:93 | The slot of a counter is the same after the counter has wrapped. |
| Pipe.Tests | pj1/xv6-public/pipe.c:84 | The full and the empty test are right on wrapped counters. |
| Pipe.Pipe.constructor | pj1/xv6-public/pipe.c:32-35 | A new pipe is empty with both ends open. |
| Pipe.Pipe.Close | pj1/xv6-public/pipe.c:59-75 | pipeclose closes one end, wakes the other side, and gives the page back exactly when both ends are closed. |
| Pipe.Pipe.Write | pj1/xv6-public/pipe.c:77-98 | pipewrite up to where it sleeps or returns, on the ring buffer. |
| Pipe.Pipe.Read | pj1/xv6-public/pipe.c:100-121 | piperead likewise. |
| Grep.OneCharacter | pj1/xv6-public/grep.c:93-94 | A token of fixed length consumes one character. |
| Grep.Match | pj1/xv6-public/grep.c:72-82 | match is true exactly when the pattern's tokens cut some stretch of the text into fitting pieces, from the start of the text after ^. |
| Grep.MatchHere | pj1/xv6-public/grep.c:84-96 | matchhere decides whether the rest of the pattern matches at a position; it ends. |
| Grep.MatchStar | pj1/xv6-public/grep.c:98-106 | matchstar decides the same for a starred character followed by the rest. |
| ShSpec.LinePrinted | pj1/xv6-public/sh.c:344-437 | Every command tree is the meaning of a line: parsing the printed tree gives the tree back. |
| ShSpec.SimplePrinted | pj1/xv6-public/sh.c:399-437 | The same for simple commands, with parentheses and redirections. |
| ShSpec.LineConsumes | pj1/xv6-public/sh.c:344-437 | The arguments and file names of the tree are exactly the words of the line. |
| Sh.LexWords | pj1/xv6-public/sh.c:265-308 | Every word found is a whole word: it neither starts nor ends inside another. |
| Sh.WordsSurvive | pj1/xv6-public/sh.c:449-493 | A NUL at every word's end cuts no word short: each reads as the slice that was found. |
| Sh.Parser.Peek | pj1/xv6-public/sh.c:310-320 | peek skips blanks only, and tells the first character of the next token. |
| Sh.Parser.GetToken | pj1/xv6-public/sh.c:265-308 | gettoken returns the next token of the line and moves past it. |
| Sh.Parser.ParseRedirs | pj1/xv6-public/sh.c:374-397 | parseredirs reads the redirections the grammar reads there, and panics where it has none. |
| Sh.Parser.ParseArgs | pj1/xv6-public/sh.c:423-436 | The loop of parseexec keeps argv within MAXARGS and agrees with the grammar. |
| Sh.Parser.ParseBlock | pj1/xv6-public/sh.c:399-413 | parseblock agrees with the grammar. |
| Sh.Parser.ParseExec | pj1/xv6-public/sh.c:415-437 | parseexec agrees with the grammar, panics included, and ends. |
| Sh.Parser.ParsePipe | pj1/xv6-public/sh.c:361-372 | So does parsepipe. |
| Sh.Parser.ParseLine | pj1/xv6-public/sh.c:344-359 | So does parseline. |
| Sh.Parser.NulTerminate | pj1/xv6-public/sh.c:449-493 | A NUL is written at the end of every word of the tree and nowhere else. |
| Sh.Parser.ParseCmd | pj1/xv6-public/sh.c:327-342 | parsecmd returns the tree of the line or panics; afterwards every argument and file name is a C string equal to the slice found. |

## Left out

- Device drivers, interrupt and boot code, context switching: the disk is an array of blocks, and a block write is atomic.
- Spinlocks and memory ordering: what happens between acquire and release is one step.
- Sleeping inside an operation: begin_op, pipewrite and piperead are modelled up to where they sleep, and again from there when woken; acquiresleep only where the lock is free.
- Interleaving inside the class `Log`: its methods run to completion between two steps of the protocol machine, on a cache nobody else uses; the interleavings of operations are those of `LogProtocol`, and those of cache users those of `CacheSpec`.
- The third project's log.c and its `sync`: there an operation is no longer waited for, so that code does not promise what the first project's does. Its file system marks buffers dirty where the first project's logs them; blocks are an array here, and the ghost sets of logged blocks stand for both.
- The third project's itrunc beyond what `FsTrunc.TruncationIsCompleteIff` says of it, symbolic links, which keep text in their addresses, and device files.
- The layout of an inode on disk: iupdate copies addresses and size to a second pair of fields of the inode, and the number of the inode block that it logs is a parameter.
- CrashFiles.CrashKeepsForest: takes it as given that the cached blocks hold a forest at every commit; `FsOnDisk.WrittenInodesAreConsistent` and the methods of `FileSystem` say when they do, but the two run on separate models of the disk.
- FileRuns.PlannedWriteFits: the order of the log_write calls is that of writei, with iupdate at its end; the sets that `FileWrite.Filewrite` returns do not record it.
- `ip->addrs` is a sequence that is reassigned, not an array of its own.
- mkfs: the initial disk is any disk with a well-formed forest and the blocks below the data area marked in use.
- ialloc, directories, path names and link counts.
- FileWrite.Filewrite: the case where the file is a pipe or neither is left to its other models; a full disk ends it in balloc's panic, of which it says only that the disk is full.
- The scheduler with scheduler_locked set, schedulerLock and schedulerUnlock: unlocking pushes a process that may still be on a list without taking it off, so the queue invariant does not extend to them.
- The list fields `next` and `already_enqueued` of struct proc are arrays of their own beside the rest of the process.
- Stacks, contexts, open files and memory of a process; a process id that wraps.
- The second project's threads.
- Pointers to physical pages are page numbers inside vm.c's model: the additions of KERNBASE in P2V and V2P are not modelled there.
- Vm.Machine.Kfree: takes the number of a page that kalloc manages and that somebody holds; the tests of the address are those of `Machine.KfreeAt`.
- Loading of program segments, clearpteu, the TLB and switching of page tables.
- Vm.Machine.Mappages: asks for a range of virtual and of physical addresses that does not wrap.
- Umalloc.Allocator.Free: asks for a block that malloc returned; a program that frees anything else is not modelled.
- grep's buffer, which it fills read by read; only the matcher is modelled.
- Running of commands, reading of lines, and the file descriptors behind them in sh.c.
- Sh.Parser.ParseCmd: nodes of the tree are values, so the list of arguments is put into its node when it is complete, where the source fills a node that redirections already point to; memory for nodes does not run out.
- ELF loading, system call arguments, and the user programs not named above.
