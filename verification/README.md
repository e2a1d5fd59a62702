# xv6: crash safety, files, memory, processes and the shell

A Dafny model of the parts of xv6 (32-bit x86) whose correctness does not show in any
one function: the write-ahead log over the buffer cache, files and directories over the
log, the K&R heap, page tables, the process table with sleep and wakeup, pipes, the
inode cache, the shell parser and grep's matcher.

Each component has a specification on values (modules named `...Spec`, `...Ops`) and,
where the C code works by changing state, a class whose methods follow the C functions
and are proved against that specification. The theorems are about the specification:
what every step keeps, and what that means over whole runs. Sizes such as LOGSIZE, NBUF,
NDIRECT and PIPESIZE are symbolic; `Params` states the relations between them that the
code relies on. Integers are unbounded in Dafny, so 32-bit sums, signed arguments and
wrapping counters are written out wherever the code depends on them.

How the modules fit together:

- `Blocks` (bytes, words, block offsets), `Params`, `Seqs`: shared vocabulary.
- `LogSpec` (a commit and a recovery as lists of single-block writes, cut anywhere),
  `LogOps` (begin_op, log_write and end_op interleaved), `Log` (log.c as a class).
- `Bio` (bio.c and memide.c as a class), `LogCache` (the log's view of the disk is the
  cache's), `LogBuffers` (commit through the cache's own bread, bwrite and brelse).
- `FsSpec`, `FsData`, `FsOps` (bitmap, bmap, readi, writei, itrunc), `FsRuns` (runs of
  them), `FsSpace` (the blocks they take), `Files` (fs.c as a class), `Mkfs` (the first
  image).
- `DiskFormat` (bits, inode records and data blocks on disk), `CrashFiles` and `DiskRuns`
  (files over a disk that crashes), `DiskOps` (the block updates each operation logs),
  `DiskHistory` and `DiskBoot` (transactions made of them, from mkfs on).
- `Dir` (the directory tree and link counts), `DirAnswers` (what the calls answer, and a
  directory as a map), `Sysfile` (create, link, unlink as a class).
- `IcacheSpec`, `Icache`: the inode cache.
- `Umalloc` (free list, and umalloc.c as a class), `HeapRuns`.
- `VmSpec`, `VmOps`, `VmCopy` (frames, tables, growing, shrinking, copying), `Spaces`
  (address spaces over runs), `Vm` (vm.c, kalloc.c, growproc and exec's set-up as a class).
- `Sleep`, `ProcSpec`, `ProcWait`, `Proc`, `Pipe`.
- `ShSpec`, `Sh` (the parser), `ShRound` (full parentheses), `ShGrammar` (the grammar on
  tokens), `ShText` (spacing, and the fewest parentheses); `Grep`.

## Findings

Places where the code does not meet the property one would expect. Each is kept as the
code has it; a lemma shows the failing input or run, and another says exactly when the
property holds.

- The log region mkfs makes is one block short of what begin_op reserves (log.c:215,
  mkfs.c:25): a process with budget to spare can be made to panic in log_write if and only
  if the region has at most LOGSIZE blocks (`LogOps.SpareWritePanicsIff`).
- log_write checks for room before it looks for a block already listed (log.c:215-224):
  in a large enough region a write within its operation's budget panics if and only if the
  log is full, and then it rewrites a block the operation has logged before
  (`LogOps.BudgetedWritePanicsIff`, reached by `LogOps.AbsorbedWriteCanPanic`).
- mkfs rounds the root directory up by a whole block when it ends on a block boundary
  (mkfs.c:161): the image has a hole if and only if the length written to the root is a
  multiple of BSIZE (`Mkfs.MadeIsGoodIff`, made by `Mkfs.FullRootHasHole`). Reading the
  root then allocates (`Mkfs.RootReadIff`). In general a read changes nothing if and only if
  every byte in its range has a block, and the inode on disk, which readi does not update,
  still agrees if and only if no gap was among the inode's own addresses
  (`FsSpace.ReadAllocatesIff`); fileread calls readi outside any operation (file.c:106), and
  with none outstanding it completes if and only if there is no gap in the range
  (`FsSpace.ReadOutsideIff`).
- NBUF equals LOGSIZE (param.h:11-12), and commit needs a buffer beside those it has pinned:
  alone with the cache it panics with "bget: no buffers" if and only if as many blocks are
  listed as there are buffers (`LogBuffers.Commit`). In the region mkfs makes that many
  cannot be listed; in one with room for LOGSIZE blocks they can.
- A failed setupkvm leaks its directory and tables, and a failed copyuvm the frame it could
  not map (vm.c:139-141, vm.c:336-337): `Vm.Memory.Setupkvm` and `Vm.Memory.Copyuvm` say
  exactly what.
- create and link add entries to a removed directory that is still somebody's current
  directory: the tree and the link counts survive if and only if the directory is linked
  (`Dir.CreateNeedsLinked`, `Dir.LinkNeedsLinked`, reached by `Dir.RemovedInUse`).
- ".." of such a directory can name a free inode (`Dir.DotDotNamesFree`), and ilock
  panics on it (fs.c:292-293): it does so if and only if, when ilock gets I_BUSY, the entry
  is not valid and the inode is free on disk, and ialloc does not hand the number out before
  the disk read (`IcacheSpec.IlockPanicsIff`, reached by `IcacheSpec.FreedInodeIsLocked`,
  and by a call that waits for iput in `IcacheSpec.WaiterIsLocked`).
- malloc's unit count is too small if and only if its 32-bit sum wraps
  (`Umalloc.NunitsSuffices`), and morecore asks sbrk for something else than it means if
  and only if the bytes do not fit a signed int (`Umalloc.SbrkAskedIff`, inputs in
  `Umalloc.SbrkMisasked`).
- deallocuvm jumps 4 MB from wherever it is when a table is missing (vm.c:269): the range
  is emptied if and only if no page it jumps over was mapped (`VmOps.EmptiesRangeIff`),
  which it always is from an aligned start (`VmOps.AlignedSkipsNothing`).
  `VmOps.UnalignedStartSkips` is a memory where a page stays mapped. No space reached by
  runs of exec, fork, sbrk and exit meets this case (`Spaces.ShrinkEmpties`).
- growproc down to size 0 frees the pages and reports failure, and below 0 it does nothing
  and reports success (proc.c:122-125): both conditions are exact in `Vm.Memory.Growproc`.
- kill marks an unused slot if and only if an unused slot carries that pid, 0 or one left
  behind by a failed allocproc (`ProcSpec.KillMarksUnusedIff`). A step leaves an unused slot
  marked if and only if it is such a kill (`ProcSpec.StepMarksIff`); without one no child is
  ever born killed (`ProcSpec.ChildrenBornAlive`), with one it can be
  (`ProcSpec.ChildBornKilled`). A fork without a kernel stack leaves such a pid behind
  (`ProcSpec.StalePidKilled`).
- A killed writer leaves a full pipe without waking its reader (pipe.c:85-88): a step
  leaves a sleeper without a wakeup if and only if it is that one (`Pipe.StepStrandsIff`,
  run in `Pipe.KilledWriterStrandsReader`).
- A command parses back if and only if no EXEC in it has ten or more arguments, however it
  is bracketed and spaced (`ShRound.RoundTrip`, `ShText.LeastRoundTrip`).

## Model

| member | source | states |
|---|---|---|
| LogSpec.RecoverPrefix | log.c:68-121 | Recovery cut after any number of its writes still recovers to the same disk; uncut, the home blocks are that disk and the log is empty. |
| LogSpec.RecoveryIsIdempotent | log.c:114-121 | However often recovery itself crashes and is restarted, it ends at the disk the log promised. |
| LogSpec.BeforeCommitPoint | log.c:174-193 | A crash before the header write recovers to the old disk. |
| LogSpec.AfterCommitPoint | log.c:194-197 | A crash at or after the header write recovers to the disk with every logged block installed. |
| LogSpec.CommitIsAtomic | log.c:189-199 | For every transaction, every cut between two block writes and any crashes during recovery, the home blocks are the old disk or the new one, the new one exactly when the header write was made. |
| LogSpec.EventRefines | log.c:189-199 | One commit, or one crash and recovery, does to the home blocks what the transaction happening wholly or not at all does. |
| LogSpec.RunRefines | log.c:68-199 | The same over every history of commits and crashes. |
| LogSpec.WriteHead | log.c:100-112 | Reading back the header written gives the list; words of the block beyond the list stay. |
| LogOps.WakeupDelivered | log.c:157-169 | Ending an operation that is not the last, and ending a commit, leave nobody asleep in begin_op. |
| LogOps.ReachableLog | log.c:124-230 | Over every interleaving of operations within their budget: listed plus reserved blocks stay within LOGSIZE, listed blocks are distinct, a commit excludes operations, an idle log is empty, end_op's panic is unreachable, and a sleeper is owed a wakeup. |
| LogOps.AdmittedIff | log.c:124-140 | In every reachable state begin_op admits an operation if and only if no commit is running and there is room for one more full budget beside those inside. |
| LogOps.IdleAdmits | log.c:124-140 | An idle log admits whoever comes first. |
| LogOps.SpareWritePanicsIff | log.c:215 | Some run makes log_write panic on a process with budget to spare if and only if the log region has at most LOGSIZE blocks. |
| LogOps.BudgetedWritePanicsIff | log.c:215-224 | In a larger region a budgeted write panics if and only if the log is full, and only on a block its operation has already logged with its budget used up. |
| LogOps.AbsorbedWriteCanPanic | log.c:215-224 | A run that reaches that panic, for every larger region. |
| Log.Log.InstallTrans | log.c:68-81 | The listed home blocks become the copies in the log; the writes are exactly those, in order, and the buffers are clean. |
| Log.Log.ReadHeader | log.c:84-95 | The list in memory is the one on disk. |
| Log.Log.WriteHeader | log.c:100-112 | One write: the header block now lists the blocks in memory. |
| Log.Log.RecoverFromLog | log.c:114-121 | The writes are those of recovery in LogSpec, and afterwards the log is empty on disk and in memory. |
| Log.Log.BeginOp | log.c:124-140 | Enters or must sleep as the shared-state step of LogOps says. |
| Log.Log.EndOp | log.c:144-161 | Panics, leaves, or leaves last and must commit, as the step of LogOps says. |
| Log.Log.WriteLog | log.c:174-187 | The log region holds what the cache holds for each listed block. |
| Log.Log.Commit | log.c:189-199 | The writes are exactly those CommitIsAtomic cuts; afterwards nothing is pinned and readers of home blocks see what they saw before. |
| Log.Log.LogWrite | log.c:210-230 | Panics as LogOps says; otherwise the block is listed once and readers see the new contents, nothing else changing. |
| Bio.Unlink | bio.c:131-132 | Joining a node's neighbours leaves a ring of the others in the same order. |
| Bio.LinkFront | bio.c:133-136 | Linking a free node behind the head leaves a ring with it first. |
| Bio.Recycle | bio.c:86-93 | Giving a buffer that is neither busy nor dirty to another block keeps the cache coherent with the disk it stands for. |
| Bio.Store | bio.c:112-119 | Writing a busy buffer through, or pinning it dirty, changes that disk in one block and keeps coherence. |
| Bio.Bcache.constructor | bio.c:39-57 | All buffers form one ring and the cache stands for the disk given. |
| Bio.Bcache.Bget | bio.c:62-96 | The block's buffer, or the least recently used one neither busy nor dirty and re-aimed; sleeps only on a busy buffer; panics only if none can be taken. |
| Bio.Bcache.Iderw | memide.c:37-59 | Dirty goes to disk, otherwise disk comes to the buffer; panics exactly on an idle, already valid, wrong-device or out-of-range buffer. |
| Bio.Bcache.Bread | bio.c:99-109 | Returns the last contents logged or written to the block; its failures and sleeps are exact and no other buffer changes. |
| Bio.Bcache.Bwrite | bio.c:112-119 | Panics exactly on a buffer not busy or out of range; otherwise the disk and what it stands for get the buffer's data in that block only. |
| Bio.Bcache.MarkLogged | log.c:228 | The new contents count for readers and the buffer stays until written. |
| Bio.Bcache.Brelse | bio.c:123-142 | Panics exactly on an idle buffer; otherwise the buffer is idle and first in the ring, the others in their old order. |
| LogCache.StepKeeps | bio.c:62-142 | Filling, releasing, recycling, logging and writing buffers keep the pinned blocks equal to the dirty buffers, with the contents logged. |
| LogCache.ViewsAgree | log.c:174-230 | Over every run the disk as the log shows it equals the disk as bread shows it, and every logged block's buffer is still cached. |
| LogCache.FreshOk | bio.c:39-57 | A fresh cache with nothing pinned is where such a run can start. |
| LogBuffers.NoneLeftIff | bio.c:83-95 | With no buffer busy, bget finds none for a new block if and only if as many blocks are pinned as there are buffers. |
| LogBuffers.WriteLog | log.c:174-187 | Through the cache: panics if and only if as many blocks are listed as there are buffers; otherwise the disk writes are the copies of LogSpec and everything stays pinned. |
| LogBuffers.InstallTrans | log.c:68-81 | Through the cache, with fewer blocks pinned than buffers: every listed block comes home and is clean, and no buffer runs out. |
| LogBuffers.Commit | log.c:189-199 | Through the cache: panics if and only if as many blocks are listed as there are buffers; otherwise the disk writes are exactly those CommitIsAtomic cuts and readers of home blocks see what they saw. |
| FsSpec.InvMeans | fs.c:53-93 | The ownership invariant says: a bit is set exactly for metadata and blocks some slot holds, and no block is held twice. |
| FsSpec.GetSlotKeeps | fs.c:363-378 | Reading or filling one direct or indirect slot keeps the invariant and fills at most that slot. |
| FsSpec.BmapKeeps | fs.c:356-384 | bmap keeps the invariant, returns the block its slot now holds, and fills slots only. |
| FsData.PutWrote | fs.c:479-485 | writei's copy loop puts the data at its offsets across blocks and changes no other byte of any file. |
| FsData.PutInside | fs.c:479-485 | Writing below the mapped length allocates nothing and cannot panic. |
| FsOps.RefusesExactly | fs.c:474-477 | The 32-bit checks refuse exactly writes that start past the end or would pass the largest file. |
| FsOps.WriteInPlace | fs.c:487-490 | A write below the size, which skips iupdate, leaves bitmap and inodes alone, so the inode on disk equals the one in memory. |
| FsOps.WriteiRefines | fs.c:462-492 | writei is an overwrite of a byte sequence, extending it if need be; no other file changes and no hole appears. |
| FsOps.ReadiRefines | fs.c:434-458 | readi returns the bytes of that sequence in the range asked for, or refuses, and changes nothing. |
| FsOps.TruncateKeepsInv | fs.c:391-419 | Giving back an inode's blocks keeps the ownership invariant. |
| FsOps.TruncateRefines | fs.c:391-419 | Truncation empties that file only. |
| FsRuns.RunKeepsInv | fs.c:356-492 | Every run of reads, writes and truncations keeps the ownership invariant, holes or not. |
| FsRuns.RunRefines | fs.c:356-492 | On a file system without holes every run does to the files what the same operations do to plain byte sequences. |
| FsSpace.WritePanicsIff | fs.c:356-384 | writei runs out of blocks if and only if the empty slots among those its bytes and the indirect block need outnumber the free blocks. |
| FsSpace.ReadAllocatesIff | fs.c:434-458 | readi takes one block for each gap in its range and runs out if and only if there are too few; it changes nothing if and only if there is no gap; the inode on disk agrees afterwards if and only if no gap was among the inode's own addresses. |
| FsSpace.ReadOutsideIff | file.c:106 | With no operation outstanding, a read completes if and only if there is no gap in its range. |
| FsSpace.WholeReadIff | fs.c:434-458 | Reading a whole file changes nothing if and only if it has no hole. |
| Files.FileSystem.Balloc | fs.c:53-75 | The first clear bit, set, its block zeroed; panics exactly when all are set. |
| Files.FileSystem.Bfree | fs.c:78-93 | Clears the bit; panics exactly on a clear one. |
| Files.FileSystem.Bmap | fs.c:356-384 | The block of FsSpec.Bmap and its state, or a panic in the same cases. |
| Files.FileSystem.Itrunc | fs.c:391-419 | Exactly the inode's blocks are given back, and "freeing free block" is never reached. |
| Files.FileSystem.Readi | fs.c:434-458 | The outcome and bytes of FsOps.Readi in every branch. |
| Files.FileSystem.Writei | fs.c:462-492 | The outcome and state of FsOps.Writei in every branch. |
| Files.FileSystem.Iupdate | fs.c:199-215 | The inode on disk becomes the one in memory, no other changing. |
| Mkfs.Image.Bmap | mkfs.c:271-286 | Taking the next block in order gives what bmap's first clear bit would. |
| Mkfs.Image.Iappend | mkfs.c:255-297 | The image becomes the one with the data appended to the file, or mkfs stops. |
| Mkfs.Image.BitmapBits | mkfs.c:238-251 | The bits set are those of the blocks given out. |
| Mkfs.RoundUpIs | mkfs.c:161 | The rounding modelled is the expression of the code. |
| Mkfs.AppendAllContent | mkfs.c:120-156 | Each file holds what was appended to it, in order. |
| Mkfs.MadeIsGoodIff | mkfs.c:117-165 | The image satisfies the ownership invariant, and has no hole if and only if the bytes written to the root do not end on a block boundary. |
| Mkfs.MadeContents | mkfs.c:117-165 | The finished image holds the files given; the root begins with its entries. |
| Mkfs.FullRootHasHole | mkfs.c:158-163 | Entries that fill one block exactly make an image with a hole. |
| Mkfs.RootReadIff | mkfs.c:158-163 | Reading the whole root directory of an image changes nothing if and only if the bytes written to it do not end on a block boundary. |
| Mkfs.NoBlockShared | mkfs.c:237-297 | From any image mkfs makes, after any run: a bit is set exactly for metadata and held blocks, and no two slots hold one block. |
| Mkfs.FilesAreSequences | fs.c:356-492 | From any image without a hole, every run keeps files without holes, inodes on disk as in memory, and contents as plain sequences give. |
| DiskFormat.IsDivMod | fs.h:37-47 | The quotients and remainders modelled are those of IPB, IBLOCK, BPB and BBLOCK. |
| DiskFormat.SetBitReads | fs.c:63-65 | Setting or clearing one bit of a bitmap block changes that bit only. |
| DiskFormat.PutInodeReads | fs.c:205-212 | Writing an inode record into its block makes it read back and leaves the other records. |
| DiskFormat.WriteBitIs | fs.c:53-93 | On the whole disk, that changes exactly one bit of the file system the disk stands for. |
| DiskFormat.WriteInodeIs | fs.c:199-215 | iupdate changes exactly one inode of it. |
| DiskFormat.WriteDataIs | fs.c:479-485 | Writing a data block changes exactly that block of it. |
| DiskFormat.StoreReadsBack | fs.h:8-47 | Every file system the disk can hold, stored bit by bit, inode by inode and block by block, reads back as itself. |
| CrashFiles.FilesSurviveCrashes | log.c:68-199 | For every on-disk format outside the log and transactions whose logged blocks are what their operations make of the disk: after any history of commits and crashes the file system is good and its files are what the committed operations, whole and in order, make of them. |
| DiskRuns.RunMeta | fs.c:356-492 | Runs of file operations write no data into metadata blocks. |
| DiskRuns.RunCanBeStored | fs.c:199-215 | What a run of operations makes of the file system on a disk can be stored on that disk. |
| DiskRuns.DecodeReadsHome | fs.h:8-21 | Bitmap, inodes and data lie outside the log. |
| DiskRuns.DiskSurvivesCrashes | log.c:68-199 | The same in the format of fs.h, for transactions whose logged blocks are what their operations make of the disk; DiskHistory shows which those are. |
| DiskOps.UpdateShows | fs.c:53-93 | One update of a bit, an inode record or a data block changes the file system on disk in that one place, and no other block. |
| DiskOps.PutMakes | fs.c:479-485 | The updates of writei's loop, in the order they are logged, make of the disk what the loop makes of the file system. |
| DiskOps.TruncMakes | fs.c:391-419 | So do those of itrunc. |
| DiskOps.RunMakes | fs.c:356-492 | So do those of every run of reads, writes and truncations on a file system without holes. |
| DiskHistory.ListingInstalls | log.c:210-230 | Listing each updated block once and logging it as the last update left it makes all the updates. |
| DiskHistory.GroupDoes | log.c:124-230 | The transaction so made of a group of operations that fits the log does exactly those operations. |
| DiskHistory.FilesOnDiskSurvive | log.c:68-230 | Over every history of such groups, each finished or cut by a crash at any block write: the disk is mountable, no block is shared, no file has a hole, and the files are what the committed groups make of them. |
| DiskBoot.MadeDiskIs | mkfs.c:82-165 | The disk mkfs writes is mountable, its log is empty, and it stands for the image. |
| DiskBoot.FromMkfs | mkfs.c:82-165 | From that disk, over every such history, the files are what the committed groups make of the files mkfs was given. |
| Dir.LookupSound | sysfile.c:204-209 | A name found in a good file system lies behind the dots and its inode is in use with a link, so unlink's panic is unreachable. |
| Dir.EmptyDirIsLeaf | sysfile.c:165-178 | A directory whose entries behind the dots are empty has no child. |
| Dir.MakeKeepsInv | sysfile.c:258-276 | create in a linked directory keeps the tree and every link count. |
| Dir.LinkBeginKeepsInv | sysfile.c:137-139 | The first half of link keeps them, counting one link in progress. |
| Dir.LinkEndKeepsInv | sysfile.c:144-149 | The entry turns that link into a counted one. |
| Dir.LinkUndoKeepsInv | sysfile.c:155-159 | The failure path takes it back. |
| Dir.EraseKeepsInv | sysfile.c:215-226 | unlink of a file or an empty directory keeps them. |
| Dir.ReleaseKeepsInv | fs.c:321-329 | iput may free what has no links. |
| Dir.CallKeepsInv | sysfile.c:115-281 | Every call keeps the invariant. |
| Dir.TreeAndCounts | sysfile.c:115-281 | Over every run that adds entries to linked directories only: linked directories reach the root through unique parents, each inode's nlink is the number of entries naming it plus links in progress, and no entry names a free inode. |
| Dir.CreateNeedsLinked | sysfile.c:258-276 | create keeps the invariant if and only if the directory is still linked. |
| Dir.LinkNeedsLinked | sysfile.c:143-149 | So does the second half of link. |
| Dir.RemovedInUse | sysfile.c:215-226 | A run that reaches a removed directory still in use. |
| Dir.DotDotNamesFree | sysfile.c:215-226 | A run after which ".." of such a directory names a free inode. |
| DirAnswers.AddedMap | fs.c:532-559 | Seen as a map from names to numbers, dirlink adds one pair and changes no other. |
| DirAnswers.ErasedMap | sysfile.c:215-217 | Clearing an entry takes its pair away and changes no other. |
| DirAnswers.CreateAnswers | sysfile.c:238-281 | create succeeds if and only if the name is absent and some inode is free, or a file is asked for and the name is a file's; the number returned is the one the name has afterwards, other names keep theirs. |
| DirAnswers.CreateAgain | sysfile.c:249-256 | A second create of the same name opens the file the first one made, and refuses anything else. |
| DirAnswers.UnlinkAnswers | sysfile.c:181-236 | unlink succeeds if and only if the name is present, no dot, and not a directory's with entries; then the name is gone, other names keep their numbers, and the inode has one link less; its panic is unreachable. |
| DirAnswers.CreateThenUnlink | sysfile.c:181-281 | What create made unlink removes, and every name means what it meant before. |
| Sysfile.Tree.Dirlookup | fs.c:505-529 | The first entry with the name, or none exactly when there is none. |
| Sysfile.Tree.Dirlink | fs.c:532-559 | Fails exactly on a present name; otherwise fills the first empty slot or appends. |
| Sysfile.Tree.Isdirempty | sysfile.c:165-178 | True exactly when every entry behind the dots is empty. |
| Sysfile.Tree.Create | sysfile.c:238-281 | The result and file system of Dir.Create in every branch, which CreateAnswers describes. |
| Sysfile.Tree.LinkRaise | sysfile.c:130-139 | Refuses exactly directories; otherwise one more link. |
| Sysfile.Tree.LinkEntry | sysfile.c:141-161 | Adds the entry, or takes the count back exactly when the name is present. |
| Sysfile.Tree.Unlink | sysfile.c:181-236 | The result and file system of Dir.Unlink in every branch, which UnlinkAnswers describes. |
| IcacheSpec.CacheRuns | fs.c:176-336 | Over every interleaving, whatever numbers are looked up, also when a second reference to a locked inode is put and while iput frees with the lock dropped: counts equal references, live entries are unique, I_BUSY has a holder with a reference, and a valid idle entry equals its inode on disk. |
| IcacheSpec.NeverRecycled | fs.c:228-248 | A referenced entry keeps its key. |
| IcacheSpec.IgetGetsEntry | fs.c:228-248 | In every reachable state with an entry nobody references, or one for the key, iget does not panic. |
| IcacheSpec.IputFindsIdle | fs.c:323-324 | The "iput busy" panic is unreachable. |
| IcacheSpec.LockedStays | fs.c:266-295 | While ilock has an entry busy, others leave it alone, and its inode on disk too, except that ialloc may take it if it is free. |
| IcacheSpec.IlockPanicsIff | fs.c:281-293 | Whatever others do before the disk read, ilock panics if and only if, as it got I_BUSY, the entry was not valid and the inode free on disk, and ialloc has not handed the number out since. |
| IcacheSpec.FreedInodeIsLocked | fs.c:317-336 | A run that reaches that panic. |
| IcacheSpec.WaiterIsLocked | fs.c:276-293 | A run in which ilock is called while the entry is valid and the inode in use, waits for iput, and panics. |
| Icache.Cache.Iget | fs.c:220-251 | The live entry for the key with one more reference, or the first empty slot; panics if and only if every entry is referenced for another key. |
| Icache.Cache.Ialloc | fs.c:176-196 | The first free inode marked on disk and an entry for it; panics if and only if no inode is free, or every entry is referenced for another key. |
| Icache.Cache.IlockTry | fs.c:275-279 | Sets I_BUSY exactly when it was clear. |
| Icache.Cache.IlockRead | fs.c:281-294 | The entry becomes the inode on disk; panics exactly on a free one. |
| Icache.Cache.Iunlock | fs.c:298-308 | Clears I_BUSY; panics exactly when it is clear or the entry is unreferenced. |
| Icache.Cache.IputStart | fs.c:320-326 | Drops a reference, or keeps it and sets I_BUSY for the last reference to an unlinked inode. |
| Icache.Cache.IputFree | fs.c:327-329 | The inode is free in memory and on disk. |
| Icache.Cache.IputEnd | fs.c:330-335 | The entry is idle, not valid and loses a reference. |
| Umalloc.InsertCoalesced | umalloc.c:24-44 | Freeing keeps the list in address order, disjoint and fully coalesced. |
| Umalloc.InsertUnits | umalloc.c:24-44 | Freeing adds exactly the block's units. |
| Umalloc.InsertCovers | umalloc.c:24-44 | A unit is free afterwards exactly if it was free or lies in the block. |
| Umalloc.StopsAtPredecessor | umalloc.c:30-32 | The search condition holds at one node of the ring and no other: the block's predecessor. |
| Umalloc.NoFitAfterLap | umalloc.c:74-88 | A lap that found no fit means there is none. |
| Umalloc.InsertFits | umalloc.c:57-60 | After morecore there is a fit, whatever the new block was merged with. |
| Umalloc.CutAllocates | umalloc.c:75-82 | Taking a block whole or cutting off its end keeps ring, order, coalescing, live blocks apart and the sum of units. |
| Umalloc.NunitsSuffices | umalloc.c:69 | The units hold the request if and only if the 32-bit sum does not wrap. |
| Umalloc.NunitsTight | umalloc.c:69 | When the sum does not wrap, one unit less would not hold the bytes asked for. |
| Umalloc.SbrkAskedIff | umalloc.c:52-54 | sbrk is asked for what morecore means if and only if the bytes fit a signed int. |
| Umalloc.SbrkMisasked | sysproc.c:77-89 | Two request sizes for which it is not. |
| Umalloc.Heap.FindPredecessor | umalloc.c:30-32 | Stops within a lap at the predecessor. |
| Umalloc.Heap.Free | umalloc.c:24-44 | The live block joins the free list as Insert says, freep is its predecessor, and nothing else changes. |
| Umalloc.Heap.Morecore | umalloc.c:46-61 | The memory obtained joins the free list; a failure changes nothing; says exactly when a header is written where no memory was given. |
| Umalloc.Heap.ScanLap | umalloc.c:74-84 | Finds the first block after freep, going round, that is large enough, and its predecessor; none exactly when there is none. |
| Umalloc.Heap.FindFit | umalloc.c:74-89 | Terminates after at most one call of morecore, with a fit unless sbrk fails or gave no memory. |
| Umalloc.Heap.Malloc | umalloc.c:63-90 | Unless a header is written where no memory was given: fails exactly when nothing fits and sbrk fails; otherwise hands out the end of the first block after freep that is large enough, as one new live block of the units asked; the units obtained grow exactly when nothing fitted. |
| HeapRuns.EveryHeap | umalloc.c:24-90 | After every sequence of malloc and free: free blocks ordered with gaps, live blocks overlapping nothing, free plus live units equal to the units obtained. |
| VmOps.UndoGrow | vm.c:236-246 | Growing and shrinking back returns every user frame; at most empty tables stay. |
| VmOps.EmptiesRangeIff | vm.c:266-278 | deallocuvm empties its range if and only if no page it jumps over was mapped. |
| VmOps.AlignedSkipsNothing | vm.c:268-269 | From an aligned start, or one whose table is there, nothing mapped is jumped over. |
| VmOps.UnalignedStartSkips | vm.c:268-269 | A memory meeting the invariant with a mapped page that every deallocuvm from page 5 up leaves mapped. |
| VmOps.SpaceFreed | vm.c:284-299 | freevm's steps together free exactly the frames of that space, once each. |
| VmCopy.PageCopied | vm.c:327-337 | One round of copyuvm adds a page with the parent's bytes and flags on a frame that was free. |
| Spaces.NextKeeps | proc.c:113-177 | sbrk, fork, exec and exit keep the frames partitioned and every space within its size. |
| Spaces.ExecStarts | exec.c:35-66 | A new image beside the spaces there is such a space. |
| Spaces.ShrinkEmpties | vm.c:265-279 | In a space reached by runs, deallocuvm from any smaller size empties the whole range. |
| Spaces.PageZeroNeverMapped | exec.c:38-66 | In every space reached by any run of exec, fork, sbrk and exit, page 0 is unmapped, and so is every page at or above the size. |
| Vm.Memory.Kfree | kalloc.c:59-77 | The frame is first on the free list and filled with junk. |
| Vm.Memory.Kalloc | kalloc.c:82-95 | The first free frame, or none exactly when the list is empty. |
| Vm.Memory.Freerange | kalloc.c:45-52 | Every frame of the range becomes free, none twice. |
| Vm.Memory.Walkpgdir | vm.c:44-64 | The page's table, made on a free frame if asked and missing; fails only without a frame; maps nothing and adds no other table. |
| Vm.Memory.MapPage | vm.c:75-87 | Sets one entry; panics exactly on a present one; fails only when a table is missing and no frame is left. |
| Vm.Memory.Allocuvm | vm.c:222-250 | Adds exactly the pages from the rounded-up old size to the new one on fresh zeroed frames, if and only if enough frames are free for the pages and their missing tables; otherwise every user frame is back. |
| Vm.Memory.Deallocuvm | vm.c:256-280 | Exactly the frames of the pages unmapped become free; other pages and spaces stay, including those jumped over. |
| Vm.Memory.Freevm | vm.c:284-299 | Every user frame, table and the directory become free once; other spaces stay. |
| Vm.Memory.Setupkvm | vm.c:127-143 | A new directory with exactly the kernel's ranges mapped and no user page, taking one frame and one for each table they lie in; gives up only with too few frames, never succeeds with too few, panics only on overlapping ranges; what a failure leaks is such a directory without user pages, unless there was no frame at all. |
| Vm.Memory.Copyuvm | vm.c:316-344 | A successful copy has the parent's bytes and flags at every page from 1 up to the size, on frames disjoint from the parent's; panics only on an unmapped page or overlapping kernel ranges; gives up only with too few frames for the directory, its tables and the pages, never succeeds with too few; a failed copy leaves every frame as it was, but for the one frame in hand or what setupkvm leaked. |
| Vm.Memory.CopyPages | vm.c:326-342 | The loop gives up only when no frame is left, and then there were too few for all pages. |
| Vm.Memory.Growproc | proc.c:113-129 | Growing succeeds if and only if the new size is below KERNBASE and enough frames are free; shrinking fails if and only if the new size is 0, the pages gone all the same; below 0 nothing happens. |
| Vm.Memory.Clearpteu | vm.c:303-312 | The entry loses PTE_U and keeps its frame and other flags; every other entry of the space stays. |
| Vm.Memory.ExecImage | exec.c:35-66 | Unless kernel ranges overlap, succeeds if and only if every segment passes exec's checks, the image and its stack end below KERNBASE, and there are frames for the directory, its tables and all pages; then its size is two pages above the highest segment, every page from 1 up is mapped, the top one is the stack and the one below it out of the user's reach; a failed image gives every frame back, but for what setupkvm leaked. |
| Vm.Memory.LoadSegment | exec.c:45-54 | One segment is loaded if and only if it passes the checks and there is room and frames for the image up to its end; the size becomes the larger of what it was and that end. |
| Vm.ExtentIs | exec.c:49 | The size threaded through the loop is the largest of a page and every segment's end. |
| Sleep.NoLostWakeup | proc.c:382-437 | In every interleaving, a process asleep on the channel while the condition holds is owed a wakeup by a process that is awake, and each lock has one holder. |
| ProcSpec.ExitedSlot | proc.c:182-222 | What exit does to each slot: children go to init, the parent and, if a zombie is passed on, init wake up. |
| ProcSpec.ProcessRuns | proc.c:134-265 | Over every run: a process's parent is neither unused nor a zombie, nobody sleeps in wait with a zombie child, and each exited process is reaped at most once and a zombie until then. |
| ProcSpec.KillMarksUnusedIff | proc.c:442-460 | Over every run, kill marks an unused slot if and only if an unused slot carries the pid. |
| ProcSpec.KillReaches | proc.c:442-460 | Over every run, killing the pid of a process in use marks that process, makes it runnable if it sleeps, and changes nobody else. |
| ProcSpec.StepMarksIff | proc.c:447-453 | A step keeps every unused slot unmarked if and only if it is not a kill of an unused slot's pid. |
| ProcSpec.ChildrenBornAlive | proc.c:134-177 | Over every run without such a kill no unused slot is marked, and the child of the next fork is not killed. |
| ProcSpec.ChildBornKilled | proc.c:448-450 | A run from boot: kill(0), then a fork whose child is born killed. |
| ProcSpec.StalePidKilled | proc.c:46-54 | A run from boot: a fork without a kernel stack leaves its pid in an unused slot, where kill finds it. |
| ProcWait.WaitAnswers | proc.c:226-265 | Over every run: wait reaps a zombie child if there is one; else answers -1 if and only if there is no child or the caller is killed; else sleeps, with a living child. |
| ProcWait.SleepersHaveChildren | proc.c:226-265 | In every reachable state whoever sleeps in wait has a living child to wake them. |
| Proc.Ptable.Allocproc | proc.c:35-76 | The first unused slot with a new pid; what a failure leaves behind. |
| Proc.Ptable.Fork | proc.c:134-177 | The table of ProcSpec.Forked and the child's pid, or -1 exactly when there is no slot or stack. |
| Proc.Ptable.Exit | proc.c:182-222 | The table of ProcSpec.Exited; panics exactly for init. |
| Proc.Ptable.Wait | proc.c:226-265 | The outcome and table of ProcSpec.WaitPass, which WaitAnswers describes. |
| Proc.Ptable.Wakeup1 | proc.c:420-428 | Exactly the sleepers on the channel become runnable. |
| Proc.Ptable.Kill | proc.c:442-460 | The table of ProcSpec.Killed; -1 exactly when no slot has the pid. |
| Pipe.SlotSurvivesWrap | pipe.c:92 | Reducing a counter to 32 bits does not move its slot. |
| Pipe.CountersTell | pipe.c:84 | The 32-bit comparisons tell full and empty exactly. |
| Pipe.StepStrandsIff | pipe.c:85-88 | A step keeps every sleeper owed a wakeup if and only if it is not a killed writer overfilling the pipe under a sleeping reader. |
| Pipe.PipeRuns | pipe.c:77-120 | Over every interleaving of readers and writers: bytes read followed by bytes buffered are the bytes accepted, at most PIPESIZE buffered, and without that step nobody sleeps through what they wait for. |
| Pipe.KilledWriterStrandsReader | pipe.c:85-88 | A run with a reader asleep on a full pipe. |
| Pipe.Pipe.Close | pipe.c:58-74 | One end closes, the bytes stay, and the page is freed exactly when both are closed. |
| Pipe.Pipe.Write | pipe.c:77-97 | Accepts in order as many bytes as fit; finished, failed or asleep exactly as the code has it. |
| Pipe.Pipe.Read | pipe.c:99-120 | Takes the first bytes buffered, up to n; finished, failed or asleep exactly as the code has it. |
| ShSpec.GetToken | sh.c:265-308 | Advances unless at the end; a word token is a maximal run of word characters. |
| Sh.Parser.GetToken | sh.c:265-308 | The token and cursor of ShSpec.GetToken. |
| Sh.Parser.ParseExec | sh.c:415-446 | The command, cursor or syntax error of ShSpec.ParseExec; terminates. |
| Sh.Parser.ParseLine | sh.c:344-359 | The command, cursor or syntax error of ShSpec.ParseLine, which ShGrammar describes; terminates. |
| Sh.Parser.ParseCmd | sh.c:327-342 | Succeeds exactly when ShSpec.ParseCmd does, which is when ParsesIffSpelled says, with its command, every token inside the buffer. |
| Sh.Nulterminate | sh.c:449-493 | NULs are written at the ends of tokens and nowhere else. |
| Sh.TokensReadBack | sh.c:449-493 | For every text that parses, each argument and file name then reads as a C string as exactly its token. |
| ShRound.PrintedParses | sh.c:374-446 | A printed tree is parsed as that tree, or is a syntax error exactly when an EXEC has too many arguments. |
| ShRound.RoundTrip | sh.c:327-446 | Every tree printed with full parentheses parses back to itself if and only if no EXEC has ten or more arguments; otherwise it is a syntax error. |
| ShGrammar.ParsedMeans | sh.c:327-446 | Any text whose tokens a line of the grammar derives is parsed as what the line means, or refused if an argument list is too long. |
| ShGrammar.ParsesIff | sh.c:327-446 | The parser accepts a text if and only if the grammar derives its tokens with argument lists that are not too long. |
| ShGrammar.OneMeaning | sh.c:327-446 | Lines of the grammar with the same tokens mean the same. |
| ShText.LexSpell | sh.c:265-308 | However tokens are spaced, as long as none run together, gettoken finds them. |
| ShText.TextIsSpelled | sh.c:265-308 | Every text is some spacing of its tokens: nothing but white space is passed over. |
| ShText.ParsesIffSpelled | sh.c:327-446 | The parser accepts a text if and only if it is some spacing of a line of the grammar whose argument lists are not too long. |
| ShText.LeastRoundTrip | sh.c:327-446 | A tree written with the fewest parentheses, pipes and lists to the right bare, and spaced in any way, parses back to itself if and only if no EXEC has ten or more arguments. |
| ShText.SingleSpaces | sh.c:262-263 | One space before every token spaces any such tree. |
| Grep.MatchHere | grep.c:85-96 | True exactly when the pattern's items match a prefix of the text. |
| Grep.MatchStar | grep.c:99-106 | True exactly when the rest matches after some number of characters the star allows. |
| Grep.Match | grep.c:72-82 | True exactly when the items match a prefix of some suffix, or of the text itself after a caret. |
| Grep.MatchOne | grep.c:93-94 | A literal or dot matches exactly one allowed character followed by a match of the rest. |
| Grep.ShowItems | grep.c:85-96 | A pattern is what its items show, and they can be written down. |
| Grep.ReadsBackIff | grep.c:85-96 | Items written as a pattern are read back if and only if they can be written down: no single character before an item that starts with a star, no last dollar, an end anchor only at the end. |

## Left out

- CrashFiles.FilesSurviveCrashes: takes as a hypothesis that the blocks a transaction logs are what its file operations make of the disk.
- DiskRuns.DiskSurvivesCrashes: takes the same hypothesis; DiskHistory.FilesOnDiskSurvive discharges it for reads, writes and truncations.
- DiskHistory.FilesOnDiskSurvive: that a group's blocks fit the log is a hypothesis; which calls of file.c and sysfile.c make up a group is not modelled, and link counts are not part of the inodes here.
- LogBuffers.Commit: no other process holds a buffer meanwhile; one that does takes away a buffer commit may need.
- Proc.Ptable.Fork: models the path on which the address space is copied; the comparison at proc.c:149 that misses a failed copy is not modelled.
- ProcSpec.ProcessRuns: pids are unbounded integers, so distinct pids hold only until the C counter wraps.
- LogOps.ReachableLog: that an operation logs at most MAXOPBLOCKS distinct blocks is a hypothesis on runs; it does not follow from file.c:132. log_write is one atomic step although its check runs before the lock is taken.
- Umalloc.Heap.Morecore: promises nothing once a header is written where sbrk gave no memory, because the code then works on memory it does not have.
- Umalloc.Heap.Malloc: promises nothing in that case either; otherwise the memory sbrk returns is assumed to lie above base, apart from what the heap has, and a whole number of headers apart from it.
- Dir.TreeAndCounts: nlink is an unbounded integer, so counts are exact only until the short on disk (fs.h:32) overflows; one device; names are given, so namei's walk is not modelled.
- IcacheSpec.CacheRuns: an inode is its type, link count and size; the blocks it holds are the subject of FsSpec.
- Directory entries as bytes: `Dir` has them as records, `FsOps` as file contents.
- mkfs's own limit of one bitmap block (mkfs.c:244) and its use of host files.
- Path walking (namei, skipelem), file descriptors and file.c, system-call argument fetching.
- Segments other than loadable ones, which exec skips; whether loaduvm succeeds is part of a segment.
- copyout and loaduvm contents, inituvm, and the first process's page 0.
- The scheduler's choice, context switches, trap frames, the lab's priority ticks and process listing.
- pushcli and popcli nesting, interrupt state and memory ordering: a lock is a holder, taken and released atomically.
- Boot, interrupt controllers, keyboard, console, serial line, timers and the IDE driver; the disk is memide.c's.
- runcmd and the shell's input loop; grep's line buffering and file handling; the other user programs and the C library.
