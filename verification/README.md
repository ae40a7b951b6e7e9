# A verified model of the sirpair-os kernel core

sirpair-os is a small Unix-like kernel for the 386 with a user land. This project models its hardest parts in Dafny and
proves what they are for. Code that changes things step by step is modelled by classes and methods with loops, each
proved against a specification; locks and CPUs are modelled as state machines whose steps are the sections between lock
operations.

| files | part of the system |
|---|---|
| `Options`, `Blocks`, `Ring`, `RedoLog`, `BufferCache`, `Log` | the redo log over the buffer cache over a disk with atomic sector writes |
| `FsLayout`, `Ownership`, `FileBlocks`, `FileChanges`, `FileSystem` | block allocation, inodes, file contents, and what each change logs |
| `LogFit`, `FileWrite`, `Truncate`, `BoundaryRun`, `DiskExamples`, `WideDisk` | writes and truncation as transactions of the log, crashes in them, and disks on which they meet its limits |
| `MkFs`, `ImageAgreement`, `DiskFormat` | the image builder, the kernel reading what it built, and the format in bytes |
| `Directory`, `Links`, `LinkRuns`, `LinkCare` | names, link counts, create, link and unlink, runs of them, and when these lose nothing |
| `FreeList`, `Heap` | the user-level allocator |
| `ProcTable`, `Scheduling` | fork, exit, wait, sleep, wakeup and the scheduler on several CPUs |
| `Pipe`, `PipeProtocol` | the ring buffer on wrapping counters, and its sleep and wakeup protocol |
| `PageAlloc`, `PageTable`, `AddressSpace`, `ExecStack` | the self-checking page allocator, two-level tables, fork, copyout, the exec stack |
| `ShellSyntax`, `ShellGrammar`, `ShellParser` | the shell's language, its parser, and its in-place cutting of the line |
| `Raster`, `FbConsole` | the framebuffer console |
| `Calendar` | clock to seconds and seconds to date |

How the main parts are set up:

- A disk is a sequence of 512-byte blocks. A transaction, its commit and a recovery are sequences of disk states, one
  for each sector write, and a crash keeps the state reached. The cache methods take a schedule of what other processes
  do before a pass of `bget` and between it and the disk read; `disk` is what is on the disk and `stored` what was last written to each sector.
- The file system keeps an owner map: every data sector with its bit set belongs to one slot of one inode or indirect
  block. Its `view` is the stored contents of the cache, and `Journal` says that the view and the header list are what
  its log_write calls make of the disk it began with, so that the crash theorems of the log apply (`CrashInWrite`).
- In `Scheduling` a CPU's program counter says where it is between two lock operations, and a run is any sequence of
  enabled steps of any CPUs. A process inside `fork` can be preempted, and an interrupt can wake any channel or kill any
  pid, in a process and in the scheduler. `PipeProtocol` does the same for the processes at a pipe, with the window in `sleep`
  between taking the table lock and letting go of the pipe lock spelled out.

Where the code does not do what one would expect, the model follows the code and the exact condition is proved:

- `balloc` scans past the data area; it finds a data sector exactly when one is free (`FirstFreeIsData`, `LogSectorTaken`).
- `log_write` refuses a full header even for a sector already in it, so the inode has to be logged last (`LogWrite`, `AcceptedIff`).
- A chunk of `filewrite` fits the log exactly while what it touches leaves the header a place for the inode (`ChunkFits`):
  always with one bitmap sector (`NeverFull`), and at the indirect boundary not with two (`BoundaryAccepted`, `TooWide`).
- With nine sectors logged, one buffer held by another process can keep the header from being read (`NineLeaveOne`).
- Emptying a file fits the log exactly if its blocks are under few enough bitmap sectors (`EmptyFile`, `TooSpread`).
- `pipecanwrite` compares wrapped counters by order (`ReportsRoom`, `ReportsFullWhenAlmostEmpty`).
- A killed writer leaves a full pipe without waking the reader it wrote for (`StepKeeps`, `Stranded`).
- `kalloc` gives nothing, although pages are free, when its list and its count both say empty (`Kalloc`, `GivesNothing`).
- `date` shows another date than the clock's from 2038 on, and its weekday can be negative before 1970 (`ClockRoundTrip`, `FirstLost`, `WeekdayRange`, `WeekdayLost`).
- A name can be entered in a directory that was removed; when the directory goes, its inode keeps a link nothing names
  (`DropTree`, `RunTree`, `NameLost`); without such an entry nothing is lost (`RunTidy`, `LostIsEntered`). mkfs does not
  count subdirectories, so on its images removing a directory can give back its parent although that is named (`DropLaw`,
  `RunLaw`, `NamedAndGone`), and `unlink` can panic (`UnlinkReturns`); what callers have to avoid is in `RunSound`.
- `kill` marks the first slot with the pid, used or not, and a process can be born marked (`KillFinds`, `BlameKept`, `BornKilled`).

Nothing in this project executes the kernel; every statement is about the model.

## Model

| member | source | states |
|---|---|---|
| `RedoLog.Layout.CrashAtomicity` | kernel/log.c:69-181 | Stop a transaction after any number of its sector writes, then cut off any number of recoveries anywhere: the recovery that completes leaves an empty log and home sectors that are all as before the transaction, or all hold the last block logged for each; which of the two depends only on whether the header write happened |
| `RedoLog.Layout.RunDurable` | kernel/log.c:69-181 | Over any sequence of transactions, each completed or stopped anywhere and followed by any number of interrupted recoveries, the home sectors are those of performing in order, with no log at all, exactly the transactions whose header reached the disk |
| `RedoLog.Layout.TransactionAtomic` | kernel/log.c:102-181 | The header write is the only commit point: every disk state up to it recovers to the old home sectors and every one from it on to the new ones |
| `RedoLog.Layout.PrefixAtomic` | kernel/log.c:102-181 | Every disk state a partial transaction passes through is a well-formed log that recovers to the old or to the new home sectors |
| `RedoLog.Layout.InstallRestarts` | kernel/log.c:69-82 | Installing is idempotent: restarted from any point of itself it ends where the uninterrupted one does |
| `RedoLog.Layout.RecoveryKeepsOutcome` | kernel/log.c:116-122 | A crash in the middle of recovery does not change what recovery will produce |
| `RedoLog.Layout.RecoveryCompletes` | kernel/log.c:116-122 | A recovery that completes leaves an empty log and the recovered home sectors |
| `RedoLog.Layout.CrashChainOutcome` | kernel/log.c:116-122 | However many recoveries are cut off, the outcome is that of the first disk |
| `RedoLog.Layout.LogDiskAt` | kernel/log.c:160-181 | Absorption: the log block of a sector holds the last block logged for it |
| `RedoLog.Layout.IsCommitted` | kernel/log.c:102-112 | Once the header names the logged sectors, recovery yields the last block logged for each and every other sector as it was |
| `RedoLog.Layout.NotCommitted` | kernel/log.c:160-181 | Log blocks written under an empty header change nothing recovery sees |
| `RedoLog.Layout.TransactionCompletes` | kernel/log.c:136-149 | An uninterrupted transaction leaves its writes on the home sectors and the log empty |
| `Log.Log.constructor` | kernel/log.c:54-65 | Boot takes the disk through exactly the states of a recovery, and never lacks a buffer for it |
| `Log.Log.RecoverFromLog` | kernel/log.c:116-122 | The disk states written are those of a recovery, one sector write each, and nothing is pinned afterwards |
| `Log.Log.ReadHead` | kernel/log.c:86-97 | The header in memory becomes the sector list on the disk |
| `Log.Log.WriteHead` | kernel/log.c:102-112 | One sector write, which makes the header on the disk name the sectors in memory and touches nothing else; undisturbed it succeeds exactly if the header sector can be read |
| `Log.Log.InstallTrans` | kernel/log.c:70-82 | Each named sector gets its own log block, in order, one disk write each; what is installed is unpinned and nothing else is |
| `Log.Log.BeginTrans` | kernel/log.c:125-133 | At most one transaction at a time |
| `Log.Log.LogWrite` | kernel/log.c:160-181 | The write is recorded as the last one for its sector and its buffer is pinned; it is refused exactly when the header is full, even if the sector is already in it; and it never stops half way |
| `Log.Log.Commit` | kernel/log.c:136-143 | The disk passes through a prefix of the commit trace: header, installs in order, header erased; with fewer logged sectors than buffers and no buffer lent out it gets to the end, and without a buffer for the header it does not begin |
| `Log.Log.CommitTrans` | kernel/log.c:136-149 | Every disk state since begin_trans recovers to all or none of the transaction; at the end they are the whole transaction trace and disk and cache agree on every home sector |
| `Log.Log.NineLeaveOne` | kernel/log.c:102-112 | A transaction of nine sectors can begin to commit with the header out of the cache exactly if no other process holds the tenth buffer; otherwise bget panics |
| `BufferCache.Cache.constructor` | kernel/bio.c:39-56 | The list is a ring of all the buffers and the cache stands for the disk as it is |
| `BufferCache.Cache.MoveFirst` | kernel/bio.c:126-132 | The four pointer updates keep the doubly linked list a ring of all buffers; one moves to the front and the order of the rest is kept |
| `BufferCache.Cache.FindCached` | kernel/bio.c:69-81 | A sector is found exactly when some buffer holds it, and then it is the only one that does |
| `BufferCache.Cache.FindReusable` | kernel/bio.c:83-91 | The victim is the least recently released buffer that is neither busy nor dirty; there is none only if all are |
| `BufferCache.Cache.Bget` | kernel/bio.c:62-94 | No two buffers hold one sector, no two processes one buffer, and a dirty buffer is never recycled; a clean one handed out already valid has the contents last stored |
| `BufferCache.Cache.Fill` | kernel/bio.c:97-106 | Reading the disk gives the contents last stored, because whatever is not on the disk yet is in a pinned buffer |
| `BufferCache.Cache.Brelse` | kernel/bio.c:120-137 | The buffer is free again and most recently used; no other buffer changes place relative to another |
| `BufferCache.Cache.Reader` | kernel/bio.c:62-137 | Any step of any other process leaves the disk, the stored contents, the pins and the buffers held by the writer alone |
| `BufferCache.Cache.ReadBlock` | kernel/bio.c:62-106 | bread refines a flat disk: with any steps of other processes before each pass of bget and between it and the disk read, it returns what log_write or bwrite last stored in the sector, on the disk or not; undisturbed it succeeds, sleeps or panics in exactly the stated cases |
| `BufferCache.Cache.WriteBlock` | kernel/bio.c:109-115 | The sector is on the disk at once, and the buffer is unpinned |
| `BufferCache.Cache.PinBlock` | kernel/log.c:179-180 | The contents count as stored although the disk does not have them, and the buffer cannot be recycled |
| `BufferCache.AllTaken` | kernel/bio.c:83-94 | There is no buffer to recycle exactly if those of pinned sectors and those held by anyone make up the cache |
| `BufferCache.OneLeft` | kernel/bio.c:83-94 | With all buffers but one pinned there is none exactly if another process holds the one that is not |
| `Ownership.FirstFreeIsData` | kernel/fs.c:53-76 | The first clear bit is a data sector exactly when a data sector is free; otherwise the scan goes on into the log |
| `Ownership.AllocateOk` | kernel/fs.c:53-76 | Filling an empty slot with a fresh zeroed block keeps every set bit owned exactly once, changes no other slot of any file and no byte any file reads |
| `Ownership.DataWriteOk` | kernel/fs.c:567-596 | Writing a data block changes what one file reads in one place and nothing else |
| `Ownership.WriteBytes` | kernel/fs.c:534-562 | What a file reads after a block write, byte by byte |
| `FileBlocks.NextNeed` | kernel/fs.c:358-414 | One more block at or before the end of a file without holes, indirect blocks included, never takes more than a file of the new size has |
| `FileChanges.WroteTrans` | kernel/fs.c:567-596 | Two writes one after the other are one write of both: bytes, block numbers, owners and the exact set of logged sectors all compose |
| `FileSystem.FileSystem.FindFree` | kernel/fs.c:59-71 | The lowest clear bit over all bitmap sectors, or none if all bits are set |
| `FileSystem.FileSystem.Balloc` | kernel/fs.c:53-76 | The lowest clear bit is set, its block zeroed, and only those two sectors are logged; the panic happens exactly when no bit is clear |
| `FileSystem.FileSystem.Bmap` | kernel/fs.c:358-414 | The block for a position through the direct, single and double-indirect ways, whatever is missing on the way: exactly one block is taken for each empty slot and no more need be free; no byte of any file changes, no block number moves, and exactly the new blocks, their bitmap sectors and the blocks that list them are logged |
| `FileSystem.FileSystem.BmapRead` | kernel/fs.c:419-463 | The block number bmap would find, 0 for a hole or a position past the largest file |
| `FileSystem.FileSystem.Readi` | kernel/fs.c:534-562 | Exactly the bytes of the file from the offset on, up to the size; refused exactly for a start past the end or a 32-bit overflow |
| `FileSystem.FileSystem.WriteChunk` | kernel/fs.c:583-589 | One block of the file is overwritten in part, every other byte of every file stays, and exactly that block and what was taken for it are logged |
| `FileSystem.FileSystem.Writei` | kernel/fs.c:567-596 | Accepted exactly within the limits; then the file is the old one with the new bytes laid over it, no other file changes, no hole appears and no block past the end, the record on the disk agrees with the inode, and the inode sector is logged last and only when the file grows; it needs only as many free blocks as the file grows by |
| `FileSystem.FileSystem.Iupdate` | kernel/fs.c:202-217 | The record on the disk becomes the inode in memory and no other record in the sector changes |
| `FileWrite.WriteAndRead` | kernel/fs.c:534-596 | Files refine byte sequences: after any sequence of writei calls, refused ones included, reading the file returns what the accepted ones leave of the sequence of bytes |
| `FileWrite.WriteFile` | kernel/file.c:147-195 | Split into transactions, a write succeeds exactly when it fits; on refusal exactly the whole chunks that fit are written; it needs only the blocks the file grows by; and each transaction starts where the one before it ended and adds one chunk |
| `LogFit.ChunkLogs` | kernel/file.c:168-193 | At any offset and across any indirect boundary, a chunk of 1536 bytes logs at most seven distinct sectors besides the bitmap ones before the inode |
| `LogFit.LoggedCount` | kernel/fs.c:567-596 | Any write logs exactly as many sectors as it takes bitmap sectors and touches slots: those of the blocks written, those that were empty and those above an empty one |
| `LogFit.BoundIsMet` | kernel/file.c:168-193 | Seven is reached: any write of a chunk at the end of a file that ends in the last block but one under its indirect block logs exactly seven sectors and those of the bitmap |
| `BoundaryRun.BoundaryAccepted` | kernel/log.c:160-181 | Such a transaction is accepted by the log exactly if seven and the number of bitmap sectors leave a place in the header for the inode; in a log of ten sectors, exactly if its new blocks are under one bitmap sector |
| `BoundaryRun.NineSectors` | kernel/file.c:168-193 | A run from a fresh image to a transaction that logs nine sectors, all a log of ten takes |
| `WideDisk.TooWide` | kernel/log.c:160-181 | A disk and a filewrite on it that the log does not take: six free sectors under two bitmap sectors, and one chunk past the single-indirect boundary |
| `FileWrite.NeverFull` | kernel/log.c:160-181 | With one bitmap sector to a transaction no log_write of filewrite meets a full header in a log of ten sectors |
| `FileWrite.AcceptedIff` | kernel/log.c:160-181 | log_write takes a list of writes exactly if they go to home sectors and the header before the last of them has a place left, even if that one needs none |
| `FileWrite.ChunkFits` | kernel/log.c:160-181 | A transaction that makes the file grow is accepted exactly if its bitmap sectors and the slots it touches, told from the state before, leave the header a place for the inode |
| `FileWrite.CrashInWrite` | kernel/file.c:168-193 | The file system on the log: stop a filewrite transaction after any sector write, cut off any number of recoveries, and the system that boots has a file system in order, every file as before or every file as after the transaction, with the inode that goes with it; the header write decides which |
| `FileWrite.CrashInFileWrite` | kernel/file.c:147-195 | From the disk a filewrite of any length began with, stopped after any number of its transactions and any sector write of the next, and after any number of interrupted recoveries: the system that boots has the file with a whole number of its chunks laid over it, the size to match, and no other file changed |
| `FileWrite.FileWriteCompletes` | kernel/file.c:147-195 | Uninterrupted, its transactions leave the final contents on the home sectors and the log empty |
| `Truncate.Bfree` | kernel/fs.c:80-94 | The bit of the block is cleared and only its bitmap sector logged |
| `Truncate.FreeSlot` | kernel/fs.c:471-518 | The bit is still set whenever itrunc comes to a block, so "freeing free block" is out of reach |
| `Truncate.Itrunc` | kernel/fs.c:471-518 | Exactly the blocks the inode reaches become free, each once; every other file keeps its blocks and its bytes, the record on the disk is the empty inode, and exactly the bitmap sectors of the freed blocks are logged, then the inode |
| `Truncate.TruncFits` | kernel/fs.c:471-518 | itrunc alone is accepted by the log exactly if the bitmap sectors of the file are fewer than the header has places |
| `Truncate.EmptyFile` | kernel/fs.c:318-336 | The transaction that empties a file and logs its inode once more is accepted exactly if those bitmap sectors and the inode leave a place free |
| `DiskExamples.TooSpread` | kernel/fs.c:318-336 | A file of eleven blocks, each under another bitmap sector, that is too spread out to be emptied with a log of ten |
| `DiskExamples.LogSectorTaken` | kernel/fs.c:53-76 | On a disk without a free data sector balloc hands out the sector of the log header |
| `Truncate.Conservation` | kernel/fs.c:758-781 | Free and owned data sectors add up to nblocks |
| `Truncate.CountFree` | kernel/fs.c:758-781 | f_bfree is the number of data sectors nobody owns; with the owned ones it makes up nblocks |
| `MkFs.Image.constructor` | tools/mkfs.c:80-110 | The regions of the image are where the kernel looks for them and the superblock says so |
| `MkFs.Image.Place` | tools/mkfs.c:408-479 | The sector for a block of the file through all levels of indirection, with exactly one new sector for each empty slot on the way and no byte of any file changed |
| `MkFs.Image.Iappend` | tools/mkfs.c:408-479 | The bytes follow the old end of the file, no other byte of any file changes, the record says the new size, and only the sectors the file grows by are taken |
| `MkFs.Image.Ialloc` | tools/mkfs.c:370-381 | A new empty file, all others as they were |
| `MkFs.Image.Winode` | tools/mkfs.c:330-341 | One record is replaced, and no file reads differently |
| `MkFs.Image.Balloc` | tools/mkfs.c:384-404 | The bitmap has exactly the bits below usedblocks, where BBLOCK looks for them, so the image satisfies the invariant of the kernel file system |
| `DiskFormat.InodeRecord` | include/fs.h:28-43 | Where the bytes of an inode record are |
| `DiskFormat.FreeMapBit` | include/fs.h:38-49 | Where the bit of a sector is |
| `DiskFormat.FileBytes` | include/fs.h:22-35 | Where a byte of a file is, by the inode and one or two indirect blocks |
| `DiskFormat.LargestFile` | kernel/fs.c:578-581 | Which writes are within the limits, in bytes |
| `DiskFormat.LogHeader` | kernel/log.c:36-39 | Where the count and the sectors of the log header are |
| `ImageAgreement.Build` | tools/mkfs.c:62-260 | After any sequence of new files and appends, interleaved in any way and as long as the final contents fit the disk, the image satisfies the invariant of the kernel file system and every file holds the concatenation of its pieces |
| `ImageAgreement.Ilock` | kernel/fs.c:269-296 | The inode in memory is the record on the disk |
| `ImageAgreement.BuildAndRead` | tools/mkfs.c:62-260 | End to end: the inode lookup and readi of the kernel return, for any file and range, the bytes mkfs appended |
| `Directory.EnterLaw` | kernel/fs.c:637-663 | Entering a name and counting its link keeps the law of links, in any directory, whatever directories count: names distinct, every name leads to an inode, and every file and device counts exactly its names |
| `Directory.RemoveLaw` | kernel/sysfile.c:239-291 | Taking a name and its link away keeps it too |
| `Directory.DropLaw` | kernel/fs.c:318-336 | A dropped reference keeps the law if and only if the inode stays, or is named by nothing and names no file |
| `Directory.DropTree` | kernel/fs.c:318-336 | Where directories count their names and subdirectories, what is given back is never named, and the drop does harm if and only if something is in it |
| `Links.Links.DirLookup` | kernel/fs.c:610-633 | The first entry with the name, found exactly when there is one |
| `Links.Links.IsDirEmpty` | kernel/sysfile.c:223-236 | Skipping the first two entries decides, wherever directories begin with their dots, whether the directory holds anything else |
| `Links.Links.Iput` | kernel/fs.c:318-336 | The inode is given back exactly when its last link and its last reference are gone; the law survives exactly if that is harmless, and with directory counts right exactly if nothing was in it |
| `Links.Links.Link` | kernel/sysfile.c:175-218 | From any tree: a name that leads to the inode and one more link of it exactly for a non-directory and a free name, and no other entry, count or reference changed; refused, every entry and count is as before; the law survives unless one of the dropped references does harm |
| `Links.Links.Unlink` | kernel/sysfile.c:239-291 | From any tree, when it succeeds: the entry is empty, the inode and for a directory its parent count one link less, no other entry, count or reference has changed, and of the two exactly those without link and reference are gone; otherwise every entry and count is as before. Under the law it panics exactly for a directory counted nowhere and succeeds exactly for a file or an empty directory |
| `Links.Links.Create` | kernel/sysfile.c:294-336 | From any tree: a new inode, empty but for the dots, under its name exactly if that is free, an existing file held once more, anything else refused, and no other entry or count changed; the law survives unless one of the dropped references does harm |
| `Links.UnlinkReturns` | kernel/sysfile.c:239-291 | Under the law unlink takes a name away exactly if it leads to a file or an empty directory, and panics exactly if it leads to a directory that is counted nowhere |
| `Links.UnlinkIsSafe` | kernel/sysfile.c:239-291 | With directory counts right it never panics |
| `Links.LinkReturns` | kernel/sysfile.c:175-218 | link succeeds exactly for a non-directory and a name that is not there |
| `Links.CreateReturns` | kernel/sysfile.c:294-336 | create makes a new inode exactly if the name is not there, returns another only if a file is wanted and named, and panics only on a dotdot that leads nowhere |
| `Links.UnlinkLeaves` | kernel/sysfile.c:239-291 | What unlink leaves of every inode, entry by entry and count by count, and that the name is not there afterwards |
| `Links.LinkLeaves` | kernel/sysfile.c:175-218 | The same of link, and that the name leads to the inode afterwards |
| `Links.CreateLeaves` | kernel/sysfile.c:294-336 | The same of create |
| `Links.CallLaw` | kernel/sysfile.c:175-336 | A call keeps the law at every point of it if and only if none of its dropped references does harm |
| `Links.RunLaw` | kernel/sysfile.c:175-336 | From any tree under the law, mkfs images included, any calls keep it throughout if and only if none of them loses a name |
| `LinkRuns.RunTree` | kernel/sysfile.c:175-336 | From a tree with directory counts right they stay right as long as no call loses a name, and a call that does gives back an unnamed directory with something in it |
| `LinkCare.RunTidy` | kernel/sysfile.c:175-336 | From a tree with directory counts right and nothing in unnamed directories, any calls that add no entry to an unlinked directory: all link counts, of files and directories, stay right in every state, and no name is lost |
| `LinkCare.LostIsEntered` | kernel/sysfile.c:175-336 | So a lost name goes back to an entry made in a directory that had been unlinked |
| `LinkCare.DropTidy` | kernel/fs.c:318-336 | In such a tree every iput is harmless and leaves such a tree |
| `LinkCare.RunSound` | kernel/sysfile.c:175-336 | Where directories do not count their subdirectories: calls that enter only in directories with links, and remove directories only from those with two or more, keep the law in every state, lose nothing and never panic in unlink |
| `LinkCare.ImageRuns` | tools/mkfs.c:276-295 | In particular on an image with one link to every inode and one name at most to a directory |
| `LinkRuns.Run` | kernel/sysfile.c:175-336 | The methods, called in any order, go through the states of such a run |
| `LinkRuns.ImageCounts` | tools/mkfs.c:276-295 | On an image with one link to every inode directory counts are right exactly if no directory has a directory in it |
| `LinkRuns.NamedAndGone` | kernel/sysfile.c:239-291 | A run on such an image, with nothing entered in a removed directory: a directory is given back although it is named, and a file in it keeps a link nothing names |
| `LinkRuns.NameLost` | kernel/sysfile.c:239-336 | A run with directory counts right that loses the name of a file entered in a removed directory |
| `FreeList.Split` | user/umalloc.c:82-87 | Cutting the top off a free block keeps list and tiling |
| `Heap.Released` | user/umalloc.c:25-46 | Releasing a block, merged with either neighbour, both or none, keeps the list a sorted ring with one wrap point, no two free blocks adjacent, and the blocks an exact tiling |
| `Heap.ReleasedLeaves` | user/umalloc.c:25-46 | Merging writes to no part of any live block |
| `Heap.WalkStep` | user/umalloc.c:74-96 | Each step round the ring passes one block that was not passed before, so the search ends |
| `Heap.Heap.FindPlace` | user/umalloc.c:32-34 | From any starting point the search ends at the last free block below the one released |
| `Heap.Heap.Free` | user/umalloc.c:25-46 | The block leaves the live ones and lies in a free block at least as large; every other live block is untouched |
| `Heap.Heap.MoreCore` | user/umalloc.c:49-63 | Memory from sbrk joins the heap through free and makes room for the request; a refusal changes nothing |
| `Heap.Heap.Search` | user/umalloc.c:66-96 | The walk ends, grows the heap at most once, and fails exactly when nothing fits and sbrk refuses |
| `Heap.Heap.Malloc` | user/umalloc.c:66-96 | Fails exactly for a request too large, or when no free block is large enough and sbrk refuses; otherwise a block of exactly the units asked for that overlaps no live one and disturbs none |
| `Heap.Heap.Realloc` | user/umalloc.c:118-153 | On success the old contents are at the start of the block returned and the old block is released; on failure nothing is lost; the two cases are told apart exactly |
| `ProcTable.ProcTable.Exit` | kernel/proc.c:340-377 | The process is a zombie, all its children are those of init, exactly the sleepers on its parent and, if a zombie is passed on, on init are awake, and nothing else has changed |
| `ProcTable.ProcTable.Wait` | kernel/proc.c:384-448 | A zombie child is reaped exactly when there is one; it fails exactly without children or when killed, and sleeps otherwise |
| `ProcTable.ProcTable.Kill` | kernel/proc.c:599-616 | The lowest slot with the pid, in whatever state, is marked and runs again if it slept on anything; every other field and slot is as before; none exactly when no slot has the pid |
| `ProcTable.ProcTable.Alloc` | kernel/proc.c:155-194 | A free slot under a new pid, none exactly when there is none |
| `Scheduling.StepKeeps` | kernel/proc.c:280-593 | Every step of every CPU, interrupts in the scheduler and in processes included, keeps the invariant of the process table: locks, CPUs, forks in progress or preempted, family tree, waiters and the history of pids |
| `Scheduling.Safety` | kernel/proc.c:460-523 | In every state of every interleaving a process is on one CPU at most and RUNNING exactly when a CPU is on it and has not begun to switch away; a switching CPU holds ptable.lock |
| `Scheduling.NoLostExit` | kernel/proc.c:340-448 | In every state of every interleaving a process asleep in wait() has a child and no zombie child, those passed to init included, and has not been killed |
| `Scheduling.ReapedOnce` | kernel/proc.c:384-448 | A process that has exited is reaped at most once, and until then it is a zombie with a parent that has not exited |
| `Scheduling.WaitExited` | kernel/proc.c:340-377 | exit() wakes everyone its death, or the children it passes on, is news to |
| `Scheduling.SleepsUntil` | kernel/proc.c:539-593 | In every run a process that sleeps stays asleep on its channel exactly until a step wakes that channel, kills it, or is an exit it is told of |
| `Scheduling.SleeperStep` | kernel/proc.c:539-616 | Of one step: it wakes a sleeper exactly if it is one of those, and changes nothing else of it |
| `Scheduling.WakeupWakes` | kernel/proc.c:577-593 | After a wakeup nobody sleeps on its channel, and everyone else is as before |
| `Scheduling.KillMarks` | kernel/proc.c:599-616 | After a kill the slot found is marked and does not sleep, and everything else is as before |
| `Scheduling.SleepSleeps` | kernel/proc.c:539-561 | A process that goes to sleep sleeps on the channel it asked for, and nobody else has changed |
| `Scheduling.ExitEnds` | kernel/proc.c:340-377 | What an exit writes to every slot |
| `Scheduling.WaitWrites` | kernel/proc.c:384-448 | A reaped slot is given back without pid, parent and mark; a waiting process sleeps on its own address |
| `Scheduling.ForkUntouched` | kernel/proc.c:280-333 | No step touches a slot that a fork is filling but those of the process that fills it, although that part of fork runs without the lock and can be preempted |
| `Scheduling.KillFinds` | kernel/proc.c:599-616 | In every state of every interleaving the slot kill finds is in use exactly if the pid is not 0 and did not go to a fork that failed |
| `Scheduling.BlameKept` | kernel/proc.c:155-194 | A step keeps it that every marked process was named by kill or struck by a fault, unless and only if it gives out a slot that is still marked |
| `Scheduling.MarkedForCause` | kernel/proc.c:155-333 | In every run, every process ever marked was named or struck if and only if no marked slot is given out |
| `Scheduling.BornKilled` | kernel/proc.c:155-333 | A run with one: a new process is runnable and marked, and nobody ever named its pid |
| `Pipe.Pipe.CopyIn` | kernel/pipe.c:78-97 | The bytes go to the end of the stream in order until they or the room run out, for all values of the wrapped counters |
| `Pipe.Pipe.CopyOut` | kernel/pipe.c:100-119 | The oldest unread bytes in order, as many as asked for and there; what is read stays a prefix of what was written |
| `Pipe.Distance` | kernel/pipe.c:78-119 | The equality comparisons of wrapped 32-bit counters decide full and empty for all counter values |
| `Pipe.Pipe.CanWrite` | kernel/pipe.c:139-147 | Room is never reported when there is none; room that is there is missed exactly while the limit of the reader has wrapped and the writer has not |
| `Pipe.Pipe.CanRead` | kernel/pipe.c:122-136 | Exactly when there is an unread byte or the writing end is closed, for all values of the wrapped counters |
| `Pipe.ReportsRoom` | kernel/pipe.c:139-147 | The ordered comparison decides whether there is room exactly unless the limit of the reader has wrapped and the writer has not |
| `Pipe.ReportsFullWhenAlmostEmpty` | kernel/pipe.c:139-147 | An input that shows it: one byte in the pipe, and it is reported full |
| `PipeProtocol.StepKeeps` | kernel/pipe.c:59-119 | A step of any process keeps the sleep and wakeup invariant if and only if it is not a killed writer leaving a full pipe with a reader asleep or about to be |
| `PipeProtocol.AbandonBreaks` | kernel/pipe.c:78-97 | A killed writer leaving a full pipe breaks it exactly when a reader is asleep or about to be |
| `PipeProtocol.RunInv` | kernel/pipe.c:59-119 | The invariant holds all through a run if and only if no such step is in it |
| `PipeProtocol.NoLostWakeup` | kernel/proc.c:539-593 | In every state of every run without such a step, whenever the lock is free a sleeping reader has an empty pipe and an open writing end, and a sleeping writer a full pipe and an open reading end |
| `PipeProtocol.Stranded` | kernel/pipe.c:78-97 | The exception is real: a run that ends with all locks free, a full pipe and a reader asleep |
| `PageAlloc.KMem.Rebuild` | kernel/kalloc.c:49-71 | Whatever the list was, it is now exactly the FREE pages without repeats and nfree is its length |
| `PageAlloc.KMem.Check` | kernel/kalloc.c:241-313 | The checks on the first node hold exactly when it and its successor are FREE pages |
| `PageAlloc.KMem.Kalloc` | kernel/kalloc.c:241-313 | From any list, however damaged, it ends and gives only a page the table has FREE, then marked; it gives none exactly when the list is empty by its own count or no page is FREE; a sound list stays sound |
| `PageAlloc.KMem.Kfree` | kernel/kalloc.c:175-221 | Exactly pages are accepted, a page already FREE is left alone, and a sound list stays sound |
| `PageAlloc.Serve` | kernel/kalloc.c:175-313 | Over any sequence of calls and stray writes to list, count and shadows, no page is handed out twice without a kfree of it in between |
| `PageAlloc.GivesNothing` | kernel/kalloc.c:241-313 | A state in which kalloc gives nothing although a page is FREE |
| `PageAlloc.RebuiltComplete` | kernel/kalloc.c:49-71 | The pages pushed from the top down are all the FREE pages in range, each once |
| `PageTable.SetEntry` | kernel/vm.c:149-197 | A two-level table refines a flat map: writing one entry changes the map at one page |
| `PageTable.AddTable` | kernel/vm.c:52-89 | A new table page changes nothing in the map |
| `AddressSpace.Machine.WalkPgdir` | kernel/vm.c:52-89 | The map is the same whether or not a table is made; failure means the page is unmapped and, if a table was asked for, that no frame is left |
| `AddressSpace.Machine.MapPages` | kernel/vm.c:149-197 | The pages map to consecutive frames and no other page changes; the panic needs a user page that was mapped elsewhere |
| `AddressSpace.Machine.SetupKvm` | kernel/vm.c:239-280 | A directory of new tables with no user page, exactly if there are frames for it and for a table under every entry the map of the kernel needs; nothing that existed is touched, on failure too |
| `AddressSpace.Machine.CopyUvm` | kernel/vm.c:578-613 | Succeeds exactly if the size is below KERNBASE, every page is there and the frames suffice for a directory, the tables and the pages; then every page of the child has the contents of the parent page in a frame of its own; the parent and everything else live is unchanged, on failure too |
| `AddressSpace.ForkReads` | kernel/vm.c:578-613 | Every byte below the size reads the same through the tables of the child as through those of the parent |
| `AddressSpace.ForkFrames` | kernel/vm.c:578-613 | The frames of the child are pairwise different and none was in use before |
| `AddressSpace.Machine.AllocUvm` | kernel/vm.c:404-430 | Succeeds exactly if the frames suffice for the pages and the tables that are missing; then new zeroed frames, each its own, for the new pages and no other page or frame changed; otherwise every page from the fourth on is as before, and above the first four every frame too |
| `AddressSpace.Machine.Grow` | kernel/vm.c:404-430 | In bytes: 0 from KERNBASE on and when frames run out, the old size when it is no growth, and otherwise the new one with the pages between zeroed |
| `AddressSpace.SpaceCostIs` | kernel/vm.c:578-613 | What a copy costs in numbers: one frame, the tables of the kernel, one table for every 1024 pages begun, and the pages |
| `AddressSpace.Machine.DeallocUvm` | kernel/vm.c:448-515 | The pages from the fourth on are unmapped, exactly their frames are in use no more and exactly those are free again; no other page changes |
| `AddressSpace.Machine.ClearPteU` | kernel/vm.c:565-573 | One page is out of reach of the user and no other changes |
| `AddressSpace.Machine.CopyOut` | kernel/vm.c:618-668 | Succeeds exactly when every byte of the range is the user's; then the range reads as the bytes and no other address reads differently |
| `ExecStack.BuildStack` | kernel/exec.c:101-118 | Accepted exactly when there are at most MAXARG strings and the whole layout stays above the guard page; then memory at sp reads as the fake return pc, argc, and a pointer to a null-ended vector of pointers to the strings, all disjoint |
| `ExecStack.PushStrings` | kernel/exec.c:101-109 | Each string is in its own place, terminated, below the one before; it fails exactly when one would leave the stack |
| `ExecStack.DoesNotFit` | kernel/exec.c:101-109 | A copy right under what is on the stack cannot skip the guard page, not even by wrapping around |
| `ExecStack.MakeStack` | kernel/exec.c:87-99 | Seventeen new pages, the lowest out of reach of the user, exactly if they end below KERNBASE and there are frames for them and their tables |
| `ShellGrammar.RoundTrip` | user/sh.c:719-841 | Printing any command tree and parsing it gives the tree back |
| `ShellParser.NormalForm` | user/sh.c:719-841 | On any input that parses, parsing the printed result gives the same command again |
| `ShellSyntax.LexesIff` | user/sh.c:657-699 | Told in literal characters: the tokens the scanner gives are the one way in which the line is words, marks and blanks |
| `ShellSyntax.ParsesIff` | user/sh.c:719-841 | The parser accepts a line, as a command, if and only if its tokens are a script with that meaning in a language defined without the parser |
| `ShellSyntax.ParsedIsBalanced` | user/sh.c:796-811 | A line that parses has its parentheses balanced, so one with an unclosed parenthesis panics |
| `ShellSyntax.WordsParse` | user/sh.c:812-841 | A line of words is a command exactly if there are at most nine, and they are its arguments in order |
| `ShellParser.GetToken` | user/sh.c:657-699 | Blanks, one token and the blanks after it are taken, with the characters written out; the token and the rest are those of the grammar |
| `ShellParser.CommandLine` | user/sh.c:736-755 | The recursive-descent parser with its cursor ends on every input and gives what the grammar gives, panics included |
| `ShellParser.Command` | user/sh.c:796-841 | A block with both its parentheses or a simple command, as the language has it and as the grammar gives it |
| `ShellParser.Parse` | user/sh.c:719-733 | Every input has a result: a command exactly for the lines of the language, with their meaning and with parentheses balanced, and a panic for all others |
| `ShellParser.CutsOutside` | user/sh.c:846-889 | No terminator falls inside any word |
| `ShellParser.CutReads` | user/sh.c:846-889 | Once the line is cut, every argv and file pointer reads exactly its word |
| `ShellParser.Nulterminate` | user/sh.c:846-889 | The buffer is cut in place at the ends of the words and at no other place |
| `ShellParser.ParseInPlace` | user/sh.c:719-889 | Parsing and cutting the same buffer: the strings read from it afterwards are the words of the command |
| `FbConsole.Surface.RenderGlyph` | kernel/fb_console.c:237-298 | The cell shows the glyph and every pixel outside it is as it was, at 16, 24 and 32 bits; pixel by pixel the leftmost is the highest bit of the line of the font, lit in the colour of the low half of the attribute and else of the high half |
| `Raster.GlyphPixel` | kernel/fb_console.c:237-298 | The bytes of a pixel: foreground exactly if its bit in the font is set, in red, green and blue at each depth |
| `Raster.PaletteIs` | kernel/fb_console.c:217-232 | The sixteen colours by their red, green, blue and bright bits |
| `FbConsole.CellPixels` | kernel/fb_console.c:237-298 | A cell that shows a character has each of its pixels where columns and lines put it |
| `FbConsole.UnderlinedPixels` | kernel/fb_console.c:492-543 | Every pixel of the cursor has the foreground colour |
| `FbConsole.Console.Draw` | kernel/fb_console.c:469-485 | The grid and the back buffer have the character; on the screen its cell shows it and every pixel outside the cell is as it was; outside the grid nothing happens |
| `FbConsole.Console.Cursor` | kernel/fb_console.c:492-543 | The back buffer still shows the grid; on the screen the cell shows its character, if lit with three lines of its foreground under it, and every pixel outside the cell is as it was |
| `FbConsole.Console.Clear` | kernel/fb_console.c:434-454 | Grid, back buffer and screen are blank in every text row |
| `FbConsole.Console.ScrollCells` | kernel/fb_console.c:170-214 | The text rows of the grid move up by one, the last is blank and the status row stays |
| `FbConsole.Console.Scroll` | kernel/fb_console.c:377-400 | The fast scroll keeps the back buffer equal to the rasterised grid, and the screen shows that grid too |
| `FbConsole.Console.ScrollByRedraw` | kernel/fb_console.c:377-418 | So does the screen when every cell is drawn again |
| `FbConsole.Serve` | kernel/fb_console.c:377-543 | Over any calls the back buffer is the rasterised grid, and after a scroll or a clear so is the screen |
| `FbConsole.SameScreen` | kernel/fb_console.c:377-418 | Two screens that show one grid are the same pixel for pixel in every cell, so the fast scroll equals the redraw |
| `FbConsole.DrawnShows` | kernel/fb_console.c:237-298 | Drawing a cell shows it and hides no other |
| `FbConsole.ScrollShows` | kernel/fb_console.c:377-400 | Moving the pixels and blackening the last row shows the moved grid |
| `Raster.BlankIsBlack` | kernel/fb_console.c:237-298 | A blank on the default attribute is the same pixels as a black rectangle, at every depth |
| `Calendar.Mktime` | kernel/rtc.c:57-71 | The seconds since 1970 by the closed formula of the Gregorian calendar, modulo 32 bits; 0 exactly for fields out of range |
| `Calendar.UnixToTm` | user/date.c:41-71 | The subtracting loops give a date whose seconds by the closed formula are the argument, and its weekday |
| `Calendar.YearsInDays` | kernel/rtc.c:28-67 | The days to a year: 365 each and one for every fourth, without the hundredths and with the four hundredths |
| `Calendar.MonthsInDays` | kernel/rtc.c:40-53 | The days to a month in closed form, for leap years and others |
| `Calendar.MonthIs` | user/date.c:26-38 | The length of a month is what lies between it and the next |
| `Calendar.TmIsDate` | user/date.c:41-71 | Every second from 1970 on has a valid date, and the seconds of that date are that second |
| `Calendar.Ordered` | kernel/rtc.c:57-71 | Later dates are later seconds, so no two dates share one |
| `Calendar.SameInstant` | kernel/rtc.c:57-71 | Two valid dates with the same second are the same date |
| `Calendar.ClockRoundTrip` | kernel/rtc.c:57-71 | The date comes back from kernel seconds to user fields exactly until the seconds no longer fit a signed word, in 2038 |
| `Calendar.FirstLost` | user/date.c:41-71 | The first second that does not come back is 03:14:08 on 19 January 2038 |
| `Calendar.WeekdayMoves` | user/date.c:41-71 | Thursday first, and one on modulo 7 per day |
| `Calendar.WeekdayRange` | user/date.c:41-71 | Before 1970 the weekday is a weekday exactly when the remainder is not negative |
| `Calendar.WeekdayLost` | user/date.c:41-71 | Five days before 1970 the weekday is -1 |

## Left out

- Devices, their interrupt handlers beyond the wakeups and kills they make, the network stack, sockets, USB, and the user programs other than the shell parser, the allocator and the date conversion.
- Disk errors: every sector read and write succeeds and a sector is written whole.
- spinlock.c: nesting of `pushcli` and `popcli` and the interrupt flag; a lock is held by one CPU or process at a time, and that is all the protocols use.
- The inode cache as a table of fifty slots and its locks: an inode is held by its caller, `iget` and `iput` count references.
- Path walking, and directories as files of 16-byte entries: a directory is a sequence of entries with names of any length, so the cut to 14 characters is not captured, and the references a walk takes and drops on its way are not calls of the runs. A link whose new path has no parent is not modelled. `ialloc`'s search for a free inode is a parameter of `create`.
- Wrap-around of pids (32 bits) and of nlink (16 bits).
- ImageAgreement.Build: which files mkfs makes, their names and `diralign` are not fixed; any sequence of new files and appends is covered.
- FileSystem: it works on the stored contents and the header list, which `Journal` and `CrashInWrite` tie to the log, and not on objects of the cache and log classes; that its buffers fit in the cache is the business of `Log`.
- FileSystem.FileSystem.Bmap: needs a free data sector for each block it takes; without one balloc hands out log sectors (`LogSectorTaken`) and from then on nothing is promised.
- FileSystem.FileSystem.Writei: needs the blocks the file grows by, for the same reason.
- FileWrite.NeverFull: for transactions with new blocks under one bitmap sector; `ChunkFits` is exact for all that make the file grow.
- Heap.Heap.Realloc: memory is a map of header-sized units, and contents are copied unit by unit, not byte by byte; `calloc` is not modelled.
- Heap.Heap.MoreCore: the answer of sbrk is a parameter, a refusal or memory above the heap that is not in use.
- AddressSpace.Machine.WalkPgdir: a directory entry is absent or leads to a table; the repair of an entry that leads out of memory is not modelled.
- AddressSpace.Machine.AllocUvm: the new pages have none before; tables shared between processes are not followed.
- AddressSpace.Machine.FreeVm: one step that keeps everything else as it was; that user addresses below 0x4000 are not given back, and sharing of user tables, are not followed further.
- AddressSpace.Machine.SetupKvm: the contents of kmap are a parameter.
- AddressSpace.Machine.CopyUvm: contents and frames only; every page of the child is writable, as in the source, and permission bits are not compared.
- AddressSpace.Machine.Kalloc: any free frame; the list it comes from is the subject of the page allocator.
- exec's reading of ELF headers and segments, and the switch to the new image.
- PageAlloc.KMem.Kfree: the page is not filled with junk, and calls are one at a time.
- ShellGrammar.RoundTrip: for words without white space and symbols and at most nine arguments, as the source promises; running the commands is not modelled.
- FbConsole.Console.Clear: the grid is assigned at once; the graphics-mode flag, panic drawing and screens of fewer than three rows are left out, and fonts are a parameter.
- kmalloc.c, whose list is merged only when it happens to be in address order.
- fillstatfs's count of free inodes.
