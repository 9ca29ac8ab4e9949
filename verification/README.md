# A verified model of the xv6-nx-editor kernel and tools

This project models, in Dafny, the parts of the system whose correctness is hard to
see from the code, and proves what they promise:

- the write-ahead log over the buffer cache: `LogDisk`, `LogMachine` and `LogRuns` (every
  interleaving of processes, with a power cut after any sector write, also during
  recovery), `LruList` and `Storage` (the same code as it runs, sector write by
  sector write);
- the inode layer: `FsLayout`, `FsOwner`, `FsJournal` (the tape of log writes), `FsSpace`
  (what an operation needs in blocks), `FileSystem` (block maps, reading, writing,
  truncation, `filewrite`), `CrashSafety` (what power cuts leave of a file system),
  `FilewriteCrash` (what they leave of a long write),
  `Paths`, `Directories`, `NameLayer` (directories as name maps, reference counts, path
  resolution), `FirstTree` (the directory mkfs writes), `SmallDisks` (failures at
  concrete inputs);
- the user-space allocator: `Umalloc`;
- processes: `SleepWakeup`, `ProcessTable`, `Pipe`, `PipeProtocol`;
- virtual memory: `PageTable`, `PageSteps`, `Mmu` (what the processor makes of the page
  tables), `UserMemory`;
- the regular expression matcher `Grep`, the shell parser `ShellGrammar`,
  `ShellText`, `ShellUnique`, `Shell`, and the editor's text buffer `TextRows`, `TextFrame`,
  `TextDelete`.

`Finite`, `Blocks` and `Wrappers` hold shared definitions. `dafny verify dfyconfig.toml` checks
the whole project.

How the source is rendered:

- Code that updates things in place is a class whose methods change its fields, its
  arrays, or the sequences that stand for memory; ghost fields give the abstract view
  (`order`, `owner`, `ring`, `role`, ...). What the methods keep is proved about pure
  states first (`LogMachine.Sys`, `FsOwner.Fs`, `Umalloc.Heap`, `ProcessTable.Table`,
  `PageTable.Vm`), and each method is tied to a step on such a state.
- Protocols between processes are state machines whose steps are the critical
  sections; statements about them are for every run.
- A `panic` is a precondition, or a result (`None`, `Panic`, `NoBuffers`,
  `OutOfBlocks`) where the caller can meet it.
- The disk is a sequence of 512-byte sectors with atomic reads and writes, which is
  what `iderw` in `src/memide.c:37-58` does. `sbrk`, the free list a kernel starts
  with, the pieces in which a file arrives and the order in which processes run are
  parameters or free choices.
- C integers are written out where their width matters: the wrapping pipe counters,
  the overflow tests of `readi` and `writei`, the wrap-around in `malloc`'s rounding.

Things the model makes visible in the code:

- A disk inode fills a sector (`src/fs.h`), so an inode block holds one inode.
- `balloc` scans the whole disk, and the log area at its end is not marked in the
  bitmap: it hands out a log sector exactly when everything below the log is taken
  (`FileSystem.Balloc`; `SmallDisks.ScanIntoLog` is such a disk). A write is safe against
  power cuts exactly if it finds its blocks below the log (`CrashSafety.WriteSettles`).
- `writei` saves the inode only when the file grows. A write into a hole leaves a new
  block address in memory only (`FileSystem.Writei` says exactly when;
  `SmallDisks.WriteUnsynced`). If such an inode is then put back for the last time, the
  address is lost (`NameLayer.DroppedInv`).
- `readi` through a hole allocates (`FileSystem.Readi` says exactly when;
  `SmallDisks.ReadAllocates`), and so does looking up a name in a directory with a hole.
  Allocating writes to the log, so it needs a running transaction. `fileread` and the
  callers of `namei` have none, and there `log_write` panics with "write outside of trans"
  (`src/log.c:166-167`). `NameLayer.Solid` is the condition under which a walk never gets to
  that panic, and `NameLayer.NoDirHoles`, which `iput` and `dirlink` keep, implies it.
  mkfs leaves a hole in the root directory when the entries fill whole blocks
  (`FirstTree.FirstHole`), and it does not notice repeated file names
  (`FirstTree.RootUnique`).
- A killed pipe writer leaves without waking sleeping readers (`PipeProtocol`).
- `allocuvm` ignores a failing `mappages`: when the free list has one frame left where
  a page table is needed too, that frame is lost, and if it was for the last page the
  call still reports success (`UserMemory.AddressSpace.Allocuvm`, `UserMemory.LostFrame`).
- `deallocuvm` steps 4 MB past a missing page table from wherever it is, which is
  right because user pages are contiguous.
- `>>` is opened like `>` (the comment in `src/sh.c:408` suggests appending).
- `textframe_adjust_r_c` sends a negative row past the end of the text, so an insertion
  of one row there is lost. With several inserted rows `textframe_insert` then reads past
  the rows of the text.
- `textframe_delete` takes the length of what is left of the end row from the start row
  (`src/textframe.c:330`). Within one row deleting is cutting the joined text; over several
  rows it is exactly if the start row is at least as long as the end row or nothing of the
  end row is left (`TextDelete.DeleteIsCut`; `TextDelete.DeleteLoses` loses two letters).
- `move_to_pos` compares a column with the unsigned result of `strlen`, so every negative
  column means the end of the row.
- `textframe_write` does not look at the result of writing a newline; when that fails two
  rows run together and success is reported (`TextFrame.TextFrame.Save`).
- `malloc`'s block is too small exactly when `nbytes + 7` wraps around, and for requests
  from 0x7FFF_FFF1 bytes on it asks `sbrk` for a negative amount (`Umalloc.AskedIsMeant`).

## Model

| member | source | states |
|---|---|---|
| `LogDisk.HeaderRoundTrip` | src/log.c:86-113 | the sector list read from a header sector is the list written into it |
| `LogDisk.HeaderBytes` | src/log.c:36-39 | the header sector holds the count in its first four bytes and then four bytes for each sector, the lowest first |
| `LogDisk.InstallAt` | src/log.c:70-82 | after k installs exactly the first k logged sectors hold their logged blocks, all others are untouched |
| `LogDisk.InstallAgain` | src/log.c:70-82 | installing again from any partly installed disk gives the fully installed disk |
| `LogDisk.RecoverFromInside` | src/log.c:70-122 | a disk left by a power cut at any sector write of recovery is well formed and recovers to the same disk |
| `LogDisk.RecoveryIsRestartable` | src/log.c:70-122 | after any number of recoveries cut short anywhere, the one that completes reaches the disk the first would have reached, with an empty log |
| `LogDisk.RecoverEmpty` | src/log.c:116-122 | with an empty log recovery leaves the home area alone |
| `LogMachine.StepRefines` | src/log.c:70-181 | each step (cache hit, recycling, read, edit, log write, header write, install, clear, crash, boot) of any process keeps the invariant of disk, log and cache; the image recovery would give changes at the header write alone |
| `LogMachine.StepPlays` | src/log.c:70-181 | the same for the transition relation of the interleaved system |
| `LogMachine.RunRefines` | src/log.c:70-181 | every run, with any interleaving and any number of power cuts, keeps the invariant and behaves as an atomic store that takes all of a transaction's writes at its commit |
| `LogMachine.BetweenTransactions` | src/log.c:136-149 | with nothing logged, disk, view and recovered image agree and no buffer is dirty |
| `LogRuns.AlongRun` | src/log.c:116-181 | at every step of a run while a transaction is under way the disk recovers to the old image before the header write and to the old image with all the transaction's writes after it |
| `LogRuns.TransactionIsAtomic` | src/log.c:116-181 | over whole runs, from begin_trans to the next moment the log is idle, with any interleaving and any power cuts, also during recovery: the home area on disk has all the writes of the transaction if its header was written, and none otherwise |
| `LogRuns.NothingBegins` | src/log.c:116-122 | boots and power cuts without a begin_trans leave the recovered image as it is |
| `LogMachine.CacheAndLogAgree` | src/bio.c:62-138 | one buffer per sector; clean free buffers equal the disk; between transactions none is dirty; during one the dirty buffers are exactly the sectors in log.lh |
| `LogMachine.CleanShowsDisk` | src/bio.c:97-105 | a valid clean buffer nobody holds shows its sector |
| `LogMachine.NoEarlyWrite` | src/log.c:136-149 | no home sector changes on disk before its transaction has committed |
| `LogMachine.DirtyIsKept` | src/bio.c:80-92 | a dirty buffer is neither recycled nor cleaned before its sector is installed |
| `LogMachine.PowerOnInv` | src/log.c:54-66 | the state at power-on has the invariant |
| `LruList.Unlink` | src/bio.c:120-138 | the two pointer writes that take a buffer out of the ring leave a ring of the others |
| `LruList.PushFront` | src/bio.c:39-56 | the four pointer writes that put a buffer behind the head leave a ring with it in front |
| `LruList.Lru.constructor` | src/bio.c:39-56 | binit leaves all buffers in one doubly linked ring |
| `LruList.Lru.MoveToFront` | src/bio.c:126-132 | brelse makes the buffer the first of the ring and keeps the order of the others |
| `Storage.RoomInCache` | src/bio.c:80-92 | "bget: no buffers" cannot happen while held buffers and logged sectors are fewer than the buffers |
| `Storage.TransactionHasRoom` | src/bio.c:80-92 | nor while the sectors a transaction works on and the buffers other processes hold are fewer than the buffers |
| `Storage.SlotFor` | src/log.c:169-172 | the absorption loop finds the sector's slot in log.lh, or the end |
| `Storage.BlockLayer.constructor` | src/log.c:54-66 | an empty cache over a well-formed device is a power-on state |
| `Storage.BlockLayer.Bget` | src/bio.c:62-93 | a hit is found anywhere; a miss recycles the least recently used buffer that is neither held nor dirty; sleeping and having no buffer change nothing and happen only when they must |
| `Storage.BlockLayer.Bread` | src/bio.c:97-105 | the returned buffer is held and valid, and shows the disk unless it was cached |
| `Storage.BlockLayer.Bwrite` | src/bio.c:109-115 | exactly one sector changes on disk, to the buffer's data, and the buffer is clean |
| `Storage.BlockLayer.Brelse` | src/bio.c:120-138 | the buffer is free and most recently used, nothing else changes |
| `Storage.BlockLayer.LogWrite` | src/log.c:160-181 | one sector write into the log; the home area and the recoverable image do not change; the transaction's view gains the write; repeated writes are absorbed. It needs only that the log block is cached or some buffer can be recycled |
| `Storage.BlockLayer.WriteHead` | src/log.c:102-113 | one sector write: the commit point when log.lh has sectors, the erasure of the log when it is empty |
| `Storage.BlockLayer.InstallTrans` | src/log.c:70-82 | one sector write per logged sector, after each of which the disk recovers to the same image |
| `Storage.BlockLayer.BeginTrans` | src/log.c:125-133 | waits exactly while a transaction runs |
| `Storage.BlockLayer.CommitWrites` | src/log.c:136-149 | after every one of the sector writes of a commit the disk recovers to the image with all the transaction's writes |
| `Storage.BlockLayer.CommitTrans` | src/log.c:136-149 | from its first sector write on a crash gives the new image; at the end the home area is the new image, the log is empty and no buffer is dirty; an empty transaction writes nothing |
| `Storage.BlockLayer.ReadHead` | src/log.c:86-96 | the in-memory header becomes the one on disk |
| `Storage.BlockLayer.RecoverFromLog` | src/log.c:116-122 | from any well-formed disk the home area becomes the recovered image and the log empty, and a power cut after any of its sector writes loses nothing |
| `FsLayout.SetBitAt` | src/fs.c:64-67 | setting a bit of a byte changes that bit alone |
| `FsLayout.ClearBitAt` | src/fs.c:88-92 | clearing a bit of a byte changes that bit alone |
| `FsLayout.WithMarkAt` | src/fs.c:53-95 | changing one block's mark in the bitmap changes no other block's |
| `FsLayout.UnmarkedBy` | src/fs.c:80-95 | clearing a block's bit frees that block and leaves all other marks and sectors alone |
| `FsLayout.MarkIsBit` | src/fs.h:42-46 | block b's mark is bit b % 8 of byte b % 4096 / 8 of sector b / 4096 + ninodes + 3 |
| `FsLayout.InodeRoundTrip` | src/fs.c:202-297 | an inode written by iupdate and read by ilock is the same inode |
| `FsLayout.DecodesBytes` | src/fs.h:27-34 | the inode read from a sector has type, major, minor and nlink from two bytes each, then the size and 125 addresses from four each, for any sector |
| `FsLayout.EncodesBytes` | src/fs.h:27-34 | the sector written for an inode has exactly these bytes |
| `FsOwner.FreshImage` | src/mkfs.c:92-117 | an image with the metadata marked and no file blocks has the ownership invariant |
| `FsOwner.BlockAddrIs` | src/fs.c:357-384 | the first 124 blocks of a file are in the inode's addresses, the other 128 in the block that the last address names, four bytes each |
| `FsOwner.OwnedOnce` | src/fs.c:357-384 | no block is named by two slots of any inodes or indirect blocks |
| `FsOwner.SlotInRange` | src/fs.c:357-384 | a named block is a marked data block owned by that slot |
| `FsOwner.LinkAddr` | src/fs.c:362-372 | allocating into an address of the inode keeps ownership and every file's bytes |
| `FsOwner.LinkEntry` | src/fs.c:373-380 | allocating into an entry of the indirect block keeps ownership and every file's bytes |
| `FsOwner.DropOwner` | src/fs.c:80-95 | freeing a slot's block takes exactly that block out of the marks and the ownership |
| `FsOwner.OthersSame` | src/fs.c:463-492 | files whose inodes and blocks are left alone keep their bytes |
| `FsJournal.WrittenMore` | src/log.c:160-181 | replaying two stretches of log writes one after the other is replaying them as one |
| `FsJournal.LogsChanged` | src/log.c:160-181 | a sector that differs was passed to log_write |
| `FsSpace.TookOne` | src/fs.c:53-76 | the lowest free block comes from below the log while there is one there |
| `FsSpace.MissingIsZeroSlots` | src/fs.c:357-384 | the blocks a range of a file lacks are the zero slots on the way to it, the indirect block included |
| `FsSpace.PaidJoin` | src/fs.c:357-384 | mapping two stretches of a file one after the other takes the blocks the whole lacks |
| `FsSpace.PaidOverlap` | src/file.c:132-151 | mapping a stretch that starts in the block where the one before it ended takes, with it, the blocks the whole lacks |
| `FsSpace.PaidShort` | src/fs.c:57-76 | a block that cannot be had on the way means that the disk had fewer free blocks than the file lacked |
| `FileSystem.Freeable` | src/fs.c:90-91 | "freeing free block" cannot happen in truncation: what a slot names is marked |
| `FileSystem.NoHolesMapped` | src/fs.c:463-492 | writing inside a file without holes needs no new block |
| `FileSystem.ChunkLogs` | src/file.c:132-151 | a chunk of at most 1536 bytes logs at most 4 blocks, the indirect block, the inode and the bitmap sectors |
| `FileSystem.FileSystem.Balloc` | src/fs.c:53-76 | the lowest free block, marked and zeroed; it lies in the log area if and only if every block below the log is marked |
| `FileSystem.FileSystem.Bfree` | src/fs.c:80-95 | the block is free; every other block's mark and every sector but its bitmap sector is as before |
| `FileSystem.FileSystem.Bmap` | src/fs.c:357-384 | the block's address, allocated with the indirect block where missing; ownership is kept, no file's bytes change, only the slots on the way change; it takes exactly the blocks missing and fails exactly if the disk has fewer; every change is logged, and only bitmap, block and indirect block are |
| `FileSystem.FileSystem.Readi` | src/fs.c:435-458 | fails exactly for an offset past the end or an overflow; otherwise returns exactly the slice of the contents clipped at the size, across blocks, the indirect boundary and holes; nothing changes if and only if the blocks read are all mapped, and it runs out of blocks if and only if the disk has fewer free blocks than they lack |
| `FileSystem.FileSystem.Iupdate` | src/fs.c:202-217 | sector inum + 2 holds the in-memory inode, byte for byte, and no other sector changes |
| `FileSystem.FileSystem.WriteLoop` | src/fs.c:477-485 | the copy loop patches exactly the bytes off .. off+n-1 of this file |
| `FileSystem.FileSystem.Writei` | src/fs.c:463-492 | fails exactly for an offset past the end, an overflow or a file too large, runs out of blocks exactly if the disk has fewer free blocks than the range lacks; otherwise lays the bytes over the contents at the offset, sets the size to max(size, off+n), leaves every other file as it was, makes no hole, takes exactly the blocks missing; its log writes replayed give the new image; the inode on disk stays up to date if and only if the file grew or no address was missing |
| `FileSystem.FileSystem.Itrunc` | src/fs.c:392-419 | exactly the blocks of this file are free again, the other files keep their contents, the inode on disk is up to date and no other inode's sector changes; the log writes replayed give the new image |
| `FileSystem.FileSystem.FreeInode` | src/fs.c:318-336 | an unlinked inode gives back exactly its blocks, its size and type are cleared, also on disk, and its other fields are kept |
| `FileSystem.FileSystem.WriteChunk` | src/file.c:139-144 | one transaction of filewrite: fails exactly as writei does, otherwise the chunk is laid over the contents, with the blocks it lacked taken and no hole made; its log writes replayed give the new image and touch at most 7 + size/4096 sectors |
| `FileSystem.FileSystem.Filewrite` | src/file.c:117-155 | the chunks together lay the data over the contents; the stages between the transactions each hold the old contents under a prefix of the data that ends at a chunk; the log writes of the transactions, replayed in order, give the new image; each transaction logs at most 7 + size/4096 sectors, so with at most two bitmap sectors and ten log sectors none is too big |
| `CrashSafety.CrashConsistent` | src/log.c:116-181 | in every run of the machine: a file-system transaction that starts on a disk holding one file system, cut at any step and any number of times, ends with the disk holding by itself the new file system if the header was written and the old one otherwise; every block is owned at most once and marked exactly if it is metadata or owned |
| `CrashSafety.EveryIdleStateIsConsistent` | src/log.c:116-181 | in every run whose transactions are file-system operations the disk is consistent whenever the log is idle, however often power was cut |
| `CrashSafety.WrittenHome` | src/log.c:70-82 | the home area after the log writes depends on the home area and the writes to it alone |
| `CrashSafety.LogAreaIrrelevant` | src/fs.c:53-76 | while no block of the log area is in use, what the log holds does not matter to any file |
| `CrashSafety.WriteSettles` | src/fs.c:463-492 | after a write the disk is consistent if and only if the blocks free below the log were at least the zero slots the write had to fill and the inode on disk did not fall behind |
| `CrashSafety.WriteTransaction` | src/file.c:139-144 | a write as one transaction: the exact condition, on the state before it, for ending consistent; then its log writes lead from the old file system to the new; for a file without holes room below the log is enough |
| `CrashSafety.TruncateTransaction` | src/fs.c:392-419 | truncation as one transaction always ends consistent |
| `CrashSafety.FreeTransaction` | src/fs.c:318-336 | so does freeing an unlinked inode |
| `CrashSafety.LinkSettles` | src/fs.c:533-559 | a directory link ends consistent if and only if the blocks the directory lacks, with the new entry, are free below the log and its inode on disk does not fall behind |
| `CrashSafety.LinkTransaction` | src/fs.c:533-559 | dirlink as one transaction, with that condition on the state before it |
| `CrashSafety.PerformedCarries` | src/fs.c:318-559 | writei, itrunc, the freeing iput and dirlink lead from a consistent disk to a consistent disk if and only if a condition on the state before them holds: none for truncating and freeing, room below the log and an inode that does not fall behind for the others |
| `CrashSafety.OperationsKeepConsistency` | src/log.c:116-181 | in every run whose committed transactions are such operations, performed where they are allowed, the disk is consistent whenever the log is idle, however often power was cut |
| `CrashSafety.ChunkHasBuffers` | src/file.c:132-151 | with ten buffers and one bitmap sector a chunk of filewrite never meets "bget: no buffers" while other processes hold at most two |
| `FilewriteCrash.StageSettles` | src/file.c:132-151 | a stage of filewrite on a file without holes is consistent if and only if what was written up to it found room below the log |
| `FilewriteCrash.PrefixHeld` | src/log.c:116-181 | when the transactions of filewrite follow one another in a run with any number of power cuts, the disk holds the stage with as many chunks as headers were written |
| `FilewriteCrash.FilewriteSurvives` | src/file.c:117-155 | in every such run that starts consistent and with room below the log, the disk ends consistent and the file has its old contents under a prefix of the data that ends at a chunk, one chunk for each header written |
| `Paths.Skipelem` | src/fs.c:577-599 | on the path's bytes: behind slashes only, the name is the bytes up to the next slash or the end, at most 14; the rest is what follows the element and its slashes; no element exactly if there are only slashes; the components are the name and those of the rest |
| `Paths.ComponentsAre` | src/fs.c:577-599 | the components of a path are, in order, the names at the places where an element begins, each up to 14 bytes of it |
| `Directories.SameName` | src/fs.c:498-501 | two names are the same if and only if their first 14 bytes up to a NUL are |
| `Directories.Lookup` | src/fs.c:506-529 | the i-number of an entry that binds the name, zero if and only if none does |
| `Directories.EntryBytes` | src/fs.h:48-54 | an entry's i-number is in its first two bytes, its name in the other 14, up to a NUL |
| `Directories.DirentBytes` | src/fs.c:553-555 | a new entry has these bytes, and NULs behind the name |
| `Directories.LinkAddsBinding` | src/fs.c:533-559 | a new entry in a free place binds the name, leaves all other names as they were and keeps names unique |
| `NameLayer.RefsUpdate` | src/fs.c:223-253 | changing one cache entry changes the reference counts by what it held and holds |
| `NameLayer.KeepsInv` | src/fs.c:223-297 | taking or locking entries keeps the invariant of the name layer: directories in order, named inodes in use linked or held, unsaved inodes held |
| `NameLayer.FreedInv` | src/fs.c:318-336 | freeing the last reference to an unlinked inode keeps it |
| `NameLayer.DroppedInv` | src/fs.c:318-336 | dropping any other reference keeps it if and only if the entry stays in use or the inode on disk is up to date |
| `NameLayer.FilledInv` | src/fs.c:435-458 | filling holes of a directory that is held keeps it |
| `NameLayer.LinkedInv` | src/fs.c:533-559 | a new entry for an anchored inode keeps it |
| `NameLayer.TargetStep` | src/fs.c:605-637 | one step along a path does not change where the rest of it leads |
| `NameLayer.SolidWithoutHoles` | src/fs.c:605-637 | where no directory has a hole every walk only reads |
| `NameLayer.FreedNoDirHoles` | src/fs.c:318-336 | freeing an inode makes no hole in any directory |
| `NameLayer.GrewNoDirHoles` | src/fs.c:533-559 | neither does filling the blocks of one directory |
| `NameLayer.Names.Iget` | src/fs.c:223-253 | the one entry for the inode, with one more reference; fails only when every entry is in use |
| `NameLayer.Names.BumpRef` | src/fs.c:258-264 | the inode's count changes by one, no other count changes |
| `NameLayer.Names.Iput` | src/fs.c:318-336 | one reference less; exactly the last reference to an unlinked inode frees its blocks; the invariant is kept if and only if the inode is freed, still held or up to date on disk; directories without holes stay so |
| `NameLayer.Names.Ilock` | src/fs.c:269-297 | the inode read from disk is the one everybody means, so nothing but the entry changes; it panics if and only if the entry was not valid and the inode is free |
| `NameLayer.Names.Scan` | src/fs.c:514-527 | the i-number the name map gives; the blocks up to the entry are mapped afterwards, and nothing changed if and only if they were before |
| `NameLayer.Names.Dirlookup` | src/fs.c:506-529 | finds the inode the directory's name map gives, with one more reference; it only reads if and only if the blocks up to the entry, or all of them if there is none, are mapped; it panics only on a size that is no multiple of 16, a full inode table or a hole on a full disk |
| `NameLayer.Names.Namex` | src/fs.c:605-637 | the inode found by folding the name maps over the path's components, or the parent and last name; all reference counts as before except one more for the result; the invariant is kept; it panics only with a full inode table or on a path through a freed inode |
| `NameLayer.Names.EmptyEntry` | src/fs.c:546-551 | the first empty entry or the end, read without changing anything after a full lookup |
| `NameLayer.Names.Dirlink` | src/fs.c:533-559 | refuses a bound name, panics only without a cache entry, a free block or room in the directory; otherwise adds exactly one binding, keeps the directory's other fields, all other files and counts, takes exactly the blocks the directory lacked, leaves it without holes, and keeps the invariant for an inode that is free or anchored; directories without holes stay so; the inode on disk is up to date if and only if the directory grew or no address was missing |
| `FirstTree.RootEntry` | src/mkfs.c:107-141 | the root directory that mkfs writes has "." and ".." for inode 1, the k-th file for inode k + 1 under the first 14 bytes of its name, and nothing but empty entries behind them |
| `FirstTree.RootUnique` | src/mkfs.c:120-141 | they bind each name once if and only if the file names differ in their first 14 characters and none is "." or ".." |
| `FirstTree.FirstTreeIsSound` | src/mkfs.c:107-153 | on such a disk with an empty inode table the invariant of the name layer holds under exactly that condition |
| `FirstTree.FirstHole` | src/mkfs.c:148-153 | rounding its size up leaves a hole in the root directory if and only if the entries fill whole blocks |
| `SmallDisks.RootedIsMade` | src/mkfs.c:107-153 | for any 30 file names there is a disk as mkfs makes it, with 32 entries in its root directory and a hole behind them |
| `SmallDisks.ReadAllocates` | src/fs.c:450-455 | on such a disk reading the entry behind the full block, as looking up a new name does, changes the file system |
| `SmallDisks.WriteUnsynced` | src/fs.c:477-490 | writing the entry there, as dirlink does, leaves the inode on disk behind |
| `SmallDisks.ScanIntoLog` | src/fs.c:53-76 | with the data blocks in use balloc returns the sector of the log header |
| `Umalloc.Disjoint` | src/umalloc.c:24-90 | blocks, free or live, do not overlap |
| `Umalloc.Conservation` | src/umalloc.c:24-90 | free units and live units together are the units obtained from sbrk |
| `Umalloc.InsertSound` | src/umalloc.c:30-42 | linking a block in where it belongs keeps one address-ordered ring that tiles the heap |
| `Umalloc.MergeSound` | src/umalloc.c:33-42 | joining two touching free blocks keeps it |
| `Umalloc.FreedValid` | src/umalloc.c:25-44 | after free no two free blocks touch, the block is no longer live, and no unit is gained or lost |
| `Umalloc.TakenValid` | src/umalloc.c:75-77 | unlinking a block that fits exactly keeps the heap valid |
| `Umalloc.SplitValid` | src/umalloc.c:78-82 | cutting the tail off a larger block keeps the heap valid |
| `Umalloc.GrownValid` | src/umalloc.c:47-61 | memory from sbrk joins the heap as one block |
| `Umalloc.UnitsEnough` | src/umalloc.c:69 | the rounded size holds the request and a header if and only if the addition does not wrap around, and is never more than seven bytes beyond them |
| `Umalloc.AskedIsMeant` | src/umalloc.c:47-57 | sbrk is asked for the bytes meant if and only if the request is below 0x7FFF_FFF1 or wraps around; in between it is asked for nothing or to give memory back |
| `Umalloc.AskedBackwards` | src/umalloc.c:47-57 | a request of 0x7FFF_FFF8 bytes takes two gigabytes away |
| `Umalloc.LapDone` | src/umalloc.c:74-88 | back at freep, every free block was seen and is too small |
| `Umalloc.Allocator.FindPlace` | src/umalloc.c:30-32 | the search loop ends at the ring element behind which the block belongs |
| `Umalloc.Allocator.Free` | src/umalloc.c:25-44 | the heap stays valid, exactly this block is no longer live, live blocks keep their size |
| `Umalloc.Allocator.Morecore` | src/umalloc.c:47-61 | fails changing nothing, or the heap has gained one run of as many units as asked for but at least 4096, and the ring has a block that is large enough |
| `Umalloc.Allocator.Carve` | src/umalloc.c:75-84 | a new live block of exactly the wanted size, no unit gained or lost |
| `Umalloc.Allocator.Search` | src/umalloc.c:74-88 | a block of exactly the wanted size, or none when no free block is large enough and sbrk refuses; more memory is obtained at most once, so at most one further lap follows |
| `Umalloc.Allocator.Malloc` | src/umalloc.c:64-90 | exactly one new live block that holds the request with less than eight bytes to spare, all other live blocks untouched; or nothing changed, only when no free block is large enough and sbrk refuses |
| `SleepWakeup.StepKeepsInv` | src/proc.c:343-397 | every interleaved step of sleepers and wakers keeps the invariant |
| `SleepWakeup.RunKeepsInv` | src/proc.c:343-397 | every run keeps it |
| `SleepWakeup.NoLostWakeup` | src/proc.c:343-397 | a process sleeps on a channel whose condition holds only while a waker is on its way to wakeup1 |
| `ProcessTable.FirstProcess` | src/proc.c:79-103 | the table with init alone has the invariant |
| `ProcessTable.ExitInv` | src/proc.c:167-204 | exit keeps the invariant: no one sleeps in wait past a zombie child, without children or when killed, parents are alive, pids distinct |
| `ProcessTable.ReapInv` | src/proc.c:209-247 | collecting a zombie keeps it |
| `ProcessTable.StepKeepsInv` | src/proc.c:129-420 | every step of fork, exit, wait, wakeup, sleep, scheduling and kill keeps it |
| `ProcessTable.RunKeepsInv` | src/proc.c:129-420 | every run keeps it; whoever has exited is a zombie or was collected by the process that forked it or by init, by pid |
| `ProcessTable.ReapedOnce` | src/proc.c:209-247 | a pid is collected at most once in a run, and who collected it never changes |
| `ProcessTable.KillTakes` | src/proc.c:403-420 | in every run a killed process is out of any sleep at once, stays marked until it is collected and is never asleep in wait |
| `ProcessTable.Ptable.Wakeup1` | src/proc.c:381-388 | exactly the sleepers on the channel become runnable |
| `ProcessTable.Ptable.Wakeup` | src/proc.c:392-397 | the same under the lock, keeping the invariant |
| `ProcessTable.Ptable.HandOver` | src/proc.c:191-198 | the children go to init, which is woken exactly if one is a zombie |
| `ProcessTable.Ptable.Exit` | src/proc.c:167-204 | the process is a zombie and its children are init's, a parent sleeping in wait is woken, init too if it inherits a zombie, and nothing else changes; the invariant is kept |
| `ProcessTable.Ptable.Wait` | src/proc.c:209-247 | collects the first zombie child if and only if there is one, clearing its entry and no other; fails if and only if there is none and the process has no children or is killed; sleeps otherwise |
| `ProcessTable.Ptable.Allocproc` | src/proc.c:35-50 | the first unused slot becomes an embryo with the next pid and no other changes, or none if all are used |
| `ProcessTable.Ptable.Kill` | src/proc.c:403-420 | the first entry with the pid is marked, runnable if it was sleeping and otherwise in its state, with pid, parent and channel as before and no other entry changed; it fails if and only if none has the pid |
| `Pipe.FullTest` | src/pipe.c:84 | on wrapped counters the test for a full ring is exact |
| `Pipe.QueuePut` | src/pipe.c:92 | storing a byte at the wrapped write counter appends it to the queue |
| `Pipe.QueueTake` | src/pipe.c:115 | reading at the wrapped read counter takes the oldest byte |
| `Pipe.Pipe.constructor` | src/pipe.c:22-56 | an empty pipe, both ends open |
| `Pipe.Pipe.Put` | src/pipe.c:83-93 | appends as many bytes as there is room for |
| `Pipe.Pipe.Take` | src/pipe.c:112-116 | takes the oldest bytes, as many as wanted and present |
| `Pipe.Pipe.WriteTurn` | src/pipe.c:78-97 | what pipewrite does before it returns or sleeps: success if and only if all bytes were appended, -1 if and only if some are left and the read end is closed or the process killed; otherwise the ring is full and it sleeps; it wakes readers unless it fails |
| `Pipe.Pipe.ReadTurn` | src/pipe.c:100-120 | the oldest bytes, as many as wanted and there; -1 if and only if there are none, the write end is open and the process killed; sleep if and only if the same holds and it is not killed |
| `PipeProtocol.StepKeepsInv` | src/pipe.c:59-120 | at most 512 bytes wait; bytes written are bytes read followed by bytes waiting |
| `PipeProtocol.StepKeepsSleepOk` | src/pipe.c:59-120 | a step breaks the sleeping rule if and only if it is a killed writer with more than 512 bytes left while a reader sleeps |
| `PipeProtocol.ReadIsPrefix` | src/pipe.c:59-120 | in every run, kills included, what was read is a prefix of what was written, at most 512 bytes behind |
| `PipeProtocol.ReturnsTell` | src/pipe.c:78-97 | in every run, kills included, pipewrite returns its count if and only if all its bytes went in, and -1 if and only if some did not; what went in is a beginning of its data, in order, mixed only with other writers' bytes |
| `PipeProtocol.WriteReturns` | src/pipe.c:78-97 | a turn of a writer returns if and only if the rest fits, the read end is closed or it is killed, with the count exactly if the rest fits |
| `PipeProtocol.ReadReturns` | src/pipe.c:100-120 | a turn of a reader returns if and only if there are bytes, the write end is closed or it is killed; it returns no bytes for a positive count only at the end of the file |
| `PipeProtocol.KilledNeverSleep` | src/pipe.c:84-111 | in every run no killed process is asleep in a pipe |
| `PipeProtocol.RunKeepsSleepOk` | src/pipe.c:59-120 | every run without such a step obeys the sleeping rule |
| `PipeProtocol.SleepersWait` | src/pipe.c:59-120 | in every run without kill a sleeping reader means an empty pipe with its writer open, a sleeping writer a full pipe with its reader open, so never both |
| `PipeProtocol.EndOfFile` | src/pipe.c:105-120 | after the write end is closed no reader sleeps and a drained pipe reads as end of file |
| `PipeProtocol.KilledWriterStrandsReader` | src/pipe.c:84-88 | a run in which a killed writer leaves a reader asleep on a full pipe |
| `PageTable.PoppedInv` | src/kalloc.c:83-95 | taking the first free frame keeps the invariant |
| `PageTable.WithTableInv` | src/vm.c:46-65 | a zeroed frame becomes a page table without changing the page map |
| `PageTable.WithPageInv` | src/vm.c:71-90 | writing a page's entry changes the page map at that page alone and keeps every frame in one use |
| `PageTable.WithoutPageInv` | src/vm.c:263-270 | freeing a page's frame and clearing its entry keeps it |
| `PageSteps.SkipIsSafe` | src/vm.c:260-262 | where the page table of a page is missing no page from there up is mapped |
| `PageSteps.StuckOnce` | src/vm.c:221-243 | there is at most one page at which one frame is left and a page table is needed besides |
| `PageSteps.AllFree` | src/kalloc.c:60-95 | the free list has no frame twice and has every frame without another use |
| `Mmu.TranslateIs` | src/mmu.h:133-144 | what the processor finds for an address in directory and table is the page map: the frame, and whether a process may write and user code may go there |
| `Mmu.NoAliasing` | src/vm.c:46-90 | two user addresses lead to the same frame if and only if they are in the same page, and never to the directory, a page table or a free frame |
| `Mmu.KeptAddress` | src/vm.c:221-273 | a user address that stays mapped leads to the same frame, with the same rights and the same contents |
| `Mmu.OutcomeZeros` | src/vm.c:221-243 | when allocuvm reports success every address of the new pages is usable by the process and reads zero, except that the last page faults if the frame for its table was missing |
| `Mmu.ShrunkFaults` | src/vm.c:250-273 | every address of the pages that deallocuvm drops faults |
| `UserMemory.AddressSpace.constructor` | src/kalloc.c:46-52 | freerange and a zeroed directory give an address space with no page and all other frames free |
| `UserMemory.AddressSpace.Kalloc` | src/kalloc.c:83-95 | the first frame of the list, null if and only if it is empty |
| `UserMemory.AddressSpace.Kfree` | src/kalloc.c:60-77 | the frame is the first of the list, its first word points at the old first frame and all its other bytes are ones |
| `UserMemory.AddressSpace.Walkpgdir` | src/vm.c:46-65 | the page's table, which the directory names with the present, write and user bits; made of a zeroed frame only if asked; null if and only if it is missing and may not or cannot be made |
| `UserMemory.AddressSpace.Mappages` | src/vm.c:71-90 | the page map gains exactly the pages of the range, in order, all of them or until no frame is left for a page table; each new entry is the frame with the asked bits and the present bit, and the processor translates every address of the range accordingly |
| `UserMemory.AddressSpace.Deallocuvm` | src/vm.c:250-273 | exactly the pages from the new size to the old are unmapped and their frames freed once, and their addresses fault; the 4 MB skip misses none; remaining pages keep their contents |
| `UserMemory.AddressSpace.Allocuvm` | src/vm.c:221-243 | with enough frames for the pages and their tables exactly the new pages are mapped, and every address in them is usable by the process and reads zero; with fewer every user frame is given back; one frame is lost if and only if the list runs out where a table is needed |
| `UserMemory.AddressSpace.Freevm` | src/vm.c:278-292 | every frame of the address space is on the free list, once, and no frame outside it is touched |
| `UserMemory.LostFrame` | src/vm.c:221-243 | with one free frame and no page table, growing to one page reports success, maps nothing and loses the frame |
| `Grep.HereStar` | src/grep.c:88-89 | a starred character matches any run it accepts, then the rest |
| `Grep.HereOne` | src/grep.c:92-93 | any other element matches exactly one character |
| `Grep.HereDollar` | src/grep.c:90-91 | a final dollar matches only the end |
| `Grep.PlainIsFound` | src/grep.c:72-105 | a pattern of characters and dots is found exactly where the text has these characters, any one for a dot |
| `Grep.MatchHere` | src/grep.c:84-95 | true if and only if some prefix can be cut into pieces the pattern's elements accept, all of the text if the pattern ends in a dollar; the recursion ends |
| `Grep.MatchStar` | src/grep.c:98-105 | true if and only if some run of accepted characters is followed by a match of the rest |
| `Grep.Match` | src/grep.c:72-81 | true if and only if the pattern matches at some position, only the first if it starts with a caret |
| `ShellGrammar.LineWords` | src/sh.c:339-464 | each word token of a line in the grammar is exactly once an argument or a redirection file of its command |
| `ShellText.TokensText` | src/sh.c:273-320 | the tokens are the line cut into words, as long as they can be, and marks, with nothing but blanks between them |
| `ShellText.LexedUnique` | src/sh.c:273-320 | a line can be cut into tokens in one way only |
| `ShellText.LineParts` | src/sh.c:339-464 | the command of a line in the grammar has the line's arguments, its separators and its files to open, one for one and in order, the inner redirection first: a file behind < is opened read-only as descriptor 0, one behind > or >> for writing and created as descriptor 1 |
| `ShellText.WordsOnly` | src/sh.c:449-458 | a line of words alone is accepted if and only if there are fewer than ten, and is then the command with these arguments |
| `ShellUnique.LineUnique` | src/sh.c:357-464 | at most one command line starts at a token and ends where one may: the grammar is unambiguous |
| `ShellUnique.ExecUnique` | src/sh.c:433-464 | the same for a simple command or block |
| `ShellUnique.PipeUnique` | src/sh.c:376-387 | the same for a pipe |
| `ShellUnique.SimplePanics` | src/sh.c:399-455 | where the parser panics in a simple command there is no command |
| `ShellUnique.BlockPanics` | src/sh.c:417-430 | where it panics in or after a block there is no command |
| `Shell.Parser.Peek` | src/sh.c:322-331 | skips white space and tells whether the next token starts with one of the characters |
| `Shell.Parser.GetToken` | src/sh.c:276-320 | the next token of the line with its ends |
| `Shell.Parser.ParseRedirs` | src/sh.c:390-414 | all redirections from here on, which around any command open the files with the modes and descriptors that the tokens ask for; or the one whose file is missing |
| `Shell.Parser.ParseBlock` | src/sh.c:417-430 | a block of the grammar, or a panic and there is none; its first panic cannot happen |
| `Shell.Parser.ParseExec` | src/sh.c:433-464 | a simple command or block of the grammar, or a panic and there is none |
| `Shell.Parser.ParsePipe` | src/sh.c:376-387 | a pipe of the grammar, or a panic and there is none |
| `Shell.Parser.ParseLine` | src/sh.c:357-373 | a line of the grammar, or a panic and there is none; parsing ends, on the remaining length |
| `Shell.ReadsBack` | src/sh.c:468-512 | no terminator falls inside a word, so each word reads back whole |
| `Shell.Nulterminate` | src/sh.c:468-512 | exactly the bytes just past the command's words become NUL |
| `Shell.ParseCmd` | src/sh.c:339-354 | a line is accepted if and only if it is in the grammar; then the command has the line's arguments, separators and files to open with their modes and descriptors, in order, and every stored pointer reads exactly its word |
| `TextFrame.Substr` | src/textframe.c:38-62 | the part of the row, clipped at its end; all of it for a negative start |
| `TextFrame.Strcat` | src/textframe.c:14-36 | the two prefixes one after the other |
| `TextFrame.AdjustRowCol` | src/textframe.c:99-129 | a row of the text is kept, a later one becomes the last, a negative one goes past the end; the column is adjusted in the row |
| `TextFrame.AdjustLands` | src/textframe.c:99-129 | an adjusted column is between two characters of the row; a column between characters is kept, one inside a character moves one byte to the side asked for, columns outside the row become its ends |
| `TextFrame.BoundaryIsReached` | src/textframe.c:107-127 | counting the high bytes back from a column tells whether going through the row character by character, two bytes from 160 up making one, comes to that column |
| `TextRows.InsertIsSplice` | src/textframe.c:352-405 | rows inserted into rows are, joined by newlines, a splice at the position's offset |
| `TextRows.CursorAfterInsert` | src/textframe.c:352-405 | the position after the inserted rows is the offset after the inserted text |
| `TextFrame.Insert` | src/textframe.c:352-405 | the rows are the text's with the others inserted at the adjusted position and the cursor is after them; for a negative row the text is copied without the insertion |
| `TextFrame.InsertSplices` | src/textframe.c:352-405 | the joined result is the joined text with the joined insertion at the adjusted position, and the cursor is just after it |
| `TextFrame.TypingSplices` | src/textframe.c:407-513 | typing a character or a newline splices that byte into the joined text |
| `TextDelete.WithoutIsCut` | src/textframe.c:300-349 | rows with everything between two positions taken out are, joined by newlines, the joined text without the bytes between the positions' offsets |
| `TextDelete.DeleteIsCut` | src/textframe.c:319-344 | what textframe_delete makes of the rows is such a cut if and only if the start row is at least as long as the end row or nothing of the end row is left; so it always is within one row |
| `TextDelete.DeleteLoses` | src/textframe.c:330 | deleting the newline between "a" and "bcd" gives "ab" |
| `TextDelete.Delete` | src/textframe.c:300-349 | a new frame with the rows left after deleting between the adjusted positions, for any rows and columns: an end row past the text means the start of the last row, and a start row past the text deletes nothing |
| `TextDelete.EndLands` | src/textframe.c:303 | the last deleted column is the one asked for, or the next if that begins a character, so a deletion never ends inside a character |
| `TextFrame.TextFrame.PutChar` | src/textframe.c:407-419 | the cursor's row is the bytes before the cursor, the byte, and the bytes behind; a NUL cuts the row off there |
| `TextFrame.TextFrame.MoveToNextChar` | src/textframe.c:438-449 | the cursor goes to the next character or row and stays inside the text |
| `TextFrame.TextFrame.MoveToPos` | src/textframe.c:515-527 | the cursor goes to the clipped and adjusted position, for any negative column to the end of the row; a negative row other than -1 puts it past the text |
| `TextFrame.TextFrame.NewLine` | src/textframe.c:477-513 | the cursor's row is broken at the adjusted column, the row array is always long enough, the cursor is at the start of the new row |
| `TextFrame.TextFrame.Save` | src/textframe.c:180-217 | reports success if and only if the file opens and every row's write succeeds; then the file is the rows joined by newlines if and only if no newline's write failed; otherwise it ends inside the first row that failed |
| `TextFrame.TextFrame.LoadByte` | src/textframe.c:151-166 | one more byte of a file gives the lines of the longer file |
| `TextFrame.TextFrame.Load` | src/textframe.c:131-178 | for any division into pieces the rows are the file's lines, with CR, LF and CRLF as line ends and NUL bytes left out |
| `TextRows.LinesAppend` | src/textframe.c:151-166 | how a file's lines change with one more byte |
| `TextRows.RoundTrip` | src/textframe.c:131-217 | saved rows load back as they were if and only if there is a row and none holds a CR or LF |

## Left out

- Umalloc.Allocator.Malloc: requests whose rounded size is 2^28 units or more are outside its precondition, because `sbrk` is then told to shrink the process and nothing holds of the heap afterwards; `Umalloc.AskedIsMeant` gives the exact range.
- Umalloc.Allocator.Search: the same bound on the units.
- Umalloc.Allocator.Morecore: the same bound on the units.
- Storage.BlockLayer.LogWrite: models one process at work in the cache; other processes' steps are in `LogMachine`, which has all interleavings.
- Storage.BlockLayer.CommitTrans: the same.
- NameLayer.Names.Ilock: the sleep while another process has the inode locked; `SleepWakeup` is about such sleeps.
- NameLayer.Names.Namex: requires that the directories the walk looks into are mapped as far as they are read. Reading through a hole changes the inode in memory, and a walk that comes back to the directory after its entry was recycled would read the old inode, which does not name the new block; `NameLayer.Names.Dirlookup` and `NameLayer.DroppedInv` say exactly when this starts, and `FirstTree.FirstHole` when a new disk is free of it.
- Inodes that were unlinked but still open when power was cut: they keep their blocks, and one that ".." of another such directory names is outside the invariant of the name layer.
- NameLayer.Names.Iput: callers outside a transaction (`exit`, `chdir`) are not modelled.
- FileSystem.FileSystem.Writei: device inodes (`T_DEV`) and their dispatch table.
- FileSystem.FileSystem.Readi: device inodes, as for writing.
- ProcessTable.Ptable.Kill: a pid of zero, which would match an unused slot's leftover fields.
- ProcessTable.Ptable.Allocproc: the kernel stack and trap frame; a failing stack allocation is a step of the state machine.
- Mmu.TranslateIs: bits of an entry other than present, write and user, and the TLB.
- Shell.Parser.ParseExec: the command node that is filled in place while redirections wrap it is built at the end, which gives the same tree; sharing of the node is not captured.
- TextFrame.Insert: inserting several rows at a negative row or into a text without rows is outside its precondition, because the code then reads past the rows of the text (src/textframe.c:394-397); so is an inserted text without rows, whose first row it reads (src/textframe.c:383).
- TextFrame.TextFrame.Save: writes that are short without failing.
- `copyuvm`, `copyout`, `loaduvm`, `inituvm` and the kernel half of an address space: the user-page and frame accounting is the hard part and is modelled.
- `ialloc`, `stati`, file descriptors and the file table, system-call argument fetching.
- `textframe_extract`, `backspace_to_str` and two-byte pinyin input: the same row and column arithmetic as in inserting and deleting.
- `grep`'s streaming loop, `runcmd`, and the small user programs.
- Device drivers, boot code, the window system, drawing and fonts; spinlock memory ordering and context switches are atomic steps here.
