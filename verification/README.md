# A model of oskernel in Dafny

oskernel is a small multiprocessor kernel for RISC-V in the tradition of xv6, written in C. This
project models the parts of it that are hard to get right and proves what they promise, for every
input, every run and every reachable state.

- `Basics`: options, powers of two, sizes of finite sets.
- `Blocks`, `DiskLayout`, `DiskFormat`: blocks, little-endian words, where the image builder puts each area of the disk, and the formats byte by byte.
- `LogSpec`, `LogMachine`, `LogRuns`, `LogImpl`: the write-ahead log: its lists of block writes and what a crash leaves of them; operations, commits, crashes and recovery as a state machine; what its runs promise in terms of their events; and the code of kernel/fs/log.c running over the buffer cache.
- `BufferCache`: kernel/fs/buf.c: a doubly linked ring of buffers with reference counts, locks and pins in front of a disk.
- `Inodes`, `BlockChanges`, `Space`, `FileSystem`: block ownership and the bitmap; the elementary changes that file operations are made of; how many blocks they need; balloc, bmap, readi, writei and itrunc.
- `Strings`, `Directory`, `DirectoryOps`, `Paths`: names, directories as finite maps, the table of inodes, and the walk along a path.
- `Mkfs`: tools/mkfs.c, which establishes what the file system relies on.
- `CrashSafety`, `FileAtomicity`: what the log means for the file system: block ownership survives every crash of every run of file operations, and a crash leaves all files as they were before an operation or as they are after it.
- `PageTable`, `VirtualMemory`, `FreeTables`, `UserMemory`, `UserCopy`: Sv39 page tables (section 4.4 of the RISC-V Privileged Architecture, version 20211203) as a forest that refines flat maps, the page allocator, address spaces, fork's copy, copies between kernel and user.
- `VirtioSpec`, `VirtioDisk`: the block driver's requests (sections 2.6 and 5.2 of OASIS Virtio 1.1): descriptor chains and two rings with wrapping 16-bit indices.
- `Scheduling`, `SchedulingSafety`, `SchedulingCalls`: CPUs and processes taking the single steps of the scheduler, of sleeping and waking, and of sleep locks; what every run keeps; and what each call does from its first step to its last.
- `Pipe`: the ring of a pipe with its two kinds of sleepers.
- `ExecStack`, `Loader`, `Exec`: the argument stack, the program's image, and the exchange of address spaces in exec.
- `Heap`: malloc and free of the user library.

How it is built:

- Code that changes state step by step is a class or a method with loops. Each such method is tied
  to a value that stands for the state (`Store()` and `Held()` of the cache, `State()` of the file
  system and of memory, `Contents()` of a pipe), and the promises are proved about these values.
- A panic or a failure is an outcome, and contracts say what causes it, most of them exactly. A
  precondition only says what the kernel's own callers guarantee, such as that an index comes from
  an earlier call.
- Interleavings are runs of a state machine: `LogMachine` over critical sections, single block
  writes and crashes; `VirtioSpec` over driver, device and interrupt steps; `Scheduling` over the
  instructions that touch shared state. The main results are about the events of a run: which
  writes were logged, which requests were issued, who has acquired which lock.
- Uniqueness (no block with two owners, no table with two parents, no buffer for two blocks) is
  stated with a ghost map from each resource to its only place.
- Machine arithmetic is written out where it matters: 16-bit ring indices, the wrap-around of
  address plus size in map_pages and unmap_pages, and of size plus header in malloc.

## What turned out not to hold

Where a promise fails in the code, the model keeps the code, shows the failing case, and proves the
exact condition under which the promise holds.

- log_write refuses the last entry of the log, so the budget of MAX_OP_BLKS blocks per operation is
  one too many: `LogMachine.PanicFreeIff`.
- A writer that is killed in the middle of a pipe_write returns without waking the reader:
  `Pipe.KilledWriterStallsReader` is such a case, and `Pipe.Pipe.Write` has the exact condition.
- malloc adds the header to the requested size in 64 bits and passes the sum on as a signed number;
  a block at the break keeps the heap well formed exactly below 2^63: `Heap.Heap.Malloc`, with a
  failing request in `Heap.WrappedRequest`.
- Joining two free heap blocks adds only the size of a header and gives up the space of the second
  block, as in `Heap.FreeNeighbours`; `Heap.JoinedFree` and `Heap.JoinedCut` say which blocks are
  joined. Nothing overlaps all the same: `Heap.OrderedJoin`, `Heap.LiveApart`.
- dir_link looks for an empty entry by testing the directory's own inode number, so it always
  appends: `DirectoryOps.ScanToEnd`.
- readi adds offset and length in 64 bits. The request is cut off at the end of the file unless
  that sum wraps around to a number inside the file: `FileSystem.FileSystem.ReadI`, with such a
  request in `FileSystem.WrappedRead`.
- The image builder gives a file whose length is a multiple of the block size one more block, so it
  refuses files of exactly the largest size that the kernel supports: `Mkfs.Image.CopyFile`, with such
  a file in `Mkfs.LargestFileRefused`.
- get_user_page_table frees only the root of its tree when it fails. It needs four pages and fails
  exactly with fewer; then it loses pages exactly when two or three were free:
  `UserMemory.GetUserPageTable`, with a lost page in `UserMemory.TwoPagesLoseOne`. An exec that
  fails for this reason, and for no other, loses pages too: `Exec.DoExecve`.
- do_execve sets a1 before it copies the strings of env, so a failing call may change a register of
  the program that goes on: `Exec.DoExecve` says when, and `Exec.LateFailure` is such a call.
- copy_in panics on an address beyond the virtual ones, where copy_out returns an error:
  `UserCopy.CopyIn` has the exact condition, and `Exec.ReadBehindTheEnd` such a call.

## Model

| member | source | states |
|---|---|---|
| `LogSpec.HeaderRoundTrip` | kernel/fs/log.c:59-86 | A list that write_log_header stores is the list that read_log_header finds. |
| `LogSpec.RecoveredAt` | kernel/fs/log.c:88-94 | Recovery gives every block named in the header the contents of its log block, keeps every other home block, and leaves an empty header. |
| `LogSpec.RecoveryCrash` | kernel/fs/log.c:88-94 | A crash after any number of recovery's own block writes does not change what a later recovery produces. |
| `LogSpec.CommitFinished` | kernel/fs/log.c:153-162 | A finished commit leaves exactly the cached home blocks on the disk and an empty header. |
| `LogSpec.CommitCrash` | kernel/fs/log.c:138-162 | For every commit and every number of its block writes that reached the disk, recovery yields the old home blocks before the header write and exactly the new ones after it. |
| `LogMachine.StepKeeps` | kernel/fs/log.c:96-185 | Every step of begin_op, log_write, end_op, of the committing process, of recovery, and a crash keeps the invariant that ties disk, cache, header list and history together. |
| `LogMachine.ReachableRecovers` | kernel/fs/log.c:88-162 | In every reachable state recovery would yield exactly the committed groups replayed in order, and readers of the cache see these followed by the open writes. |
| `LogMachine.CrashAtomicity` | kernel/fs/log.c:88-162 | Any run, a crash anywhere, any number of crashes during recovery: when recovery ends, the disk and the cache hold the groups committed before the first crash and nothing else. |
| `LogMachine.CrashFreeKeepsAll` | kernel/fs/log.c:113-185 | Without a crash, committed groups followed by open writes are exactly the writes that operations logged, in order. |
| `LogMachine.OneGroupPerOp` | kernel/fs/log.c:113-136 | All writes of one operation land in one commit group, and an open operation has none in any group. |
| `LogMachine.CommitIsExclusive` | kernel/fs/log.c:113-136 | During a commit no operation is outstanding, no operation can begin or log, end_op's panic cannot fire, and the header list is frozen up to its last write. |
| `LogMachine.ReservationsFit` | kernel/fs/log.c:96-111 | If operations log at most MAX_OP_BLKS distinct blocks, used entries plus unused reservations never exceed LOG_SIZE. |
| `LogMachine.RunNeverPanics` | kernel/fs/log.c:164-185 | With a budget below MAX_OP_BLKS no run of the machine panics. |
| `LogMachine.PanicFreeIff` | kernel/fs/log.c:164-185 | log_write stops one entry early: for every budget per operation, all runs with it are free of panics if and only if the budget is below MAX_OP_BLKS. |
| `LogRuns.PrefixSurvives` | kernel/fs/log.c:88-185 | Told by events: stop any run anywhere, crash, recover, crash again during recovery; the disk then holds a prefix of the writes that were logged, performed in order; it has every operation whole or not at all, and everything logged up to any moment at which the log was idle. |
| `LogRuns.IdleIsDurable` | kernel/fs/log.c:96-185 | Whenever no operation and no commit is under way, the disk itself holds every write that was logged, performed in the order of the run. |
| `LogRuns.CommitEnds` | kernel/fs/log.c:153-162 | A commit that is not disturbed ends, and the log is idle again. |
| `LogRuns.RecoveryEnds` | kernel/fs/log.c:88-94 | So does a recovery. |
| `LogRuns.WriteSurvives` | kernel/fs/log.c:88-185 | For every home block and every contents there is a run that ends with them on the disk, and they are still there after a crash and a recovery. |
| `BufferCache.Unlink` | kernel/fs/buf.c:96-111 | Taking a buffer out of the doubly linked ring leaves one ring through all others in the same order. |
| `BufferCache.PushFront` | kernel/fs/buf.c:96-111 | Inserting behind the head leaves one ring with the buffer first. |
| `BufferCache.BuildRing` | kernel/fs/buf.c:24-41 | The loop of binit links all buffers into one ring, the last one in front. |
| `BufferCache.Cache.constructor` | kernel/fs/buf.c:24-41 | After binit the ring, the counts, the order of release and the agreement with the disk hold, and no buffer is in use. |
| `BufferCache.Cache.Find` | kernel/fs/buf.c:51-58 | The scan along next finds the one buffer of a block, and finds none exactly when the block is not cached. |
| `BufferCache.Cache.FindLeastRecent` | kernel/fs/buf.c:64-76 | The scan along prev finds the unreferenced buffer that was released longest ago; none exactly when all are referenced. |
| `BufferCache.Cache.Recycle` | kernel/fs/buf.c:64-74 | Giving an unreferenced buffer to another block loses nothing: the store that cache and disk present together is unchanged. |
| `BufferCache.Cache.Get` | kernel/fs/buf.c:44-79 | A hit takes a reference; a miss recycles the least recently released buffer; it panics exactly when the block is not cached and all buffers are referenced; no other buffer changes. |
| `BufferCache.Cache.Bread` | kernel/fs/buf.c:44-79 | The caller gets the locked buffer with the latest contents of the block, with one more reference, and the store is unchanged. |
| `BufferCache.Cache.Take` | kernel/fs/buf.c:44-79 | In terms of blocks: the read fails exactly when the block is unreferenced and N_BUF others are referenced. |
| `BufferCache.Cache.Bwrite` | kernel/fs/buf.c:85-90 | One disk write of the buffer's block; a panic exactly when the caller does not hold the lock. |
| `BufferCache.Cache.Bpin` | kernel/fs/buf.c:113-120 | One more pin and one more reference; the store is unchanged; a panic exactly when the buffer is unreferenced. |
| `BufferCache.Cache.Bunpin` | kernel/fs/buf.c:122-129 | One pin and one reference less; the store is unchanged. |
| `BufferCache.Cache.MoveToFront` | kernel/fs/buf.c:96-111 | The ring keeps its members, with the buffer moved to the front. |
| `BufferCache.Cache.FrontOrder` | kernel/fs/buf.c:96-111 | Once the newest buffer is in front and the others are in order, all unreferenced buffers are in order of release along the ring. |
| `BufferCache.MovedOrder` | kernel/fs/buf.c:96-111 | Moving a buffer to the front leaves the other unreferenced ones in order of release. |
| `BufferCache.Cache.Refresh` | kernel/fs/buf.c:101-110 | The second part of brelse: the buffer becomes the first of the ring and the most recently used one, and the order of release holds again. |
| `BufferCache.Cache.Recounted` | kernel/fs/buf.c:44-129 | Changing the references to one buffer, within its counts, keeps owners, counts, agreement with the disk and the store, and shows at that block only. |
| `BufferCache.Cache.Drop` | kernel/fs/buf.c:96-101 | Releasing the lock and a reference keeps counts, owners and the store, provided that the change was logged or written. |
| `BufferCache.Cache.Brelse` | kernel/fs/buf.c:96-111 | The last release makes the buffer the most recent one; the whole invariant and the store are kept. |
| `BufferCache.Cache.Give` | kernel/fs/buf.c:96-111 | brelse in terms of blocks and their references. |
| `BufferCache.FullIff` | kernel/fs/buf.c:44-79 | Every buffer is referenced if and only if N_BUF different blocks are; no block has two buffers. |
| `BufferCache.DirtyIsHeld` | kernel/fs/buf.c:44-129 | A block whose cached contents differ from the disk is pinned or locked, so it is never recycled. |
| `LogImpl.CopyBlock` | kernel/fs/log.c:42-57 | One round of install_trans and of write_to_log through the cache: store, disk, write history and references after it, and the exact condition for running out of buffers. |
| `LogImpl.Log.FillHeader` | kernel/fs/log.c:73-86 | The loop builds exactly the encoded header. |
| `LogImpl.Log.WriteHeader` | kernel/fs/log.c:73-86 | The header block on disk and in the cache becomes the encoded in-memory list by one write. |
| `LogImpl.Log.WriteToLog` | kernel/fs/log.c:138-151 | The disk writes are the first part of the commit list; references are as before. |
| `LogImpl.Log.InstallTrans` | kernel/fs/log.c:42-57 | The disk writes are the installation list; a commit returns one pin for each block. |
| `LogImpl.Log.LogAndMark` | kernel/fs/log.c:153-162 | write_to_log and the header write perform the commit list up to and including the header; a failure has written nothing. |
| `LogImpl.Log.InstallAndClear` | kernel/fs/log.c:153-162 | Installing and clearing the header performs the rest of the commit list. |
| `LogImpl.Log.Commit` | kernel/fs/log.c:153-162 | The writes that reach the disk are exactly the commit list; all pins are returned; it panics exactly when there is something to commit and every buffer is referenced, having written nothing; with no buffer locked and an empty log it leaves the cached home blocks on the disk, where recovery keeps them. |
| `LogImpl.Log.ReadyToCommit` | kernel/fs/log.c:153-162 | A log that is ready to commit, with no buffer locked and an empty header on the disk, satisfies what crash atomicity asks for: cache and disk differ on logged blocks only. |
| `LogImpl.Log.CommitIsAtomic` | kernel/fs/log.c:153-162 | Crash atomicity of the code: after any number of the block writes of commit, recovery yields the disk's home blocks from before, up to the header write, and the cache's ones from then on. |
| `LogImpl.CommitIsDurable` | kernel/fs/log.c:153-162 | After all writes of a commit, recovery changes no home block and yields the cached ones. |
| `LogImpl.Log.ReadHeader` | kernel/fs/log.c:59-71 | The in-memory list becomes the one on the disk. |
| `LogImpl.Log.ParseHeader` | kernel/fs/log.c:59-71 | The loop decodes the header. |
| `LogImpl.Log.Recover` | kernel/fs/log.c:88-94 | Recovery performs exactly the recovery list and ends with an idle cache that equals the recovered disk. |
| `LogImpl.Log.LogWrite` | kernel/fs/log.c:164-185 | The block joins the list once and is pinned once (list and pins stay equal); the exact panic condition. |
| `LogImpl.Log.EndOp` | kernel/fs/log.c:113-136 | The last operation commits with exactly the commit list, returns the pins and leaves the cached home blocks on the disk; any other operation changes nothing but the count: log, cache, references and disk are as before; the exact panic condition; other operations may hold buffers as long as they are outstanding. |
| `LogImpl.Log.EndAll` | kernel/fs/log.c:113-136 | With n operations under way, n calls of end_op answer n - 1 times that others are outstanding and then commit; the log is idle, and what the cache held is on the disk. |
| `LogImpl.Log.Session` | kernel/fs/log.c:96-136 | Any number of operations that come together on an idle log: exactly three are let in, they end in turn, and everything is as it was. |
| `LogImpl.Log.Replace` | kernel/fs/log.c:164-185 | bread, a change, log_write and brelse by one operation: the store changes at that block alone, and the block is in the list and pinned once. |
| `LogImpl.Log.Update` | kernel/fs/log.c:96-185 | A whole operation that replaces one block: it is on the disk afterwards, every other home block is as it was, and log and references are as before. |
| `LogImpl.InstallIsCommit` | kernel/fs/log.c:153-162 | Installing after the header write is the next stretch of the commit list. |
| `LogImpl.RecoveryIsInstall` | kernel/fs/log.c:88-94 | Recovery's list is the installation list followed by the header write. |
| `LogImpl.PinsReturned` | kernel/fs/log.c:47-56 | After a commit no block is pinned, and every other reference is as it was. |
| `Inodes.SetBit` | kernel/fs/inode.c:175-196 | Sets one bit of a bitmap block and no other. |
| `Inodes.ClearBit` | kernel/fs/inode.c:198-209 | Clears one bit of a bitmap block and no other. |
| `Inodes.InodeRoundTrip` | kernel/fs/inode.c:150-165 | An inode written into its slot of a block is read back unchanged, and its neighbours stay as they are. |
| `Inodes.LinkTopExtends` | kernel/fs/inode.c:211-247 | Hanging a fresh block into an empty pointer of an inode keeps ownership; no pointer and no data block that was reachable changes. |
| `Inodes.LinkLeafExtends` | kernel/fs/inode.c:211-247 | The same for an entry of an indirect block. |
| `Inodes.WriteKeepsOwned` | kernel/fs/inode.c:315-350 | Changing a block that is neither the bitmap nor an indirect block keeps ownership. |
| `Inodes.ChunkBytes` | kernel/fs/inode.c:315-350 | Overwriting bytes inside one block of a file changes those bytes of that file and nothing else of any file. |
| `Inodes.WrittenNext` | kernel/fs/inode.c:315-350 | One more round of writei extends what has been written so far. |
| `Inodes.WriteRefinesOverwrite` | kernel/fs/inode.c:315-350 | writei refines overwriting a byte sequence: its own file changes exactly in the written range, other files not at all, and no hole appears. |
| `Inodes.ReadChunk` | kernel/fs/inode.c:280-313 | Reading inside one block yields that stretch of the file's contents. |
| `Inodes.ByteIsIn` | kernel/fs/inode.c:211-247 | Byte x of a file is byte x % 1024 of the block that direct pointer x / 1024 names, or that the entry of an indirect block names. |
| `Inodes.DropTop` | kernel/fs/inode.c:249-278 | Dropping a pointer with all that hangs below it keeps ownership for everything else. |
| `Inodes.ZeroIsSound` | tools/mkfs.c:234-239 | The zeroed image satisfies block ownership. |
| `Inodes.EmptyOwnsNothing` | kernel/fs/inode.c:249-278 | An inode without pointers owns no block. |
| `Inodes.FirstClear` | kernel/fs/inode.c:175-196 | The block of the first clear bit is free, and every block before it is in use. |
| `DiskFormat.WordBytes` | tools/mkfs.c:46-66 | A 32-bit word on the disk has its lowest byte first; storing one changes no other byte, and reading is the inverse. |
| `DiskFormat.Areas` | tools/mkfs.c:16-34 | The areas of the disk follow each other with the stated sizes. |
| `DiskFormat.InodeBytes` | include/fs/fs.h:37-44 | Inode n is the 64 bytes from 64 * n on of the inode area: type at 0, links at 6, size at 8, block addresses from 12 on. |
| `DiskFormat.EntryBytes` | include/fs/fs.h:46-49 | A directory entry is a 16-bit inode number, lower byte first, and thirty bytes of name. |
| `DiskFormat.BitIsDigit` | tools/mkfs.c:84-101 | Bit s of a byte is the digit of weight 2^s. |
| `DiskFormat.BitmapBytes` | tools/mkfs.c:84-101 | A data block is owned exactly if bit n % 8 of byte n / 8 of the data bitmap is set, n being its number in the data area. |
| `BlockChanges.ChangeKeepsSound` | kernel/fs/inode.c:150-350 | Each elementary change of bmap, writei, itrunc and iupdate keeps block ownership. |
| `BlockChanges.ChangedKeepsSound` | kernel/fs/inode.c:150-350 | So does any list of such changes to any inodes, in any interleaving of operations. |
| `BlockChanges.LeadsOn` | kernel/fs/inode.c:150-350 | The changes of one operation followed by those of another are such a list again. |
| `Space.SlackKept` | kernel/fs/inode.c:211-247 | Reaching one block of a file costs exactly the pointers on the way that led nowhere, and what is left over for the rest of a range does not change. |
| `Space.SlackBlocked` | kernel/fs/inode.c:211-247 | If the blocks do not suffice for the first block of a range, they do not suffice for the range. |
| `Space.TopFilled` | kernel/fs/inode.c:211-230 | Filling a top-level pointer fills no other pointer and takes one block. |
| `Space.EntryFilled` | kernel/fs/inode.c:231-243 | So does filling an entry of an indirect block. |
| `Space.FullDisk` | kernel/fs/inode.c:175-196 | All bits are set exactly when all blocks are owned. |
| `Space.RoomForOne` | kernel/fs/inode.c:211-247 | With room for two blocks per block of the largest file there are enough blocks for any file. |
| `Space.EnoughForNew` | kernel/fs/inode.c:211-247 | A file without blocks can get n bytes exactly if the disk has a free block for each started 1024 bytes and one more for each started 256 blocks behind the first ten. |
| `Space.WaysCount` | kernel/fs/inode.c:211-247 | The number of blocks that a file of m blocks takes, its indirect blocks included. |
| `FileSystem.FileSystem.Balloc` | kernel/fs/inode.c:175-196 | The lowest free data block, marked and zeroed; 0 exactly when every bit is set, and then nothing changed. |
| `FileSystem.FileSystem.FillTop` | kernel/fs/inode.c:211-230 | Fills an empty top-level pointer with a fresh block, and no other pointer, or reports that all blocks are in use; ownership is kept. |
| `FileSystem.FileSystem.FillLeaf` | kernel/fs/inode.c:231-243 | Fills an empty entry of an indirect block, and no other pointer; ownership is kept. |
| `FileSystem.FileSystem.Bmap` | kernel/fs/inode.c:211-247 | The block that direct pointer nth names, or entry (nth - 10) % 256 of indirect block (nth - 10) / 256, allocated if missing; it costs exactly the missing blocks on the way, and fails exactly when there are fewer; ownership is kept even then; existing pointers and data do not change; a panic exactly beyond the largest file. |
| `FileSystem.FileSystem.Iupdate` | kernel/fs/inode.c:150-165 | The disk's copy of one inode is brought up to date; no other inode, pointer or byte changes. |
| `FileSystem.FileSystem.WriteChunkAt` | kernel/fs/inode.c:326-344 | One round of writei across direct and indirect blocks. |
| `FileSystem.FileSystem.WriteBytes` | kernel/fs/inode.c:315-350 | The loop of writei: a prefix is written exactly; it is short exactly when the disk has too few blocks for the missing ones of the range, and then ends at a block boundary, at a block that the file did not have; it panics exactly when the range reaches behind the largest size and there are enough blocks up to there; all it does is a list of elementary changes. |
| `FileSystem.FileSystem.WriteI` | kernel/fs/inode.c:315-350 | Refused exactly when the offset lies behind the end; otherwise exactly the reported range is written, the size is raised if needed, ownership is kept, and the inode is on the disk; it is complete exactly when the disk has enough blocks; it panics exactly when the range reaches behind the largest size and there are enough blocks up to there; all it does is a list of elementary changes. |
| `FileSystem.FileSystem.ReadChunkAt` | kernel/fs/inode.c:280-313 | One round of readi yields the next stretch of the contents. |
| `FileSystem.FileSystem.ReadRange` | kernel/fs/inode.c:280-313 | The loop of readi yields the whole range. |
| `FileSystem.FileSystem.ReadI` | kernel/fs/inode.c:280-313 | Exactly the clamped slice of the contents; nothing changes; refused exactly when the offset lies behind the end; the exact condition under which the 64-bit sum of offset and length defeats the clamping. |
| `FileSystem.FileSystem.WriteThenRead` | kernel/fs/inode.c:280-350 | With enough blocks, what writei has written readi gives back, and the file is the old one with this range replaced. |
| `FileSystem.WrappedRead` | kernel/fs/inode.c:280-313 | Such a request: one byte behind the start of a file of one byte, with a length that makes the sum zero, is not cut off. |
| `FileSystem.FileSystem.FreeLeaves` | kernel/fs/inode.c:264-270 | Clears exactly the bits of the blocks below one indirect block. |
| `FileSystem.FileSystem.DropPointer` | kernel/fs/inode.c:249-278 | Frees exactly what hangs on one top-level pointer. |
| `FileSystem.FileSystem.Itrunc` | kernel/fs/inode.c:249-278 | The file becomes empty and gives back exactly the blocks it owned; every other inode keeps its blocks; only the bitmap and the inode's own block are written; all it does is a list of elementary changes. |
| `Strings.Strncmp` | kernel/lib/string.c:36-44 | Answers 0 exactly when the two strings, cut off after n bytes, are equal. |
| `Strings.Strncpy` | kernel/lib/string.c:46-54 | Exactly n bytes: the string, then zeros; its text survives. |
| `Strings.Memmove` | kernel/lib/string.c:10-21 | The destination gets the bytes the source had before, also when they overlap, and nothing else changes. |
| `Strings.TextIs` | kernel/lib/string.c:36-54 | The text of a buffer is the only zero-free prefix that ends at a zero, at the limit or at the end. |
| `Directory.LookupIs` | kernel/fs/inode.c:446-467 | The first live entry with a name gives the value of the directory's map; without one the name is not in the map. |
| `Directory.LinkInserts` | kernel/fs/inode.c:469-495 | Appending an entry with a new name adds exactly that name to the map and keeps names unique. |
| `Directory.ClearRemoves` | kernel/syscall/sysfile.c:506-508 | Clearing an entry takes exactly its name out of the map. |
| `Directory.UniqueMap` | kernel/fs/inode.c:446-495 | With unique names every live entry is a pair of the map. |
| `Directory.EncodeDecodes` | kernel/fs/inode.c:469-495 | An encoded entry decodes to its inode number and its name cut off at thirty bytes. |
| `Directory.PutEntry` | kernel/fs/inode.c:469-495 | Writing the bytes of one entry changes that entry alone, or appends one. |
| `DirectoryOps.DirLookup` | kernel/fs/inode.c:446-467 | Finds the inode number that the map gives to the name, and the offset of a live entry with it; reports a missing name exactly when it is not in the map; changes nothing; panics exactly when this is no directory, or the name is missing and the size is no multiple of an entry's. |
| `DirectoryOps.ScanToEnd` | kernel/fs/inode.c:481-487 | The scan of dir_link never stops before the end of the directory, because it tests the directory's own number. |
| `DirectoryOps.DirLink` | kernel/fs/inode.c:469-495 | The map gains exactly the pair, unless the name exists; names stay unique; no other file changes; a new name finds no space exactly when there are too few blocks, and then the map is as it was; it panics exactly when the lookup does, or when the name is missing and the directory has the largest size. |
| `DirectoryOps.DirClear` | kernel/syscall/sysfile.c:506-508 | The map loses exactly the name; no other file changes; it never fails, so the panic of unlink cannot happen, even on a full disk. |
| `DirectoryOps.WholeOrNothing` | kernel/fs/inode.c:469-495 | An entry never straddles two blocks, so it is written whole or not at all. |
| `DirectoryOps.EntryWritten` | kernel/fs/inode.c:469-495 | A write of one entry appends it to the directory or replaces one, leaves every other file alone, and makes no hole. |
| `Paths.InodeTable.Find` | kernel/fs/inode.c:61-88 | The slot of the inode, if it has one; and an unused slot, if there is one. |
| `Paths.InodeTable.Iget` | kernel/fs/inode.c:61-88 | One more reference to the inode, in its only slot; a panic exactly when it has no slot and all slots are in use. |
| `Paths.InodeTable.UsedSlots` | kernel/fs/inode.c:61-88 | The inodes with a slot are as many as the slots in use, and they are N_INODE exactly when every slot is in use. |
| `Paths.InodeTable.Idup` | kernel/fs/inode.c:90-98 | One more reference; a panic exactly when there was none. |
| `Paths.InodeTable.Iput` | kernel/fs/inode.c:133-148 | One reference less; the slot is given up with the last one. |
| `Paths.SkipElem` | kernel/fs/inode.c:370-397 | The next component of a path, cut off at the length of a name, and the rest of the path; none exactly when no component is left. |
| `Paths.SplitFirst` | kernel/fs/inode.c:370-397 | Slashes before and behind a component do not matter. |
| `Paths.ParentResolves` | kernel/fs/inode.c:399-445 | A path resolves to what its last component names in the directory that parenti finds. |
| `Paths.Enter` | kernel/fs/inode.c:407-425 | Going from a directory to a named inode exchanges one reference for the other; a panic exactly when the lookup panics, or the inode has no slot and none is unused. |
| `Paths.Round` | kernel/fs/inode.c:407-427 | One round of lookup: ends at the right place, with nothing, or one directory further; a panic only if some directory's size is no multiple of an entry's, or no slot is unused. |
| `Paths.LookupPath` | kernel/fs/inode.c:399-445 | A path that begins with a slash is followed from the root, any other one from the current directory; namei and parenti find exactly what folding the directories' maps over the non-empty components gives, parenti with the last name; the result holds one new reference, all other counts are unchanged, and a failing walk changes none; a panic only if some directory's size is no multiple of an entry's, or fewer than two slots were unused. |
| `Paths.Follow` | kernel/fs/inode.c:407-445 | The loop of lookup from any inode to which the caller has a reference. |
| `Paths.SplitJoins` | kernel/fs/inode.c:370-397 | Splitting a path of components, each behind a slash, gives the components. |
| `Paths.SplitNames` | kernel/fs/inode.c:370-397 | Whatever a path splits into are components: not empty and without a slash. |
| `Paths.ResolveOn` | kernel/fs/inode.c:399-445 | Walking along two paths one after the other is walking along the longer one. |
| `Mkfs.BlankAllocation` | tools/mkfs.c:84-101 | On an image where unowned blocks are zero, setting the bit is as good as the kernel's allocation with zeroing. |
| `Mkfs.Image.BlockAlloc` | tools/mkfs.c:84-101 | The lowest free block; 0 exactly when every bit is set. |
| `Mkfs.Image.InodeAlloc` | tools/mkfs.c:103-120 | Inode numbers are handed out consecutively from 1. |
| `Mkfs.Image.WriteInode` | tools/mkfs.c:122-128 | The copy of exactly one inode changes. |
| `Mkfs.Image.MapTop` | tools/mkfs.c:158-170 | Fills an empty top-level pointer; ownership is kept and unowned blocks stay zero. |
| `Mkfs.Image.MapLeaf` | tools/mkfs.c:171-176 | Fills an empty entry of an indirect block without having cleared the block; ownership is kept. |
| `Mkfs.Image.BlockMap` | tools/mkfs.c:153-183 | The block that direct pointer nth names, or entry (nth - 10) % 256 of indirect block (nth - 10) / 256, for the file being copied; existing blocks do not change; it gives up exactly beyond the largest file or with fewer blocks than are missing on the way. |
| `Mkfs.Image.CopyRound` | tools/mkfs.c:273-281 | One block of the file, padded with zeros. |
| `Mkfs.Image.CopyFile` | tools/mkfs.c:272-283 | The inode's contents are exactly the file's bytes and its inode is on the disk; no other file changes; no hole; it gives up exactly when the file has the largest size or more, or there are too few blocks for its blocks and one more. |
| `Mkfs.LargestFileRefused` | tools/mkfs.c:272-283 | Such a file: of the largest size, refused on an image without other files, although the disk has all the blocks that the kernel would need to write it. |
| `Mkfs.Image.CreateInode` | tools/mkfs.c:139-151 | An unused inode becomes an empty one with one link; no file changes. |
| `Mkfs.Image.CreateEntry` | tools/mkfs.c:198-209 | The root directory gains exactly one entry; no other file changes. |
| `Mkfs.Image.constructor` | tools/mkfs.c:226-239 | The zeroed image: sound, blank, without files. |
| `Mkfs.Image.MakeRoot` | tools/mkfs.c:241-244 | The root's inode has number 1 and its block is owned, although the inode on the disk does not refer to it yet. |
| `Mkfs.Image.InstallFile` | tools/mkfs.c:251-285 | One round of the loop over the files keeps what is installed and adds one file. |
| `Mkfs.Image.Make` | tools/mkfs.c:211-291 | The image has block ownership, no holes and exactly the first thirty files with their contents under their names, each inode with one link; every inode is on the disk and the log is empty; it gives up only when the disk is full or a file is too long. |
| `Mkfs.InstalledIsClosed` | tools/mkfs.c:211-291 | Every name in the image leads to an inode of the table, as the kernel's path walk relies on. |
| `Mkfs.InstalledResolves` | tools/mkfs.c:211-291 | The kernel's path walk finds each installed file, with its bytes, under its name in the root directory, unless an earlier entry has the same name. |
| `Mkfs.FindInstalled` | tools/mkfs.c:211-291 | On an image that was built, the kernel's lookup of a slash and the name of file i ends at inode i + 2 from every current directory, and reading that inode gives the file's bytes. |
| `Mkfs.BuildAndFind` | tools/mkfs.c:211-291 | The same from the files to the kernel: the image is built, its inodes are read from the disk, and the file is found and read. |
| `CrashSafety.StepIsSafe` | kernel/fs/log.c:96-185 | Every step keeps a property of the home blocks in the committed groups and in the cache as it was when last no operation was in progress. |
| `CrashSafety.InvariantSurvives` | kernel/fs/log.c:88-185 | Any property of the home blocks that every batch of overlapping operations keeps holds after recovery from a crash at any point of any run, with any number of earlier crashes. |
| `CrashSafety.OwnershipSurvives` | kernel/fs/log.c:88-185 | The same for block ownership: no crash leaves a block with two owners or a wrong bitmap, if every batch keeps it. |
| `CrashSafety.WriteFile` | kernel/fs/inode.c:315-350 | An operation made of writei leaves blocks with ownership and all inodes on the disk, and leads there by the elementary changes of file operations. |
| `CrashSafety.TruncateFile` | kernel/fs/inode.c:249-278 | So does an operation made of itrunc. |
| `CrashSafety.FromTheImageOn` | tools/mkfs.c:211-291 | An image as mkfs makes it is a disk from which ownership survives every crash, if every batch keeps it. |
| `CrashSafety.BatchKeepsOwnership` | kernel/fs/inode.c:150-350 | A batch that is made of the changes of file operations, in any interleaving, keeps ownership. |
| `CrashSafety.OneOwnership` | kernel/fs/inode.c:150-350 | Inodes, indirect blocks and the bitmap determine who owns which block. |
| `CrashSafety.FileWorkIsCareful` | kernel/fs/log.c:96-185 | Runs in which every batch is made of the changes of file operations are careful: nothing more has to be assumed about them. |
| `CrashSafety.FileWorkSurvives` | kernel/fs/log.c:88-185 | From an image on, with any run of file operations and any crashes, recovery yields a disk with block ownership. |
| `CrashSafety.OperationIsFileWork` | kernel/fs/log.c:96-185 | An operation that logs each block that it has changed, with its last contents, is such a batch if it changed the blocks as writei and itrunc do. |
| `FileAtomicity.OperationIsAtomic` | kernel/fs/log.c:96-185 | Atomicity at the level of files: stop an operation that logs every block it has changed after any number of its events, crash, recover, crash again during recovery; the kernel then finds every file as it was before the operation or every file as it is after it, and after it if the commit had ended. |
| `FileAtomicity.OperationRuns` | kernel/fs/log.c:96-185 | Every list of distinct home blocks within the budget can be logged and committed in one operation, after which the log is idle. |
| `FileAtomicity.HomeShows` | kernel/fs/log.c:96-185 | Disks that agree on the home blocks show the same inodes, owners and file contents to a kernel that mounts them. |
| `PageTable.PxIsIndex` | include/riscv.h:143-145 | PX, with its shift and its mask, gives the three indices of the page number, each below 512. |
| `PageTable.ShiftDivides` | include/riscv.h:144-145 | Shifting to the right divides by a power of two. |
| `PageTable.MaskLeavesRemainder` | include/riscv.h:143-145 | A mask of low ones leaves the remainder. |
| `PageTable.IndicesAreInjective` | include/riscv.h:143-145 | Splitting a page number into three indices loses nothing. |
| `PageTable.LeafIsUpdate` | kernel/mm/mm.c:67-146 | Writing a leaf entry updates the flat map of one tree at one page and no other map. |
| `PageTable.LeafKeepsForest` | kernel/mm/mm.c:91-146 | Writing a leaf entry keeps the forest of tables free of sharing. |
| `PageTable.TableBelow` | kernel/mm/mm.c:67-89 | Following an entry leads to the one table that is owned at that place. |
| `PageTable.LinkKeepsFlat` | kernel/mm/mm.c:67-89 | A new, empty table changes no flat map. |
| `PageTable.LinkKeepsForest` | kernel/mm/mm.c:67-89 | Linking a new table keeps the forest free of sharing. |
| `PageTable.UnlinkKeepsFlat` | kernel/mm/mm.c:148-164 | Removing an empty table changes no flat map. |
| `PageTable.UnlinkKeepsForest` | kernel/mm/mm.c:148-164 | Removing an empty table keeps the forest. |
| `PageTable.RootIsNew` | kernel/mm/mm.c:171-172 | A zeroed page becomes the root of a new, empty tree. |
| `PageTable.RootIsGivenUp` | kernel/mm/mm.c:148-164 | A tree whose root has no entries owns nothing but its root. |
| `PageTable.PteBits` | include/riscv.h:147-157 | The tests of an entry are those of the masks PTE_V, PTE_R, PTE_W, PTE_X and PTE_U; its page number is the entry shifted by ten, its flags the low ten bits. |
| `PageTable.LeafEntryBits` | kernel/mm/mm.c:112-116 | The entry that map_pages stores is the page number shifted by ten, or'ed with PTE_V and the permissions. |
| `PageTable.EntryIsWalk` | kernel/mm/mm.c:67-89 | The flat map gives what three steps through the tables find, each with nine bits of the address. |
| `VirtualMemory.Memory.PmAlloc` | kernel/mm/mm.c:39-49 | The page at the head of the free list, which no one owns; 0 exactly when the list is empty. |
| `VirtualMemory.Memory.PmZalloc` | kernel/mm/mm.c:51-57 | The same, with the page zeroed; no translation changes. |
| `VirtualMemory.Memory.PmFree` | kernel/mm/mm.c:59-65 | The page is the new head of the free list. |
| `VirtualMemory.Memory.constructor` | kernel/mm/mm.c:28-37 | pm_init: the free list holds exactly the pages of the range, the last one first, no page is owned, and the invariant of memory holds. |
| `VirtualMemory.Memory.Descend` | kernel/mm/mm.c:75-87 | One level of walk: the table below, made out of one free page if missing and asked for. |
| `VirtualMemory.Memory.Walk` | kernel/mm/mm.c:67-89 | The lowest-level table and index of an address; at most free pages became tables of this tree; no flat map changes; when asked to make tables it is null exactly beyond the last address or when fewer pages are free than tables are missing, and otherwise takes exactly as many. |
| `VirtualMemory.Memory.UnmapPage` | kernel/mm/mm.c:133-145 | One page leaves the flat map; a panic exactly when it is not mapped. |
| `VirtualMemory.Memory.UnmapPages` | kernel/mm/mm.c:121-146 | The flat map loses exactly the range, and exactly its frames become free when asked for; a panic exactly when the range is not aligned or not fully mapped. |
| `VirtualMemory.Memory.MapPage` | kernel/mm/mm.c:106-117 | One page joins the flat map for exactly the missing tables, or a memory with too few free pages leaves every flat map as it was. |
| `VirtualMemory.Memory.UndoMap` | kernel/mm/mm.c:108-111 | Undoing a partial mapping restores every flat map. |
| `VirtualMemory.Memory.MapPages` | kernel/mm/mm.c:91-119 | The flat map gains exactly the range with consecutive frames; a failure leaves every flat map as it was, and comes from fewer free pages than two for each mapped page, or from the last address; a panic only for the stated reasons. |
| `VirtualMemory.MappedThenUnmapped` | kernel/mm/mm.c:91-146 | Mapping an empty range and unmapping it again is the identity on every flat map. |
| `FreeTables.FreeEntry` | kernel/mm/mm.c:153-161 | One entry of a table: its subtree is freed and the entry cleared. |
| `FreeTables.FreePageTable` | kernel/mm/mm.c:148-164 | Exactly the tables of the subtree become free and nothing else changes; it panics exactly when some page below is still mapped. |
| `UserMemory.AddPage` | kernel/mm/mm.c:441-453 | One page of uvm_alloc's loop: added zeroed, or the space is as before. |
| `UserMemory.UvmAlloc` | kernel/mm/mm.c:432-455 | Grows by zeroed user pages with the asked permissions, or fails and leaves the address space as it was; other spaces and all bytes in use are unchanged; it fails only with fewer than three free pages for each page to add, and panics only when it gets to the stack, with a free page for every page below it. |
| `UserMemory.UserPermIs` | kernel/mm/mm.c:432-455 | The permissions that uvm_alloc uses are PTE_R and PTE_U with those asked for or'ed in, and always make a user leaf entry. |
| `UserMemory.PageCountIs` | kernel/mm/mm.c:432-455 | PAGE_ROUND_UP gives the next multiple of the page size, and the number of pages is just enough. |
| `UserMemory.UvmDealloc` | kernel/mm/mm.c:457-465 | Shrinks to whole pages, giving back exactly these frames. |
| `UserMemory.UvmFree` | kernel/mm/mm.c:467-472 | All remaining frames and tables of the space are given back, and nothing of any other space. |
| `UserMemory.MapStack` | kernel/mm/mm.c:182-192 | The stack page is taken and mapped, or given back. |
| `UserMemory.GetUserPageTable` | kernel/mm/mm.c:166-200 | A new address space with stack (flags 0x17), trap frame (0x07) and trampoline (0x0b) and no other page, made of four free pages; it fails exactly with fewer than four; a failure changes no other space, and gives back all it took exactly when at most one page was free. |
| `UserMemory.OneTable` | kernel/mm/mm.c:171-199 | Trampoline, trap frame and stack share their tables: once the first is mapped the others need none. |
| `UserMemory.TwoPagesLoseOne` | kernel/mm/mm.c:166-200 | A memory with two free pages, one of which a failing call loses. |
| `UserMemory.FreeUserPageTable` | kernel/mm/mm.c:202-208 | Everything the space owned is free again, and only that; trap frame and trampoline are not freed. |
| `UserMemory.Resize` | kernel/mm/mm.c:432-465 | Any request keeps the address space complete; a failed one keeps the size and comes from too few free pages. |
| `UserMemory.Lifetime` | kernel/mm/mm.c:166-208 | Page conservation: make a space, any sequence of requests (failing ones too), free it with the tracked size: the free pages, all owners, translations and bytes in use are exactly the ones from before; there is no space to begin with exactly when fewer than four pages are free; a panic needs more free pages than there are addresses below the stack. |
| `UserMemory.Conserved` | kernel/mm/mm.c:166-208 | Giving back what one tree owns restores the free pages, owners and translations. |
| `UserMemory.FramesCounted` | kernel/mm/mm.c:166-208 | A new address space with n pages has taken at least n of the free ones. |
| `UserCopy.CopyPage` | kernel/mm/mm.c:223-237 | One page of the fork loop gets a frame of its own with the same bytes and flags. |
| `UserCopy.CopyStack` | kernel/mm/mm.c:210-215 | The child's stack page has the parent's bytes. |
| `UserCopy.UndoCopy` | kernel/mm/mm.c:243-245 | A failing fork gives back the pages copied so far. |
| `UserCopy.CopyUserPageTable` | kernel/mm/mm.c:217-246 | On success the child has the same bytes and flags at every user page, in frames of its own, and the same bytes on the stack, which keeps its flags, so they are the parent's if they were; on failure none of these pages, and fewer than three pages were free for each page to copy; the parent is unchanged. |
| `UserCopy.UvmWalkAddr` | kernel/mm/mm.c:474-491 | The frame that user mode sees at an address, or 0. |
| `UserCopy.CopyIn` | kernel/mm/mm.c:248-267 | Succeeds exactly when user mode may read every byte, and yields exactly the bytes of byte-wise translation, across pages; panics exactly when the range goes beyond the last virtual address and every byte before is readable. |
| `UserCopy.CopyOut` | kernel/mm/mm.c:269-293 | Succeeds exactly when user mode may write every byte; exactly the bytes of the range change; a failure has written whole pages up to the first one that is not writable. |
| `UserCopy.FrameWritten` | kernel/mm/mm.c:269-293 | Writing a frame shows at one virtual page of one address space only. |
| `VirtioSpec.RingPush` | kernel/dev/virtio_disk.c:373-377 | Adding an entry to a ring with wrapping 16-bit index overwrites none that is pending. |
| `VirtioSpec.RingPop` | kernel/dev/virtio_disk.c:404-416 | The oldest entry is at the tail; the indices agree exactly when the ring is empty, despite wrap-around. |
| `VirtioSpec.SubmitKeeps` | kernel/dev/virtio_disk.c:335-389 | Publishing a chain keeps the protocol invariant. |
| `VirtioSpec.TakeKeeps` | kernel/dev/virtio_disk.c:335-389 | The device takes the oldest chain and finds in it the request as issued. |
| `VirtioSpec.CompleteKeeps` | kernel/dev/virtio_disk.c:392-419 | The device may complete the chains it has taken in any order. |
| `VirtioSpec.SeeHead` | kernel/dev/virtio_disk.c:404-416 | A used-ring entry names a completed chain and the buffer that issued it. |
| `VirtioSpec.SeeKeeps` | kernel/dev/virtio_disk.c:404-416 | Handling one completion clears the flag of exactly that buffer. |
| `VirtioSpec.ReturnKeeps` | kernel/dev/virtio_disk.c:288-300 | Freeing a chain that was seen gives back its three descriptors and no others. |
| `VirtioSpec.OffDiskIsSeen` | kernel/dev/virtio_disk.c:383-387 | When a requester finds its buffer's flag clear, its chain has been completed and seen. |
| `VirtioSpec.EveryRunPartitions` | kernel/dev/virtio_disk.c:260-318 | In every interleaving, every descriptor is free or belongs to exactly one chain in flight. |
| `VirtioSpec.ServedAsIssued` | kernel/dev/virtio_disk.c:320-419 | In every interleaving, what the device has read followed by what still waits is exactly what was issued, in order. |
| `VirtioDisk.Disk.AllocDesc` | kernel/dev/virtio_disk.c:260-270 | The first free descriptor, or -1 exactly when there is none. |
| `VirtioDisk.Disk.Alloc3Desc` | kernel/dev/virtio_disk.c:306-318 | Three distinct free descriptors; a failure restores the free set, and happens exactly when there are not three. |
| `VirtioDisk.Disk.Undo` | kernel/dev/virtio_disk.c:306-318 | What was taken is free again, and nothing else. |
| `VirtioDisk.Disk.Submit` | kernel/dev/virtio_disk.c:320-381 | Publishes a chain of a 16-byte header, 1024 bytes of data that the device reads for a write and writes for a read, and a status byte, for sector 2 * bno, in the next place of the ring, or waits with nothing changed. |
| `VirtioDisk.Disk.DeviceTake` | kernel/dev/virtio_disk.c:373-381 | The device reads exactly the request that was issued. |
| `VirtioDisk.Disk.DeviceComplete` | kernel/dev/virtio_disk.c:404-416 | The device reports a chain as done. |
| `VirtioDisk.Disk.IntrStep` | kernel/dev/virtio_disk.c:404-416 | Never panics, and clears the flag of exactly the buffer whose request is completed. |
| `VirtioDisk.Disk.FreeChain` | kernel/dev/virtio_disk.c:288-300 | Frees exactly the three descriptors of a chain, without panicking. |
| `VirtioDisk.Disk.Finish` | kernel/dev/virtio_disk.c:383-390 | The chain of a finished request is given back; the invariant holds again. |
| `VirtioDisk.Serve` | kernel/dev/virtio_disk.c:320-419 | One request from issue to end, with the device and the interrupt in between: the device gets it as issued, the buffer's flag is clear and every descriptor is free. |
| `VirtioDisk.ServeAll` | kernel/dev/virtio_disk.c:320-419 | Any number of requests in turn, across the wrap-around of the 16-bit indices: the device gets each as issued. |
| `SchedulingSafety.InitIsSafe` | kernel/sched/proc.c:61-72 | The initial state satisfies the invariant. |
| `SchedulingSafety.SchedKeeps` | kernel/sched/proc.c:181-227 | Every step of a CPU's scheduler loop keeps the invariant. |
| `SchedulingSafety.ProcKeeps` | kernel/sched/proc.c:229-451 | Every step of a process in yield, sleep_on, wake_up, fork, wait, exit, kill and in the sleep locks keeps the invariant: among other things a process that is about to return from acquiring a sleep lock is its recorded holder. |
| `SchedulingSafety.RunningIsOnOneCpu` | kernel/sched/proc.c:197-217 | A running process whose lock is free is the process of exactly one CPU. |
| `SchedulingSafety.ResumesCompleteContext` | kernel/sched/proc.c:197-217 | A CPU about to resume a process finds its context complete, and no CPU executes the process. |
| `SchedulingSafety.ReapsOffCpu` | kernel/sched/proc.c:360-378 | wait frees a zombie only when no CPU executes it. |
| `SchedulingSafety.MutualExclusion` | kernel/lock.c:51-76 | Told by the events of every run: a process that has returned from sleep_lock_acquire and not called sleep_lock_release is the recorded holder of the locked lock, so at most one process has; and one that is about to return already is the holder. |
| `SchedulingSafety.NoLostWakeup` | kernel/lock.c:51-76 | When a sleep lock and its inner lock are free, no process sleeps for it or has found it taken and is about to sleep. |
| `SchedulingSafety.EveryRunIsSafe` | kernel/sched/proc.c:181-451 | All of these, in every state that any interleaving of any number of CPUs and processes reaches; who is inside a sleep lock is read off the events of the run. |
| `SchedulingSafety.EnteredKeeps` | kernel/lock.c:51-76 | Every step of every CPU: a process that has acquired a sleep lock and not called for its release stays its holder; nobody else takes the lock away. |
| `SchedulingCalls.Dispatch` | kernel/sched/proc.c:181-227 | A CPU that finds a runnable process takes its lock, makes it running and switches to its saved context. |
| `SchedulingCalls.PassOver` | kernel/sched/proc.c:181-227 | A CPU that finds any other process goes on to the next one and leaves everything as it was. |
| `SchedulingCalls.Yield` | kernel/sched/proc.c:268-275 | yield, from its call to the scheduler's next round: the process is runnable and off the CPU, its context saved and its lock free. |
| `SchedulingCalls.Exit` | kernel/sched/proc.c:390-424 | exit, in the same way: the process is a zombie. |
| `SchedulingCalls.Fork` | kernel/sched/proc.c:277-331 | fork: an unused entry becomes a runnable process that will go on in user mode; nothing else changes. |
| `SchedulingCalls.Reap` | kernel/sched/proc.c:350-388 | wait: the entry of a zombie is free again. |
| `SchedulingCalls.Kill` | kernel/sched/proc.c:333-348 | kill: a sleeping process becomes runnable, any other one stays as it is. |
| `SchedulingCalls.Acquire` | kernel/lock.c:51-63 | sleep_lock_acquire on a free lock: the caller holds it, and nothing else has changed. |
| `SchedulingCalls.Wait` | kernel/lock.c:51-63 | sleep_lock_acquire on a lock that another process holds: the caller sleeps for it, off the CPU, with the inner lock and its own lock free. |
| `SchedulingCalls.Retake` | kernel/lock.c:58-63 | A process that was woken and is switched in again takes the lock if it is free. |
| `SchedulingCalls.Release` | kernel/lock.c:65-76 | sleep_lock_release: the lock is free, every process that slept for it is runnable, and nothing else has changed. |
| `SchedulingCalls.HandOver` | kernel/lock.c:51-76 | A run from the initial state: one process acquires a sleep lock, a second one sleeps for it, the first releases it, and the second, woken and dispatched again, acquires it. |
| `Pipe.RingInsert` | kernel/fs/pipe.c:117-118 | Storing a byte appends it to the ring's contents. |
| `Pipe.RingRemove` | kernel/fs/pipe.c:87-90 | Taking a byte removes the oldest one. |
| `Pipe.Pipe.constructor` | kernel/fs/pipe.c:18-52 | An empty pipe with both ends open. |
| `Pipe.Pipe.Write` | kernel/fs/pipe.c:99-126 | One section of pipe_write: bytes go in, unaltered and in order, until all are in, the ring is full, the writer is killed or a copy fails, whichever comes first, and how it ends; a writer sleeps only on a full ring, with no reader asleep; the exact condition under which it leaves a sleeping reader with bytes to read. |
| `Pipe.Pipe.Read` | kernel/fs/pipe.c:72-97 | One section of pipe_read: without a fault the first n bytes, or all if there are fewer, leave the ring and are delivered in order; with a fault at byte k before that, k + 1 bytes leave and k are delivered; it sleeps exactly on an empty open pipe; writers are woken. |
| `Pipe.Pipe.Drain` | kernel/fs/pipe.c:86-93 | The loop of pipe_read takes as many bytes as are asked for and there; a byte whose copy fails is gone. |
| `Pipe.Pipe.Close` | kernel/fs/pipe.c:54-70 | Closing an end wakes those who wait for it. |
| `Pipe.Pipe.Kill` | kernel/sched/proc.c:333-348 | A signal makes a sleeper runnable and keeps the invariant. |
| `Pipe.Run` | kernel/fs/pipe.c:54-126 | Any interleaving of any processes: the bytes put in are the concatenation of what the turns accept, those taken out of what the turns take, those delivered of what the readers receive, and the pipe holds the difference; a reader and a writer never sleep at the same time; a reader sleeps on a non-empty pipe only if some turn stopped a writer midway, and the run reports exactly that. |
| `Pipe.RoundTrip` | kernel/fs/pipe.c:72-126 | After any turns that leave the pipe empty, writing s, with room for it, and reading |s| bytes without a fault delivers s and leaves the pipe empty. |
| `Pipe.Step` | kernel/fs/pipe.c:54-126 | One turn: the pipe, as seen from outside, moves as the turn says, with the bytes it accepts, takes and delivers; only a writer stopped midway can leave a reader stalled. |
| `Pipe.KilledWriterStallsReader` | kernel/fs/pipe.c:99-126 | The stall does arise: a killed writer returns without waking a reader that has something to read. |
| `Heap.Heap.FirstFit` | user/ulib.c:367-402 | The first free block that is large enough. |
| `Heap.Heap.Append` | user/ulib.c:367-402 | A new block behind the last one keeps the order exactly when it ends before the break. |
| `Heap.TotalFits` | user/ulib.c:367-402 | The break moves far enough exactly when header plus size is a positive 64-bit number. |
| `Heap.Heap.Malloc` | user/ulib.c:367-402 | A block that is not in use and large enough; null exactly for size 0, or when no free block is large enough and sbrk refuses; a new block is the last one, at the old break, which has moved by header plus size; the heap stays well formed if and only if one of these holds, a free block is large enough, or header plus size is below 2^63. |
| `Heap.WrappedRequest` | user/ulib.c:367-402 | Such a request on a new heap: with a size of 2^64 less a header the block does not lie below the break. |
| `Heap.OrderedJoin` | user/ulib.c:404-422 | Joining two blocks, although only the header's size is added, keeps every block ending before the next header. |
| `Heap.Heap.Coalesce` | user/ulib.c:404-422 | Joining free neighbours, each with at most one other, keeps the heap well formed and all live blocks as they are; the blocks afterwards are a function of those before. |
| `Heap.Heap.Free` | user/ulib.c:404-422 | Exactly one block stops being live; the others do not change. |
| `Heap.JoinedFree` | user/ulib.c:404-422 | Neighbouring free blocks are joined two by two from the left, and each pair grows by a header. |
| `Heap.JoinedCut` | user/ulib.c:404-422 | A block in use stays as it is and keeps its neighbours apart. |
| `Heap.FreeNeighbours` | user/ulib.c:404-422 | Two requests and two calls of free: one block is left, larger by a header alone, so the space of the second is lost. |
| `Heap.Run` | user/ulib.c:359-422 | Any sequence of malloc and free on a new heap: the blocks that the program holds are pairwise apart, headers included; a request is granted whenever sbrk grants; the run only ends early behind a request of 2^63 bytes or more, header included. |
| `Heap.LiveApart` | user/ulib.c:359-422 | A live block overlaps neither another live block nor any header. |
| `ExecStack.LongRoundTrip` | kernel/fs/exec.c:120-129 | A pointer stored in eight bytes is read back. |
| `ExecStack.LongBytes` | kernel/fs/exec.c:120-129 | Byte k of a stored pointer has the weight 256^k. |
| `ExecStack.PointerAt` | kernel/fs/exec.c:120-151 | What the program reads in a pointer array. |
| `ExecStack.StringAt` | kernel/fs/exec.c:107-143 | What the program reads as an argument is the argument, up to its zero. |
| `ExecStack.PushStrings` | kernel/fs/exec.c:107-119 | Succeeds exactly when the strings are not too many and fit; the copies are intact, pairwise disjoint and inside the stack page, each as close below the one before as alignment to 16 allows. |
| `ExecStack.PushPointers` | kernel/fs/exec.c:120-128 | The addresses and a null pointer, aligned, inside the stack page, or the exact reason for failing. |
| `ExecStack.PushArguments` | kernel/fs/exec.c:107-128 | One list of strings with its pointer array. |
| `ExecStack.BuildStack` | kernel/fs/exec.c:106-151 | Both lists: the exact condition for success, and what the program then finds at a1 and a2. |
| `Loader.LoadPage` | kernel/fs/exec.c:27-36 | One round of load_seg: as many bytes as the file has at this place go to the page that user mode sees there; the panic for a missing page cannot happen. |
| `Loader.LoadSegment` | kernel/fs/exec.c:21-39 | load_seg never panics on pages that exist; it succeeds exactly when the file has all the bytes; exactly these bytes end up at the segment's address, and no other byte changes. |
| `Loader.ImageEnds` | kernel/fs/exec.c:79-99 | Behind its segments the image of a program is zero. |
| `Loader.ImageByteIs` | kernel/fs/exec.c:79-99 | Byte x of a segment is byte off + x of the file, unless a later segment covers it. |
| `Loader.ImageByteElsewhere` | kernel/fs/exec.c:79-99 | An address that no segment covers with bytes of the file has a zero byte. |
| `Loader.PermissionBits` | kernel/fs/exec.c:11-19 | flags2perm: PTE_X exactly for flag 1 and PTE_W exactly for flag 2. |
| `Loader.LoadedGrown` | kernel/fs/exec.c:92-95 | Growing the address space keeps the image: fresh pages are zero, as the image is there. |
| `Loader.LoadedNext` | kernel/fs/exec.c:96-98 | Loading the next segment: the pages hold the image of one more segment, later segments over earlier ones. |
| `Loader.LoadedBelow` | kernel/fs/exec.c:106-151 | Copying the arguments leaves the image alone. |
| `Exec.AddSegment` | kernel/fs/exec.c:79-98 | One LOAD segment grows the new address space and loads its bytes, or is refused for exactly the stated properties of its header, for bytes that the file does not have, or for want of free pages; the space stays complete. |
| `Exec.AddSegments` | kernel/fs/exec.c:79-99 | The loop over the program headers: on success the pages hold the image of all segments; on failure the cause. |
| `Exec.FlaggedGrown` | kernel/fs/exec.c:79-98 | The pages that a segment adds are valid, readable and for user mode, executable by flag 1 of its header and writable by flag 2; earlier pages keep their flags. |
| `Exec.MakeImage` | kernel/fs/exec.c:76-151 | Segments and argument stack of the new address space, or the cause of the failure. |
| `Exec.DoExecve` | kernel/fs/exec.c:41-180 | On success the process has the new address space with the program's image, each of its pages with the flags of the first segment that reaches it, a size that is the end of a segment, its argument stack, the entry address and the number of arguments, and nothing of the old one is left; on failure it keeps its address space and size, the free pages are those from before except in the failing case of get_user_page_table, and the cause is stated; where nothing stands in the way of loading the program it succeeds exactly when both lists of strings fit, and a1 has changed exactly when those of argv fit and those of env do not; a panic needs more free pages than there are addresses below the stack. |
| `Exec.LateFailure` | kernel/fs/exec.c:124-151 | Such a call: no arguments, a string of 4095 bytes in env; it fails, with a1 changed. |
| `Exec.ReadBehindTheEnd` | kernel/mm/mm.c:248-267 | A process with a fresh address space makes copy_in panic by naming the first address behind the virtual ones. |

## Left out

- Log sizes and contents beyond one device: the log uses the compile-time layout of the image builder; the super block's contents are a parameter of the image builder.
- bread between the release of the cache lock and the disk read: a miss is one step, because the hit path does not look at `valid`.
- Waiting for a buffer's lock inside bread: `BufferCache.Cache.Bread` starts when the lock is free; the waiting itself is the sleep lock of `SchedulingSafety`.
- BufferCache.Cache.Brelse: asks that a released buffer was logged or written; the kernel does not check this, and a change that was neither would be lost.
- BufferCache.Cache.Drop: the same, as the first part of brelse.
- BufferCache.Cache.Give: the same, in terms of blocks.
- BufferCache.Cache.Bread: one device only; all buffers start as block 0 of device 0, which is never read.
- BufferCache.Cache.Take: starts when the buffer's lock is free, as Bread does.
- BufferCache.Cache.Bunpin: asks that the caller holds the buffer and that it is pinned, as in install_trans.
- LogMachine.CrashAtomicity: a panic ends the run; what a panicked kernel leaves on the disk is covered by the crash that follows it.
- readi and writei with a failing user copy: a failing copy leaves a buffer changed but not logged.
- FileSystem.FileSystem.ReadI: asks for a file without holes, which writei, dir_link and mkfs keep; for a hole bmap would allocate while reading.
- FileSystem.FileSystem.ReadRange: the same, for the loop of readi.
- FileSystem.FileSystem.ReadChunkAt: the same, for one round of it.
- FileSystem.FileSystem.WriteI: works on the blocks as the cache presents them; that each changed block is logged in an operation is the business of `LogImpl` and `LogMachine`. Offsets are not negative and do not wrap around.
- CrashSafety.OwnershipSurvives: asks that every batch of operations keeps ownership, and so does CrashSafety.FromTheImageOn; CrashSafety.FileWorkSurvives does without.
- CrashSafety.FileWorkSurvives: the operations are those made of writei (and with it dir_link and unlink) and itrunc, interleaved by elementary changes; lseeki may allocate a block without writing the inode. That an operation logs every block that it changes is a premise of `CrashSafety.OperationIsFileWork`; the model of writei does not call log_write itself.
- FileAtomicity.OperationIsAtomic: one operation on an idle log, which logs every block that it changes; operations that overlap commit together, and `LogRuns.PrefixSurvives` is about these.
- lseeki, ialloc, link counts and the truncation in iput of an inode without links: no code clears bits of the inode bitmap.
- Paths.InodeTable.Iput: covers the inodes that still have a link; the branch that truncates is `FileSystem.FileSystem.Itrunc`.
- Paths.LookupPath: leaves out ilock's panic for an inode without a type; names in directories lead to inodes of the table, as `Mkfs.InstalledIsClosed` shows for a new image.
- Mkfs.Image.Make: reads of the input files succeed; the short name (the part behind the last slash without leading underscores) is given; the name and data of each file are parameters.
- DirectoryOps.DirLink: the inode number fits into sixteen bits because there are 8192 inodes; the reference that a lookup takes and drops when the name exists is not modelled.
- Page contents: a page is seen as a table or as bytes, never as both; a frame that becomes a table is zeroed first, as pm_zalloc does.
- VirtualMemory.Memory.MapPages: permissions include at least one of read, write and execute, as all callers pass; an entry without any would be a pointer to a table.
- VirtualMemory.Memory.MapPage: the same, for one page.
- copy_str_in and copy_str_out: their loops do not advance the user address across a page.
- Kernel page tables, kernel stacks, satp and TLB flushes.
- VirtioDisk.Disk.Submit: the driver's writes up to the publication of the index are one step, since the device cannot see them earlier; memory barriers are not modelled. Buffers are identified by a number.
- virtio_disk_init and the device's registers; failing requests (the driver panics on a status other than 0, which this device never reports).
- SchedulingSafety.EveryRunIsSafe: parent pointers and wait_lock are not modelled, so any process may reap any zombie; interrupts, pids and the restoring of the interrupt state are left out.
- SchedulingSafety.ProcKeeps: processes sleep and are woken on the channels of sleep locks only; the waiting of wait for its children, the wake-up that exit gives to its parent, and the channels of pipes, timer and console are not steps of this machine.
- SchedulingSafety.MutualExclusion: the holder of a sleep lock is kept by process and not by pid; a process exits only when it holds no sleep lock.
- Liveness: that a woken process runs again, that wait returns, and freedom from deadlock. `SchedulingCalls` has what a call does if no other CPU interferes.
- Pipe.Pipe.Write: a section runs from taking the pipe's lock to sleeping or returning; the bytes to copy and the moments of a signal or a failing copy are parameters.
- Heap.Heap.Free: the address handed to free is that of a block the program holds.
- Exec.DoExecve: starts where the program file is open; that its header is a good one is a parameter, and so are the entry address and the program headers; the process name is left out.
- Loader.LoadSegment: asks that the pages of the segment exist and are the address space's own, as uvm_alloc has just made them, and for a program file without holes; offsets in the file do not wrap around.
- Loader.LoadPage: the same, for one page.
- ExecStack.PushStrings: the arrays of pointers grow as needed; in the source they have MAX_ARGS and MAX_ENVS entries, and a full list puts the null pointer behind the last one.
- Console, UART, PLIC, timer, trap entry, boot and assembly: hardware plumbing.
- System call wrappers and file descriptors: they fetch arguments from the trap frame and look up a small integer in a table of open files before they call what is modelled here.
- The shell and the user programs (cat, cp, echo, grep, init, kill, ln, ls, mkdir, rm): each is a loop over its arguments or its input that makes system calls.
