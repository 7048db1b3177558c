# Verified models of the xv6 kernel and its tools

This project models the algorithms of an xv6 kernel for x86, extended with double
indirect files, lseek, symbolic links and extent files, and proves what they are
for. Code that changes state step by step is modelled by classes and methods with
loops, each proved against functions of the old state; protocols between
processes are state machines whose results hold for every interleaving; pure code
is functions and lemmas.

| module | models | main results |
|---|---|---|
| DiskLog, BufferCache, Log, StorageMachine | the redo log over the buffer cache (log.c, bio.c, memide.c) | crash atomicity, cache transparency, and a simulation of the whole stack by a single durable copy under all interleavings and crashes, exactly as long as log_write lists its blocks in time |
| FsModel, FileSystem, OpenFiles, LogDemand | block allocation, the three-level block map, file reads and writes, lseek holes (fs.c, file.c, sysfile.c) | single ownership of blocks, files as flat byte sequences, when a read panics, which blocks are lost, when the inode on disk keeps up, on which disks an operation stays within its share of the log |
| Extents | extent files (fs.c) | when reading gives back what was written, and up to which write the extents are in order |
| Dirents, DirFiles, LinkCounts | directories, link, unlink, create (fs.c, sysfile.c) | directories as maps, entries as bytes of files, nlink as the number of entries, and how far a short counts them |
| Heap | the user-level allocator (umalloc.c) | the ring of free blocks, conservation of units, up to which break the heap is the process's |
| PageModel, PageTables | page allocation and two-level page tables (kalloc.c, vm.c) | each page has one owner, and no operation or failure loses one |
| SleepLock | sleeping locks over sleep and wakeup (proc.c, sleeplock.c) | mutual exclusion, no lost wakeup |
| PipeRing, PipeMachine | pipes (pipe.c) | the byte stream, when sleepers have a reason to sleep, when calls fail, and when kill comes too late |
| ProcTable, ProcTree | fork, exit, wait, kill (proc.c) | distinct pids, the process tree, zombies reaped once |
| ShellGrammar, Shell | the shell's parser (sh.c) | the parser accepts exactly what can be written, with its meaning, however it is written; cutting words in place |
| Regex | grep's matcher (grep.c) | agreement with the languages that patterns denote, and what these are for plain patterns |

Blocks holds the byte and word view of disk blocks.

The panics of log_write, of bmap, of balloc on a full disk and of unlink are results
of the methods that can reach them, with exact conditions; writei and itrunc run in
an operation with room on the disk, and the other panics are preconditions. Waiting
is modelled where the protocol is the point (SleepLock, PipeMachine, ProcTree,
StorageMachine); the other classes describe the sections between waits. The disk is
one block per write, as in memide.c, and a crash may fall between any two writes.

## Where the code does not do what it is meant to do

In each case the model follows the code, and the exact condition is proved.

- fileread begins no operation, but a read that meets a hole allocates its blocks
  through log_write. With nothing outstanding that panics, exactly when some block
  or index block of the range is missing (`OpenFile.Read`; `ReadInGap` gets there
  by lseek, write and read). Beside running operations the read logs blocks that
  nobody reserved: begin_op's bound holds up to one block for each of them
  (`GroupCommit`, `StepReserves`), one is enough to break it (`StrayBreaksBound`),
  and to stop an operation that kept to its own limit (`StrayStopsOperation`).
- lseek and write raise the size past the largest file, and then a read there ends
  in bmap's panic, exactly when it comes to a byte that no file can hold
  (`OpenFile.Read`, `ReadPastLargest`).
- log_write makes its tests before it takes the log's lock. A block is listed as it
  should be exactly when, at that moment, an operation is still outstanding and
  there is still room (`ListExact`), and crash atomicity holds for the runs in which
  every block is (`DurableIsQuiescent`). Without unreserved log writes, begin_op's
  reservation sees to that if the area has more than LOGSIZE blocks (`OrderlyRun`);
  with at most LOGSIZE, as mkfs makes it, two operations that both pass the tests
  overrun it, and the commit overwrites the block behind it, which nobody has
  touched, without any crash (`OverrunOverwrites`). A read that passes the tests and
  lists its block only during the commit makes install_trans copy a stale log entry
  over that block (`LateReadLoses`).
- writei brings the inode to the disk only when the file grows, and readi never
  does. The disk's inode stays equal to the one in memory exactly when the file grew
  or none of the inode's own addresses was filled (`Volume.Writei`, `OpenFile.Write`,
  `OpenFile.Read`); what lies behind an address that it has not got reads as zeros
  from there (`DiskReadsZero`).
- log.c:218 refuses a block once the list has log.size - 1 entries. mkfs.c:25 makes
  the area LOGSIZE blocks long, so the reservation of begin_op is one block too
  generous, and the test does not keep the list within the area either;
  `LogSizeExact` gives the conditions. With a longer area a full list pins
  all NBUF buffers and commit finds none (`FreeBufferIff`). The test also comes
  before the search for an already listed block (`FullLogRefusesAll`).
- MAXOPBLOCKS leaves room for two bitmap blocks. That is enough for every chunk of
  filewrite exactly when the bits of all data blocks lie in two (`NarrowFits`,
  `Overdraw`); on the disk that mkfs makes they lie in 49 (`MkfsIsWide`). itrunc
  fits exactly when what it frees has its bits in fewer than MAXOPBLOCKS of them
  (`TruncFits`). What an operation logs beyond its share is as unreserved as what a
  read logs.
- itrunc does not look at addrs[NDIRECT+1] (`TruncExact`). When the inode is freed,
  exactly its double indirect tree is lost (`Ifree`): those blocks are never free and
  never in a file again, whatever happens to files afterwards (`LostForGood`).
- filewrite's write of zeros before a hole is always refused by writei
  (`FillHole`); the gap reads as zeros because bytes past the end are zero. The zeros
  are an array on the kernel stack, and a gap of KSTACKSIZE bytes or more does not
  fit there (`FillHole`, `OpenFile.Write`).
- README.md of the system says that lseek has SEEK_SET behaviour; the code adds the
  offset to the current one, which is the same exactly at position 0
  (`SeekSetExact`).
- An extent file returns nothing for the first block of a write that did not start
  at a block boundary, and a reader stops there (`ReadAll`).
- The limit on extents lets one write more through than the array holds. Its extent
  lands on the two fields behind the array, so the extents are in order afterwards
  exactly when there was a free one (`ExtentFile.Write`); `TwelveWrites` gets there
  with one-byte writes. From every state with at most NDIRECT extents, in order or
  not, a write no longer than filewrite's leads to such a state again, so that the
  limit itself is never met from there.
- A process in a directory that has already been removed can still link and create
  in it, and then nlink no longer counts the entries or a directory has no parent
  (`FileLinkExact`, `FolderLinkExact`).
- nlink is a short, and link and mkdir add to it without a test. The count of a file
  is exact as long as it has fewer than 2^15 links (`Link`, `FileLinkExact`), and
  right modulo 2^16 after that: the 32768th link makes it negative, so that the next
  unlink panics (`LinkWraps`, `UnlinkPanics`), and the 65536th makes it 0, so that
  the inode is freed while entries name it (`FreeNode`, `NamedInodeFreed`).
- A killed writer that finds the pipe full returns without waking readers, also when
  it has stored bytes since they went to sleep (`StepExact`).
- A kill that falls between the test of a reader or writer and its sleep does not keep
  it awake: the process sleeps with its mark set (`KillExact`). In wait the two are
  one section, and it does not happen (`KilledLeavesWait`).
- kill matches unused slots too, and allocproc does not clear the mark, so a process
  can be born killed (`CleanExact`, `BornKilled`).
- malloc's size computation wraps around for requests above 2^32 - 8 bytes
  (`RoomExact`), and the argument of sbrk is negative or zero from 2^28 units on
  (`SbrkExact`). sbrk adds it to the break in 32-bit arithmetic, without any test and
  without failing. So the heap stays the process's exactly as long as the break and
  what is added stay below 2^32 bytes, whatever the sign of the argument (`Malloc`);
  two requests of 2^31 - 16 bytes are too much (`TwoLargeRequests`).

## Model

| member | source | states |
|---|---|---|
| DiskLog.HeadRoundTrip | log.c:86-113 | reading the header block gives back exactly the list that was stored in it, for every list of at most LOGSIZE block numbers |
| DiskLog.HeadLayout | log.c:34-37 | the header block has the count in its first word and the block numbers in order behind it, and its other words are untouched |
| Blocks.WordLayout | fs.c:380-387 | a stored word occupies its four bytes, least significant first, and no other byte changes |
| DiskLog.CommitComplete | log.c:193-202 | a commit that completes leaves all its updates at their home blocks and an empty log |
| DiskLog.CommitOrder | log.c:177-202 | commit's writes one by one: entry i to the i-th block behind the header, the header, entry i to its home block, the empty header |
| DiskLog.CommitCrash | log.c:177-202 | a crash after any number of commit's disk writes recovers to the home blocks from before the transaction if the header was not yet written, and to all of its updates otherwise |
| DiskLog.RecoveryCrash | log.c:69-122 | a crash after any number of recovery's writes: recovering again reaches the same home blocks |
| DiskLog.RepeatedRecoveryCrash | log.c:116-122 | ... after any number of crashed recoveries |
| DiskLog.CrashAtomicity | log.c:69-122 | crash anywhere in commit, then any sequence of crashes during recovery: the final result is the state before or the state after the transaction, never a mixture |
| BufferCache.Cache.constructor | bio.c:38-56 | the list built by the loop of insertions at the head is one well-formed doubly linked ring through all buffers |
| BufferCache.Cache.Find | bio.c:67-76 | the forward walk finds a buffer exactly when some buffer caches the block |
| BufferCache.Cache.Victim | bio.c:78-91 | the backward walk finds, among all buffers that are neither referenced nor dirty, the one released longest ago |
| BufferCache.Cache.Get | bio.c:61-93 | hit: that buffer with one more reference; miss: the least recently released clean buffer is reused, never a dirty one, and no block ever has two buffers |
| BufferCache.Cache.Fill | memide.c:38-60 | filling from disk gives the block's latest contents, although other blocks may be newer in the cache than on disk |
| BufferCache.Cache.Read | bio.c:96-106 | bread returns the latest logical contents of the block whatever was cached, recycled or written before |
| BufferCache.Cache.Store | log.c:205-212 | a holder's change to its buffer changes the logical contents of that one block |
| BufferCache.Cache.Write | bio.c:109-116 | bwrite issues one disk write of the latest contents and leaves the buffer clean |
| BufferCache.Cache.Release | bio.c:118-141 | brelse keeps the ring well formed; the last release makes the buffer the most recently used one |
| BufferCache.RelinkMoves | bio.c:130-138 | the six link updates turn the ring for one order into the ring for that order with the buffer in front |
| BufferCache.OldestRecyclable | bio.c:78-91 | the first recyclable buffer seen from the tail was released before every other recyclable one |
| BufferCache.RecycleKeeps | bio.c:81-90 | giving a clean unreferenced buffer to another block loses no contents |
| Log.RedoLog.WriteLog | log.c:177-190 | the disk writes are exactly the listed blocks, as the cache has them, in list order into the log area; pins stay |
| Log.RedoLog.InstallTrans | log.c:69-82 | the disk writes are exactly the log entries to their home blocks, and exactly the listed blocks lose their pins |
| Log.RedoLog.WriteHead | log.c:102-113 | one disk write: the header that encodes the current list |
| Log.RedoLog.ReadHead | log.c:86-96 | the in-memory list becomes the list that the header on disk encodes |
| Log.RedoLog.Recover | log.c:116-122 | from a fresh cache the disk becomes the recovered disk, by exactly the writes that the crash lemmas are about |
| Log.RedoLog.Commit | log.c:193-202 | the writes of a commit in order; afterwards disk and cache agree with the logical contents at every home block, the log is empty, and any crash in between is all or nothing |
| Log.RedoLog.BeginOp | log.c:125-141 | an operation starts exactly when no commit runs and the log has room for MAXOPBLOCKS more for every running operation and this one |
| Log.RedoLog.Absorb | log.c:222-225 | the search finds the block in the list or shows that it is not there |
| Log.RedoLog.LogWrite | log.c:213-233 | it panics if and only if the list has LOGSIZE entries, or log.size - 1, or nothing is outstanding; otherwise the block is listed once, at the end if new, and its buffer is pinned |
| Log.RedoLog.List | log.c:222-232 | the part under the lock, whatever happened since the tests: the log stays in order if and only if the block is listed already or there is still room in the area |
| Log.RedoLog.EndOp | log.c:145-174 | only the last operation to end commits; then all home blocks are durable and the log is empty |
| Log.CommitMeaning | log.c:193-202 | any disk image that receives commit's writes reaches the logical contents at home, and every prefix of the writes is crash safe |
| Log.FreeBufferIff | log.c:182-189 | with all buffers released, bget finds a buffer for a new block if and only if fewer than NBUF blocks are pinned |
| StorageMachine.StepRefines | log.c:125-233 | every step of every interleaving of operations, the tests of log_write, its listing of a block in time, cache loads and recycling, commit writes, recovery writes and crashes keeps the invariant and is a step of a specification with one durable copy replaced as a whole |
| StorageMachine.ListExact | log.c:213-233 | the listing half of log_write, which follows its tests after any steps of others, refines the specification if and only if an operation is outstanding at that moment and the block is listed or still has room |
| StorageMachine.RunInv | log.c:125-233 | the invariant holds in every state of every run whose blocks are all listed in time |
| StorageMachine.DurableIsQuiescent | log.c:145-202 | in such a run, what recovery would restore at any moment is exactly the contents at some earlier moment at which no operation was running: whole operations only |
| StorageMachine.RecoveryRestores | log.c:116-122 | after a crash and a completed recovery the processes see that contents |
| StorageMachine.OrderlyRun | log.c:125-233 | every run without unreserved log writes lists all its blocks in time if the log area has more than LOGSIZE blocks, although the tests precede the lock |
| StorageMachine.GroupCommit | log.c:125-174 | in every run a commit is in progress only while no operation is, the list has no duplicates, and its length plus all unused budgets is at most LOGSIZE plus the number of log writes that nobody reserved, by reads or by operations beyond MAXOPBLOCKS; without any of those no operation within its budget finds the list full |
| StorageMachine.StepReserves | log.c:125-233 | every step keeps the reservation, except that an unreserved log write keeps it if and only if its block is listed already or there is room left |
| StorageMachine.StrayBreaksBound | log.c:213-233 | a run with one unreserved log write after which the bound is exceeded |
| StorageMachine.StrayStopsOperation | log.c:218-221 | a run with one unreserved log write after which log_write refuses an operation that has used nine of its ten blocks |
| StorageMachine.LogSizeExact | log.c:218-219 | log_write's bound on the log area never stops an operation that keeps to MAXOPBLOCKS if and only if the area has more than LOGSIZE blocks, and more than LOGSIZE + 1 with unreserved log writes; and the list stays within the area in every run without those if and only if the area has more than LOGSIZE blocks or no room for any entry |
| StorageMachine.Overrun | log.c:213-233 | with an area of 2 to LOGSIZE blocks, a run in which two operations pass the tests and both list a block: the list has outgrown the area |
| StorageMachine.OverrunOverwrites | log.c:176-233 | ... and a run in which the commit then writes the block behind the area, which no operation has touched, without any crash |
| StorageMachine.LateReadLoses | log.c:145-233 | a run in which a read passes the tests, an operation commits, and the read lists its block during the commit: the block gets what an old log entry held, and what was stored in it is gone |
| StorageMachine.FullLogRefusesAll | log.c:218-221 | a run after which log_write refuses every block, also those already listed, although operations are running |
| FsModel.SlotOfInjective | fs.c:364-420 | different blocks of a file have different places in the direct, indirect and double indirect maps |
| FsModel.ByteLies | fs.c:364-420 | byte o of the file's bn-th block is byte o of the disk block that the inode and the index blocks name for bn |
| FsModel.ByteOfHole | fs.c:364-420 | where they name none, the byte is zero |
| FsModel.OneOwner | fs.c:364-420 | no block is used by two places, whether of one inode or of two |
| FsModel.FillSlot | fs.c:364-420 | allocating a block and storing its number in an empty place keeps every other pointer, every file's bytes and sizes, and uses up one free block |
| FsModel.WriteLeaf | fs.c:606-615 | storing a data block changes the bytes of that block of that file and no other byte of any file |
| FileSystem.Volume.FindFree | fs.c:56-79 | the nested scan of the bitmap returns the lowest free block if there is one |
| FsModel.BitmapLayout | fs.c:61-67 | the bit of block b is bit b mod 8 of byte (b mod 4096) / 8 of bitmap block b / 4096 |
| FileSystem.Volume.constructor | mkfs.c:89-110 | a formatted volume without files satisfies the ownership discipline, and all bytes past the ends of files are zero |
| FileSystem.Volume.Ialloc | fs.c:195-215 | the new inode owns no block and reads as zeros; no byte of any file changes, and the discipline is kept |
| FileSystem.Volume.Balloc | fs.c:56-79 | exactly the lowest free block becomes used and is zeroed, all other blocks and bits stay; it panics if and only if no operation is outstanding or no block is free |
| FileSystem.Volume.Bfree | fs.c:82-96 | exactly one block becomes free |
| FileSystem.Volume.Bmap | fs.c:364-420 | the number it returns stands in the inode for the first NDIRECT blocks, in word bn - NDIRECT of the single indirect block for the next NINDIRECT, and in the word two levels down that quotient and remainder select for the others; it fills exactly the missing places on the way, moves no pointer and changes no byte of any file; it panics if and only if the number is out of range, or places are missing and nothing is outstanding or too few blocks are free; what it logs is exactly the new blocks, their bitmap blocks and index blocks of the path |
| FileSystem.Volume.Readi | fs.c:486-539 | it returns at most what was asked for and what the file has, and less than was asked for only up to the end; the bytes are that slice of the file as one flat byte sequence, with holes as zeros, over all three mapping levels; no file changes; for every size it panics if and only if the range goes past the largest file, or places of it are missing and nothing is outstanding or too few blocks are free |
| FileSystem.Volume.Writei | fs.c:544-623 | the splice of the data into one file's flat byte sequence, every other byte of every file unchanged; the exact refusal condition; memory and disk still agree on the inode if and only if the file grew or none of the inode's own addresses was filled |
| FileSystem.InodeLayout | fs.h:49 | the inode's block is the one in which its 64 bytes lie |
| FileSystem.AddrsKept | fs.c:616-619 | filling places along any paths leaves the inode unchanged if and only if none of its own addresses was among the missing ones |
| FileSystem.DiskReadsZero | fs.c:221-237 | by an inode on disk that lacks an address every byte behind that address is zero, whatever the blocks hold |
| FileSystem.Volume.Itrunc | fs.c:427-455 | each direct and single indirect block is freed exactly once and nothing else; ownership stays sound; what is logged is exactly the bitmap blocks with their bits and the inode's block |
| FileSystem.FreedAre | fs.c:427-448 | what it frees are exactly the non-zero numbers in the first NDIRECT + 1 addresses and in the words of the single indirect block |
| FileSystem.TruncExact | fs.c:434-451 | itrunc gives back all blocks of the inode if and only if it has no double indirect block; otherwise exactly that tree stays allocated |
| FileSystem.Volume.Ifree | fs.c:333-353 | the inode is gone and ownership stays sound; the blocks in use without an owner grow by exactly its double indirect tree; no byte of any other file changes |
| FileSystem.LostFilled | fs.c:364-623 | reading and writing leave the set of lost blocks exactly as it is |
| FileSystem.LostForGood | fs.c:195-455 | in every run of reads, writes, truncations and inodes made and freed, a lost block is never free and never in a file again |
| OpenFiles.SeekSetExact | sysfile.c:21-43 | lseek to a position gets there if and only if the offset was 0, with an input where it does not |
| OpenFiles.OpenFile.Read | file.c:97-121 | the contents at the offset, as many bytes as asked for or up to the end, and the offset behind them; it panics if and only if the range goes past the largest file, or places of it are missing and nothing is outstanding or too few blocks are free; the inode on disk stays equal if and only if none of the inode's own addresses was missing |
| OpenFiles.ReadToEnd | file.c:97-121 | reading from the start, any number of bytes at a time, until a read returns nothing gives the whole contents; it panics if and only if some place of the file is missing and cannot be filled |
| OpenFiles.ReadInGap | file.c:97-171 | a new file, lseek two blocks on, one byte written, a read back in the gap: the panic is reached |
| OpenFiles.GapStaysEmpty | file.c:146-203 | a write leaves every block before its range as unmapped as it was, so a read there has missing places |
| OpenFiles.ReadPastLargest | file.c:97-171 | a new file, its size raised by lseek and empty writes, and a read behind the largest file: the panic is reached, also while operations are outstanding |
| OpenFiles.OpenFile.FillHole | file.c:146-171 | for an offset past the end only the size changes, up to the offset: the write of zeros is refused; the zeros are as many as the kernel stack has bytes, or more, if and only if the gap is |
| OpenFiles.OpenFile.WriteChunk | file.c:184-194 | one transaction: a splice, or a refusal that changes nothing; what it logs is within the footprint below, and the inode's block if the file grew |
| OpenFiles.OpenFile.Write | file.c:137-205 | filewrite with its chunks is one splice of the bytes that fit, says whether all did, and fills exactly the places of that range; the inode on disk keeps up if and only if the file grew by what was written, or needed neither a new size nor a new address |
| OpenFiles.FittingExact | file.c:182-202 | everything is written if and only if it fits the largest file; otherwise whole chunks up to the first one that does not fit |
| OpenFiles.WriteIsOverlay | file.c:146-203 | old contents, zeros in the gap, then the data, as one flat overlay, and no other file changes; it needs that bytes past a file's end are zero, which it keeps |
| OpenFiles.ReadKeepsFiles | fs.c:522-535 | reading holes, although it allocates, keeps the contents of every file and the zeros past the ends |
| OpenFiles.ReadAfterWrite | fs.c:486-623 | a read at the place of a write returns what was written |
| OpenFiles.IndexCount | fs.c:364-420 | four consecutive blocks need at most three index blocks at every level and second-level boundary |
| OpenFiles.FootprintOf | file.c:176-194 | one chunk logs exactly the blocks it allocates, their bitmap blocks, and at most four data blocks, three index blocks and the inode's block in all, for every offset |
| OpenFiles.FootprintSize | param.h:10-11 | so it logs at least the new blocks, their bitmap blocks and the inode's block if that was logged, and at most eight blocks besides the bitmap's |
| LogDemand.NarrowFits | param.h:10-11 | every chunk fits MAXOPBLOCKS if the bits of the data blocks lie in at most two bitmap blocks |
| LogDemand.Overdraw | file.c:176-194 | on every disk where they lie in more, a volume and a file on which one chunk logs more than MAXOPBLOCKS blocks |
| LogDemand.MkfsIsWide | mkfs.c:23-26 | the disk that mkfs makes is such a disk |
| LogDemand.TruncFits | fs.c:427-455 | itrunc fits MAXOPBLOCKS if and only if what it frees has its bits in fewer than MAXOPBLOCKS bitmap blocks |
| Extents.ExtentFile.Write | fs.c:566-604 | a write takes the blocks after all earlier ones whatever its offset, and its data is stored; the extents, one per write with its length and the mapped address of its first block, are in order afterwards if and only if there was a free one, otherwise the count and the number of blocks are overwritten; from any state, in order or not, a write as short as filewrite's leaves at most NDIRECT extents |
| Extents.TwelveWrites | fs.c:568-599 | twelve one-byte writes: the last is let through and leaves one extent and a block number as the number of blocks |
| Extents.ExtentFile.Read | fs.c:497-520 | a read returns the next logical block up to its first NUL, which for text is the piece of the write that owns the block, and nothing after the last block |
| Extents.ExtentFile.ReadAll | fs.c:497-520 | reading text block by block after open until a read returns nothing gives the concatenation of all writes if and only if every write started at a block boundary |
| Extents.ExtentReadBack | fs.c:497-604 | the same for the sequence of all pieces up to the last block |
| Extents.StoppedAt | fs.c:497-520 | ... and for the pieces up to the first empty one |
| Extents.LengthsAddUp | fs.c:566-600 | the lengths of the extents add up to the number of logical blocks |
| Dirents.Namecmp | fs.c:628-632 | zero exactly when the two fields agree up to their first NUL |
| Dirents.Strncpy | string.c:68-79 | the stored field has the same text, padded with NULs |
| DirFiles.Lookup | fs.c:634-657 | reading the directory file entry by entry finds the first entry with the name's text if and only if there is one, and changes nothing |
| DirFiles.Link | fs.c:659-686 | refuses exactly the names in use; otherwise the first unused entry, or the end of the file, takes the new one through writei, the directory as records is the old one with that entry placed, and every other file is as it was |
| DirFiles.EntryWritten | fs.c:680-683 | a write of an entry's 16 bytes at its place, or at the end, places the entry in the directory and leaves every other file, and the absence of holes, as it was |
| Dirents.PlacedFind | fs.c:659-686 | the directory as a map gains exactly one name |
| Dirents.ClearedFind | sysfile.c:235-237 | clearing a slot removes exactly its name from the map |
| Dirents.EncodeDecode | fs.h:60-63 | 16-byte entries and records determine each other |
| Dirents.EntryLayout | fs.h:60-63 | an entry has its inode number in the first two bytes, low byte first, and its name in the fourteen behind them |
| Dirents.WriteEntry | fs.c:680-683 | writing the 16 bytes at a slot's offset, or at the end of the file, is placing the entry in the directory |
| LinkCounts.Tree.Link | sysfile.c:144-189 | the map of the new directory and nlink, a 16-bit count, change together; every failure, also after nlink was raised, leaves everything as it was; nlink still counts the entries modulo 2^16 if and only if nothing was linked or the directory still had links, and exactly if and only if besides it was below 2^15 - 1 |
| LinkCounts.Tree.IsDirEmpty | sysfile.c:192-205 | true exactly when no entry after the dots is in use |
| LinkCounts.Tree.Unlink | sysfile.c:208-261 | the exact conditions of success and of the panic, which needs a count that has wrapped around; one name leaves the map; the parent loses the link of ".." when a directory goes; nlink still counts the entries |
| LinkCounts.Tree.Create | sysfile.c:367-423 | an existing plain file when one is wanted, nothing for any other existing name; otherwise a fresh inode with one link under exactly that name, the parent one link more for a directory; the tree stays in order if and only if nothing was made, or the directory still had links and, for a directory, fewer than 2^15 - 1 of them |
| LinkCounts.Tree.Iput | fs.c:333-353 | freeing an inode whose nlink is 0 leaves no entry in a linked directory dangling if and only if none names it, as is the case while counts are exact |
| LinkCounts.EmptyHasOneLink | sysfile.c:225-228 | an empty directory has exactly one link, the entry that unlink is about to clear |
| LinkCounts.FileLinkExact | sysfile.c:159-173 | the counts stay right if and only if the directory that gets the entry still has links, and exact if and only if besides the file has fewer than 2^15 - 1 links |
| LinkCounts.FolderLinkExact | sysfile.c:403-413 | a directory made in a removed one leaves a directory that no parent names, and one too many a negative count; otherwise the tree stays in order |
| LinkCounts.LinkWraps | sysfile.c:159-166 | the 32768th link makes nlink negative although 32768 entries name the file |
| LinkCounts.LinkTimes | sysfile.c:144-189 | linking a new file again and again, up to 65536 times: its nlink is the number of links modulo 2^16 |
| LinkCounts.UnlinkPanics | sysfile.c:208-235 | after the 32768th link the panic of unlink is reached |
| LinkCounts.FreeNode | fs.c:333-353 | freeing an inode with nlink 0 keeps the tree in order if and only if no entry names it; the number of those is a multiple of 2^16 |
| LinkCounts.NamedInodeFreed | fs.c:333-353 | after the 65536th link the inode is freed while the root names it |
| Heap.Arena.FindSpot | umalloc.c:28-31 | free's search ends within one round and finds the one place that keeps the list in address order |
| Heap.Arena.Free | umalloc.c:24-44 | the block leaves the set of blocks in use and nothing else; the list stays one ascending ring of disjoint blocks, no two adjacent, and free and used units still make up exactly what sbrk gave |
| Heap.Arena.Morecore | umalloc.c:46-61 | on success the heap grows by a disjoint span of at least the request and some free block is large enough, and these units belong to the process if and only if the old break and the span stay below 2^32 bytes; on failure nothing changes |
| Heap.Arena.Sbrk | sysproc.c:99-109 | the old break is returned and the amount added in 32-bit arithmetic; without wrapping around the heap stays the process's |
| Heap.Arena.Search | umalloc.c:76-89 | one round from freep finds a block that is large enough together with its predecessor, or there is none |
| Heap.Arena.Malloc | umalloc.c:63-90 | null only when no free block was large enough and sbrk failed; otherwise one new block of the right size, apart from all others, with the same ring and conservation; the heap stays within the process if and only if it did not grow or the old break and what was added stay below 2^32 bytes |
| Heap.TwoLargeRequests | umalloc.c:46-90 | two requests of 2^31 - 16 bytes that both succeed leave the second block outside the process |
| Heap.Disjoint | umalloc.c:24-90 | no unit is in two free blocks, in two blocks in use, or in one of each |
| Heap.FreedRing | umalloc.c:32-42 | the linking code with its two merges keeps the ring and covers exactly the old free units and the block |
| Heap.TakePart | umalloc.c:79-83 | cutting the request off the end of a larger block keeps ring, disjointness and conservation |
| Heap.RoomExact | umalloc.c:69 | the block has room for the request if and only if the 32-bit rounding does not wrap around, and then less than one unit more than that |
| Heap.SbrkExact | umalloc.c:54 | sbrk is asked for the intended size if and only if the request is below 2^28 units |
| PageModel.MappedOnce | vm.c:35-80 | a page is mapped at one user address of one space only |
| PageModel.LookupTranslates | vm.c:35-55 | a translation is what the processor finds: the upper ten bits of the page number select in the directory, the lower ten in the table |
| PageTables.Kernel.Freerange | kalloc.c:46-53 | every page of the range becomes free |
| PageTables.Kernel.Kfree | kalloc.c:59-77 | the list still threads exactly the free pages, each once |
| PageTables.Kernel.Kalloc | kalloc.c:82-95 | null exactly when no page is free; otherwise one free page changes hands |
| PageTables.Kernel.Walk | vm.c:35-55 | makes at most one table, owned by the space, and changes no translation of any space; null changes nothing |
| PageTables.Kernel.Mappages | vm.c:60-80 | over any unmapped range the pages become mapped, by the two-level walk of the processor, to consecutive pages up to the first table that can not be made, user pages going over to the space; all other translations of this and every other space stay |
| PageTables.Kernel.Setupkvm | vm.c:105-136 | a directory that translates the four ranges of kmap, with their physical addresses and permissions, and no other page; or failure with every page back where it was |
| PageTables.Kernel.Allocuvm | vm.c:221-251 | the range holds fresh zeroed pages; on failure every user page of the range is free again and at most page tables stay with the space; every other space translates as before |
| PageTables.PagesExact | vm.c:221-283 | rounding up gives the least number of pages that cover the size |
| PageTables.Kernel.Deallocuvm | vm.c:257-283 | exactly the user pages of the range are unmapped and freed, also across the jumps over missing tables; every other space translates as before |
| PageTables.Kernel.Freevm | vm.c:287-302 | exactly the pages of the space, user pages, tables and directory, become free, each once; everything else is untouched |
| PageTables.Kernel.Copyuvm | vm.c:319-349 | the child has equal contents and flags on fresh pages and the kernel's map, the parent is unchanged; on failure the ownership of every page is as before |
| SleepLock.StepInv | proc.c:754-811 | every step of acquiresleep, releasesleep, sleep, wakeup, the scheduler and kill, in any interleaving, keeps the invariant |
| SleepLock.MutualExclusion | sleeplock.c:22-53 | in every run at most one process is between acquiresleep and releasesleep, and locked and pid say which |
| SleepLock.NoLostWakeup | proc.c:754-789 | in every run, with both spinlocks free, a process asleep on the lock implies another process that holds it, so a wakeup is still to come |
| SleepLock.Contended | sleeplock.c:22-32 | a run that reaches this situation |
| SleepLock.WokenTakes | sleeplock.c:22-32 | from every state with the spinlocks free, a woken process goes back to its test and takes the lock if it is free |
| SleepLock.Handover | sleeplock.c:22-42 | a run in which the sleeper gets the lock from its holder |
| SleepLock.ReleaseWakesAll | sleeplock.c:34-42 | after wakeup's scan nobody waits or is about to |
| PipeRing.TestsExact | pipe.c:84-117 | the comparisons of wrapping 32-bit counters mean full and empty |
| PipeRing.PutAppends | pipe.c:93 | storing a byte appends it to the contents, across counter wraparound |
| PipeRing.TakeRemoves | pipe.c:116 | taking a byte removes the oldest |
| PipeRing.Pipe.Fill | pipe.c:83-94 | the copy loop appends the source up to where the pipe is full |
| PipeRing.Pipe.Drain | pipe.c:113-117 | the copy loop removes the oldest bytes, as many as asked for and present |
| PipeMachine.PipeStream | pipe.c:78-121 | for any number of readers, writers and closers and all interleavings, with kill: the bytes read are a prefix of the bytes written and at most PIPESIZE are in between |
| PipeMachine.WriteDelivers | pipe.c:78-98 | a write that returns n has put its n bytes into the stream in order, one that returns -1 a prefix of them |
| PipeMachine.ReadDelivers | pipe.c:100-121 | a read returns a contiguous piece of the stream, short only if the pipe is empty, and 0 only at the end of a stream without writers |
| PipeMachine.FailsForReason | pipe.c:78-121 | in every run a read returns -1 only if it was killed and the pipe was empty with writers, a write only if the pipe was full and it was killed or without readers |
| PipeMachine.TestOutcome | pipe.c:83-112 | at its test a process leaves with -1, goes to sleep or goes on, each if and only if the pipe, its ends and the kill mark say so |
| PipeMachine.KilledNeverSleeps | pipe.c:78-121 | once a process is killed and not between its test and its sleep, it never sleeps in the pipe again, whatever others do |
| PipeMachine.KillExact | proc.c:816-834 | kill wakes the process, and it can come to sleep in the pipe afterwards if and only if the kill fell between its test and its sleep |
| PipeMachine.WokenTests | proc.c:754-789 | a woken process goes back to its test with the job it had |
| PipeMachine.StepExact | pipe.c:78-121 | after a step nobody sleeps without reason if and only if the step is not that of a killed writer leaving a full pipe to sleeping readers |
| PipeMachine.SleepersHaveReason | pipe.c:78-121 | in runs without kill, with both locks free, a sleeping reader implies empty and a sleeping writer full, so never both |
| PipeMachine.KilledWriterStrandsReader | pipe.c:84-92 | a run with kill at whose end the pipe is full and a reader sleeps on |
| ProcTable.Slots.Allocproc | proc.c:100-131 | the first unused slot gets the next pid, or there is none |
| ProcTable.Slots.Wakeup1 | proc.c:794-802 | exactly the sleepers on the channel become runnable, and nothing else of any slot changes |
| ProcTable.Slots.Exit | proc.c:290-305 | exactly the children go to init; of the sleepers exactly the parent in wait, and init in wait if it gets a zombie, wake up; the process is a zombie; nothing else changes |
| ProcTable.Slots.WaitScan | proc.c:319-351 | reaps exactly when there is a zombie child, the first in slot order; otherwise fails exactly without children or when killed, or sleeps |
| ProcTable.Slots.Kill | proc.c:816-834 | the first slot with the pid, whatever its state, gets the mark and is runnable if it slept; pid, parent, channel and every other slot stay |
| ProcTree.StepInv | proc.c:100-353 | every step of fork, exit, wait, kill, sleep, wakeup by processes and interrupts, and scheduling, with fork's unlocked writes as steps of their own, keeps the invariant |
| ProcTree.RootedAtInit | proc.c:295-301 | from every started process the parents lead to init, each alive and with a smaller pid |
| ProcTree.ProcessTree | proc.c:100-353 | in every run live pids differ, parents form a tree under init without zombie or unused parents, and nobody sleeps in wait with a zombie child |
| ProcTree.PidsConserved | proc.c:218-353 | in every run each pid given out is held by one live process, or was reaped once, or belonged to a fork that failed, and only one of these |
| ProcTree.KillTargetExact | proc.c:816-834 | kill finds a slot without a process exactly for pid 0 and for pids of failed forks |
| ProcTree.KillWakes | proc.c:816-834 | after a kill the victim is marked and not asleep, and no other process has changed |
| ProcTree.KilledLeavesWait | proc.c:313-353 | in every run no process with a kill mark sleeps in wait |
| ProcTree.ForkMakes | proc.c:218-262 | fork's three sections, with steps of others in between, leave a runnable child with the next pid and the forking process as parent |
| ProcTree.SleepThenWake | proc.c:754-811 | a process asleep on a channel is woken by exactly that channel |
| ProcTree.CleanExact | proc.c:100-262 | unused slots stay without a kill mark, except exactly after such a kill and after a failed fork whose embryo was killed |
| ProcTree.BornKilled | proc.c:816-834 | a run in which a new process starts with the kill mark |
| Shell.Gettoken | sh.c:265-308 | the next token of the line, the exact range of its word, and a cursor from which the rest of the tokens follow |
| Shell.ScanRender | sh.c:265-308 | a line put together from any tokens with any blanks, none where none is needed, is taken apart into these tokens |
| Shell.Peek | sh.c:310-320 | whether the next token starts with one of the characters, without consuming it |
| Shell.ParseRedirs | sh.c:374-397 | agrees with the grammar on success, on the redirections with their modes and on failure |
| Shell.DoParseExec | sh.c:415-446 | terminates and agrees with the grammar on every line |
| Shell.DoParseBlock | sh.c:399-413 | likewise for parenthesised commands |
| Shell.DoParsePipe | sh.c:361-372 | likewise for pipelines |
| Shell.DoParseLine | sh.c:344-359 | likewise for whole lines with & and ; |
| Shell.Nulterminate | sh.c:449-493 | a NUL is stored behind every word of the tree and nowhere else |
| Shell.ParseCmd | sh.c:327-342 | it succeeds exactly when the whole line parses; the C strings that the words of the tree now start are the words of the grammar's tree |
| Shell.ParsePrinted | sh.c:265-446 | however a command is written, with redirections anywhere among the arguments, '>' or '>>', parentheses at will and any blanks, parsing the line gives its meaning |
| ShellGrammar.LineBack | sh.c:344-446 | the same on tokens, followed by anything that may follow a line |
| ShellGrammar.ParsesExactly | sh.c:344-446 | a token sequence parses to a tree if and only if it is a way to write a command with that meaning |
| ShellGrammar.CanBeWritten | sh.c:344-446 | every tree with at most 9 arguments per command is the meaning of something that can be written, at every level of the grammar |
| Regex.Match | grep.c:72-82 | true exactly when some suffix of the text, or the whole text under ^, has a prefix in the language of the pattern |
| Regex.MatchHere | grep.c:84-96 | true exactly when a prefix of the text is in the language, ended by $ only at the end of the text |
| Regex.MatchStar | grep.c:98-106 | true exactly when some run of fitting characters is followed by a match of the rest |
| Regex.PlainExact | grep.c:72-106 | a pattern of ordinary characters matches exactly the texts that contain it, under ^ those that begin with it, with $ besides only itself |
| Regex.DotExact | grep.c:84-96 | a dot stands for any one character |
| Regex.StarExact | grep.c:98-106 | a starred character stands for any run of it, a starred dot for anything |

## Left out

- BufferCache.Cache.Get: the panic when no buffer is free is a precondition; `FreeBufferIff` says when commit meets it.
- Log.RedoLog.List: that the array in memory has a place left is a precondition; by `GroupCommit` only unreserved log writes can use it up.
- Log.RedoLog.LogWrite: has nothing between its tests and the rest; what can come between them is in `ListExact`.
- StorageMachine.RunInv: for runs in which every block is listed in time; `OrderlyRun` says which runs are such whatever the interleaving, and `OverrunOverwrites` and `LateReadLoses` what happens otherwise.
- FileSystem.Volume.constructor: starts from a formatted disk without files; mkfs's root directory and the programs it copies are not made.
- FileSystem.Volume.Readi: device files are not modelled.
- FileSystem.Volume.Writei: requires enough free blocks for the missing places of the range, and an operation, as its callers have begun one; the disk's inodes are records beside the blocks, not bytes in them; iupdate replaces the record and logs the inode's block.
- FileSystem.Volume.Ialloc: the scan for a free inode is in `LinkCounts.Tree.Ialloc`; the type of the inode is not modelled here.
- OpenFiles.OpenFile.FillHole: what lies on the kernel stack besides the buffer of zeros depends on the compiler, so that only the bound by the whole stack is stated; after an overrun the kernel need not get to what else is promised.
- OpenFiles.OpenFile.Write: the same buffer, and filewrite's effect of the raised size on pipes and extent files.
- Extents.ExtentFile.Write: requires a non-empty write, as filewrite makes them, and room in the block map, which after the twelfth write starts at a block number.
- Extents.ExtentFile.Read: the number of bytes asked for is taken to be a whole block, as the code ignores it, and the text of a full block ends at the block.
- LinkCounts.Tree.Create: path lookup, permissions and the device numbers are not modelled; devices, symbolic links and extent files are one kind without contents.
- Heap.Arena.Malloc: other users of sbrk only move the break upwards, below 2^32 bytes; the page tables behind the break are not part of this module.
- PageTables.Kernel.Mappages: page table entries are records, not packed words; a range that is already mapped panics and is excluded.
- PageTables.Kernel.Allocuvm: a page that could not be mapped goes back to the free list before the pages of the range, not after them; likewise an entry is cleared before its page is freed, so the order of the free list differs.
- PageTables.Kernel.Kfree: the junk that the program fills free pages with is not modelled.
- PageTables.Kernel.Copyuvm: requires the copied range to be present, where the program panics otherwise.
- PipeMachine.PipeStream: descriptor reference counts are not modelled; an end is closed only when no process is inside a call on it. Freeing the pipe's page is not modelled.
- ProcTree.ProcessTree: pids are unbounded integers, so the reuse of a pid after 2^31 forks is not modelled.
- Shell.ParseRedirs: command nodes are values, so it returns the redirections and its callers wrap them around the finished command.
- Shell.ParseCmd: a syntax error ends the shell there and is a result here; the commands are not executed.
- Spinlocks and the memory model: acquire and release are atomic steps.
- Crashes that tear a single block write, and device errors.
- Schedulers, timer ticks, process priorities and the time accounting.
- Lazy allocation in the trap handler, exec, and loading of programs.
- Opening symbolic links and their text, which lies over the block addresses of the inode.
- The inode cache with its reference counts and locks; system calls on directories follow one another.
- grep's line buffer, the console, and the user programs.
- Boot code, interrupt controllers and device drivers.
