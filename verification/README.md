# The UNIX 32V kernel: storage, tables and queues

These modules model the machine-independent part of the UNIX 32V kernel, as hosted
on a C runtime, and prove what its data structures and protocols are for. The
kernel changes its state in place, and so do the models: each table, list or
superblock is a class whose methods follow the branches of the C functions, proved
against a specification on values. A context switch is possible only where the C
code sleeps. A method call is what a process does up to its next sleep, and the
`Run` methods take any sequence of such calls, so that what they ensure holds over
all interleavings.

| module | what it models | main results |
|---|---|---|
| `BlockTree`, `Layout` | the four-shape block tree of a file, as functions | growth is correct and leaves other lookups alone; logical numbers and index paths correspond one to one; layout of hole-free files |
| `BlockLayer` | `alloc`, `free`, `itrunc`, `tloop`, `bmap` on a superblock, a disk and busy buffers | the chained free list is one stack; truncation frees every block once, in reverse preorder, though freeing overwrites blocks; at most two buffers are held |
| `FileSystem` | all files of a volume | every block has one owner; truncating and refilling a hole-free file gives back the same blocks |
| `FileIO` | `readi`, `writei` | which bytes are stored and read; the exact condition under which a write beyond the limit is lost |
| `FlatFiles` | any sequence of reads, writes, truncations and mappings on all files | each file is a flat byte array that reads as zero past its end |
| `Rings`, `BufferCache`, `BufferSteps` | `bio.c`: two intrusive circular lists, delayed writes, completion | lists stay well formed; the cache is transparent over any interleaving; who gets a buffer, and who sleeps on what |
| `Pipe`, `PipeSteps` | readers, writers, closers and the update over one inode | order, one piece, bounded size, nobody left asleep, every write accounted for |
| `InodeTable` | `iget`, `iput`, `plock`, `prele` | no inode twice, no lost wakeup |
| `Processes` | `exit`, `wait`, `fork`, the search for a process number | no orphan, each process that ended is collected once or a zombie, time conserved |
| `SwapSpace`, `SwapSteps` | swapping, shared texts, exec arguments | swap space is partitioned, text counts are right, when there is no space |
| `ResourceMap`, `PageFrames`, `CharLists`, `Callout` | the resource map, page frames, clists, callouts | each refines a set, a queue or an ordered list of deadlines |
| `Directory` | `namei` in one directory, `wdir`, `unlink` | a finite map |
| `Accounting` | `compress` | monotone, exact error bound |

`Sequences` holds what the modules share about sequences and bytes.

## Where the code differs from what one expects

- `writei` does not test the 0 that `bmap` returns with EFBIG. `FileIO.WriteWithSpace`
  says when what is counted as written is stored (with blocks enough, if and only if
  the request ends within the range), and `FileIO.WriteAtLimit` is one byte for which
  it is not.
- When a request goes beyond that range, and space lasts until there, the bytes of its
  first block out of range are copied into the buffer of block 0 of the device, which
  is then released unwritten (32v-unx/rdwri.c:122-129). From then on, as long as it
  stays in the cache, block 0 reads differently from the disk. The transparency of
  the cache is proved for callers that release changed buffers of blocks by a write;
  this is the one caller of those modelled here that does not.
- `mfree` has no test for a full map. A range that touches no free run, with no entry to
  spare, takes the place of the terminator (`ResourceMap.Map.Mfree`, and
  `ResourceMap.NoTerminator` for a map of any length). The swap map has 70 entries
  (32v-unx/h/param.h:23) for 8778 units (32v-unx/conf.c:79), so the units do not
  rule this out. What does is the number of owners: `SwapSpace.Swap.Run` shows that
  it takes 69 swapped processes, texts and execs together, of which the tables
  have room for more (32v-unx/h/param.h).
- The test of `timeout` for a full table looks at the place of the new entry only
  (32v-unx/clock.c:167-168). `Callout.Table.Timeout` says exactly when the table is
  overrun: one entry is free and some pending deadline is later than the new one.
  `Callout.GuardMisses` builds such a table for every size.
- `BASEPRI` (32v-unx/h/param.h:153) is true when the priority is not the base one;
  `clock` returns early on it, as its comment at 32v-unx/clock.c:61-65 intends. The
  parameter `high` of `Callout.Table.Clock` is its value.
- The first scan of `memall` starts with a stop position outside the range of
  frames. It still ends, for any size of memory: with fewer frames than places on the
  stack it goes round and leaves repeated entries at the bottom, which are never
  taken before they are overwritten (`PageFrames.Memory.FirstScan`).
- `putw` asks for a free block even when both bytes would fit in the last block of
  the queue (`CharLists.Pool.Putw`).

## Model

| member | source | states |
|---|---|---|
| `BlockTree.LocateThenLogical` | 32v-unx/subr.c:42-103 | below 10+128+128^2+128^3, a logical block number is recovered from its inode slot and index path |
| `BlockTree.LogicalThenLocate` | 32v-unx/subr.c:42-103 | every slot with a path of the right length is the place of exactly one logical block in range: with the row above, a bijection |
| `BlockTree.ShiftedDigit` | 32v-unx/subr.c:95-104 | the shift and mask of the loop pick the digit, base 128, of the offset within the subtree, and the offset below it |
| `BlockTree.GrowCorrect` | 32v-unx/subr.c:82-116 | write-mode growth of an indirect tree: a block already mapped changes nothing; else the new one is a cleared block off the free stack; every other lookup is as before; the tree gains exactly the blocks that the stack loses, popped in order; failure leaves a hole and an empty stack |
| `BlockTree.FileGrowCorrect` | 32v-unx/subr.c:42-116 | the same for the four shapes of a whole inode, direct and indirect slots |
| `BlockTree.GrowTakes` | 32v-unx/subr.c:92-116 | growth takes at most one block for each level, and fails only with fewer than that left |
| `BlockTree.FileGrowTakes` | 32v-unx/subr.c:42-116 | for a file, at most four |
| `BlockLayer.Volume.Alloc` | 32v-unx/alloc.c:30-76 | the chained free list behaves as one stack: the last block freed comes back, cleared, in a busy buffer; it fails exactly when the stack is empty, and never loses a block when it reads the next page of the chain |
| `BlockLayer.Volume.LoadPage` | 32v-unx/alloc.c:52-65 | the page kept in a free block becomes the free array of the superblock; one buffer held besides the caller's |
| `BlockLayer.Volume.Spill` | 32v-unx/alloc.c:100-111 | a full free array is written into the block being freed, and the chain still represents the same stack |
| `BlockLayer.Volume.Free` | 32v-unx/alloc.c:82-114 | pushes a block of the data area on the stack, refuses any other number, and overwrites no block but the one freed |
| `BlockLayer.Volume.Tloop` | 32v-unx/iget.c:244-277 | freeing a tree pushes its blocks, each once, in reverse preorder, although a freed block may be overwritten by a page of the chain meanwhile; nothing outside the tree is written; at most two buffers are held beyond the caller's, through all levels of the recursion |
| `BlockLayer.Volume.FreeSlot` | 32v-unx/iget.c:222-239 | the case split over direct, single, double and triple indirect slots frees exactly the tree of that slot |
| `BlockLayer.Volume.FreeAddresses` | 32v-unx/iget.c:217-240 | clears all slots from the last to the first and frees the whole file in reverse preorder |
| `BlockLayer.Volume.Itrunc` | 32v-unx/iget.c:206-243 | a regular file or directory ends with no blocks, size 0, and its blocks on the free stack in reverse preorder; anything else is untouched |
| `BlockLayer.Volume.Entry` | 32v-unx/subr.c:96-115 | one level down an indirect block: an entry present, or a hole when reading or out of space, changes nothing; else exactly one cleared block is attached there |
| `BlockLayer.Volume.Slot` | 32v-unx/subr.c:45-52 | the address in a slot of the inode, filled in the same way; the change flags are set with it |
| `BlockLayer.Volume.Levels` | 32v-unx/subr.c:58-77 | the number of levels of indirection and the offset below them; zero exactly beyond the largest file |
| `BlockLayer.Volume.Through` | 32v-unx/subr.c:92-116 | the loop down the indirect blocks ends with the disk, the free stack and the block that the growth function gives |
| `BlockLayer.Volume.Indirectly` | 32v-unx/subr.c:79-123 | the path through the last three slots: reading changes nothing, and writing is the growth function; the inode is marked as changed if and only if it was before or its addresses have changed |
| `BlockLayer.Volume.Bmap` | 32v-unx/subr.c:21-124 | the whole of bmap: the mapped block, -1 for a hole or no space, 0 with EFBIG out of range; in write mode the result of the growth function; the inode is marked as changed if and only if it was before or an address in it has changed; no more than two buffers held beyond the caller's, none of them taken twice, and none left |
| `Layout.FilledCount` | 32v-unx/subr.c:82-116 | how many blocks, data and indirect, a hole-free tree of n data blocks has |
| `Layout.Extend` | 32v-unx/subr.c:82-116 | adding the next data block to a hole-free tree appends the blocks taken, in order, to its preorder; it fails only if there are fewer blocks than the larger tree needs |
| `Layout.ExtendFile` | 32v-unx/subr.c:42-116 | the same for a hole-free file |
| `Layout.Unique` | 32v-unx/iget.c:245-277 | a hole-free tree is determined, block for block, by its preorder and the number of data blocks |
| `Layout.FileUnique` | 32v-unx/iget.c:207-243 | so is a hole-free file, every slot and every indirect block |
| `FileSystem.GrowKeepsPartition` | 32v-unx/subr.c:42-116 | growing one file keeps every data-area block once in the free stack or at one place of one file, and leaves all other files whole |
| `FileSystem.TruncateKeepsPartition` | 32v-unx/iget.c:207-243 | so does truncating a file, whatever the pages of the chain put into its freed blocks |
| `FileSystem.Mount.MapBlock` | 32v-unx/subr.c:21-124 | bmap on one file of a mounted volume keeps the partition and every other file, and marks the file if its addresses change |
| `FileSystem.Mount.WriteBack` | 32v-unx/bio.c:158-170 | writing back a busy buffer keeps the partition, provided that the block is not free and the new contents keep it |
| `FileSystem.Mount.Truncate` | 32v-unx/iget.c:206-243 | itrunc on one file of a mounted volume keeps the partition and every other file; the freed blocks are on the stack in reverse preorder |
| `FileSystem.Mount.TruncateAndRefill` | 32v-unx/iget.c:206-277 | a hole-free file is truncated, which puts its blocks on the free stack in reverse preorder, and then filled again through bmap, with no other allocation: bmap returns for each logical block the block that it had, so that every data and indirect block is where it was, and the free stack is the same |
| `FileIO.LookupInjective` | 32v-unx/subr.c:92-116 | in a tree without repetitions two logical blocks share no physical block |
| `FileIO.FileLookupInjective` | 32v-unx/subr.c:42-116 | nor do they in a file |
| `FileIO.WriteChunk` | 32v-unx/rdwri.c:122-130 | part of one mapped block is replaced: these bytes of the file change, and no other byte of any file |
| `FileIO.WriteTurn` | 32v-unx/rdwri.c:112-134 | one turn of the loop stores its chunk, or nothing when space is out or the block is beyond the limit; space is out exactly if the logical block has no block afterwards, which one mapped before never is; no other logical block is mapped; the file is marked if its addresses change |
| `FileIO.Writei` | 32v-unx/rdwri.c:88-136 | exactly a prefix of the request replaces the bytes at the offset and the rest of the file and every other file are kept; all of it unless space is out or the limit is reached; out of space the count moved is the count stored, the next byte had no block and has none, and there were fewer blocks than four for each logical block touched; only logical blocks of the request are mapped; the size becomes the maximum of the old size and the end of what was moved, and the inode is marked |
| `FileIO.WriteWithSpace` | 32v-unx/rdwri.c:112-135 | a request that ends within the range of bmap is stored as far as it is counted; with blocks enough before the call, or an offset beyond the range, what is counted is stored if and only if the request ends within the range: the 0 returned with EFBIG is not tested |
| `FileIO.Rewrite` | 32v-unx/rdwri.c:112-135 | bytes that all have blocks are moved whole, on a full volume as well |
| `FileIO.WriteAtLimit` | 32v-unx/rdwri.c:112-135 | one byte written at the limit is counted and included in the size, and no byte of the file changes |
| `FileIO.ReadTurn` | 32v-unx/rdwri.c:47-75 | one turn of the loop delivers the bytes of its block, zeros for a hole |
| `FileIO.Readi` | 32v-unx/rdwri.c:23-76 | delivers exactly the range clipped to the size, holes as zeros, and changes neither the disk nor the file; when the error is EINVAL or EFBIG |
| `FlatFiles.StoredIsWritten` | 32v-unx/rdwri.c:88-136 | what writei stores is the overwriting of a flat byte array that grows with zeros, cut at the limit; bytes past the size stay zero |
| `FlatFiles.ReadIsSlice` | 32v-unx/rdwri.c:52-57 | the bytes that readi delivers are a slice of the array |
| `FlatFiles.WriteFlat` | 32v-unx/rdwri.c:88-136 | the file becomes its array overwritten by the bytes moved, with everything past the end still zero; how far a write gets with each error; without space the next byte had no block and has none; all other files read as before |
| `FlatFiles.ReadFlat` | 32v-unx/rdwri.c:23-76 | returns the slice of the array asked for, and every file reads as before |
| `FlatFiles.TruncateFlat` | 32v-unx/iget.c:206-243 | the file is the empty array, and reads as zero past its end; all other files read as before |
| `FlatFiles.MapFlat` | 32v-unx/subr.c:21-124 | bmap, writing or not, changes what no file reads, and maps what the growth function says |
| `FlatFiles.Step` | 32v-unx/rdwri.c:23-136 | one operation on any file does that to its array, and takes blocks for what it touches at most; where blocks go is what bmap, writei and itrunc say |
| `FlatFiles.Run` | 32v-unx/rdwri.c:23-136 | any sequence of writes, reads, truncations and mappings on the files of a volume, followed step by step: each file ends as the array that the operations make, each read got what its array then held, a write is short only at a block that was not mapped with none free, every data-area block has one owner, and with blocks enough at the start no write runs out of space |
| `Rings.RingRemove` | 32v-unx/bio.c:368-369 | unlinking takes one element out of a circular doubly linked list and keeps the order of the others |
| `Rings.RingFront` | 32v-unx/bio.c:299-302 | linking in behind the header puts an element first |
| `Rings.RingBack` | 32v-unx/bio.c:208-212 | linking in before the header puts an element last |
| `BufferCache.Cache.constructor` | 32v-unx/main.c:165-193 | both lists are well formed at the start, every buffer available and on the list of no device |
| `BufferCache.Cache.Notavail` | 32v-unx/bio.c:362-372 | takes a buffer off the available list, and nothing else moves |
| `BufferCache.Cache.LinkAvail` | 32v-unx/bio.c:201-213 | the links of a buffer put first, if aged, or last |
| `BufferCache.Cache.Brelse` | 32v-unx/bio.c:186-216 | the buffer is available again, first or last, with its flags cleared; exactly the sleepers on it, and on the free list if they were announced, are awakened |
| `BufferCache.Cache.Modify` | 32v-unx/rdwri.c:126 | the holder changes the contents in core; the logical contents of the block do not change until one of the writes, and a buffer of no block may be released without |
| `BufferCache.Cache.Bwrite` | 32v-unx/bio.c:129-148 | makes the held contents the logical contents of the block, starts the transfer, and lets the holder sleep unless it is asynchronous |
| `BufferCache.Cache.Bdwrite` | 32v-unx/bio.c:158-170 | makes the held contents the logical contents without a transfer, or with one for a tape, and gives the buffer up |
| `BufferCache.Cache.Bawrite` | 32v-unx/bio.c:175-181 | the same with an asynchronous transfer |
| `BufferCache.Cache.Iodone` | 32v-unx/bio.c:378-389 | afterwards the buffer has the logical contents of its block, whichever way the transfer went, it is available again if nobody holds it, and exactly the sleepers on it are awake |
| `BufferCache.Cache.Arrive` | 32v-unx/bio.c:378-389 | the same before an asynchronous buffer is released |
| `BufferCache.Cache.Search` | 32v-unx/bio.c:260-262 | the only buffer of a block, or none, by the device list |
| `BufferCache.Cache.Incore` | 32v-unx/bio.c:222-234 | says whether some buffer has the block |
| `BufferCache.Cache.Relabel` | 32v-unx/bio.c:296-304 | a held clean buffer goes to the list of another device, and that block still has one buffer at most |
| `BufferCache.Cache.Splice` | 32v-unx/bio.c:297-302 | the six assignments move a buffer from its place in one list to the front of another |
| `BufferCache.Cache.TakeOldest` | 32v-unx/bio.c:290-295 | takes exactly the first available buffer, or, if its write was delayed, starts that and takes none; nothing else changes |
| `BufferCache.Cache.AwaitBuffer` | 32v-unx/bio.c:264-267 | B_WANTED is set for whoever sleeps on a busy buffer |
| `BufferCache.Cache.AwaitFree` | 32v-unx/bio.c:284-287 | the same for the free list, which is then empty |
| `BufferCache.Cache.TakeFound` | 32v-unx/bio.c:260-282 | the buffer that has the block is taken if it is idle, and slept on if it is busy |
| `BufferCache.Cache.Getblk` | 32v-unx/bio.c:242-306 | ends with the only buffer of the block, busy for this process and held by nobody else, or with the process asleep; which, and on what, and what has become of every other buffer, is the step that GetCases describes; logical contents and other holders are kept, also when delayed writes are started; a buffer that is done has the logical contents |
| `BufferCache.Cache.Geteblk` | 32v-unx/bio.c:313-341 | the same for a buffer of no block: the oldest without a delayed write, or sleep if there is none |
| `BufferCache.Cache.StartRead` | 32v-unx/bio.c:73-76 | a buffer that is not done is being read; its holder goes on, or has given it up |
| `BufferCache.Cache.Iowait` | 32v-unx/bio.c:347-356 | the holder sleeps exactly if its transfer is not over, on that transfer |
| `BufferCache.Cache.Start` | 32v-unx/bio.c:96-105 | the buffer of the block is held, and being read or holds the last contents written to the block; or the process sleeps as in getblk |
| `BufferCache.Cache.Bread` | 32v-unx/bio.c:60-81 | a buffer handed over has the last contents written to the block, or is being read while its holder sleeps |
| `BufferCache.Cache.ReadAhead` | 32v-unx/bio.c:106-118 | read-ahead does nothing for a block in some buffer; another one it puts in a buffer without a holder, or sleeps as in getblk; contents and other holders are kept |
| `BufferCache.Cache.AheadBlock` | 32v-unx/bio.c:107-117 | the same after a sleep, when the block was in no buffer before |
| `BufferCache.Cache.BreadaFrom` | 32v-unx/bio.c:106-123 | the same from the read-ahead on, with the buffer of the block held, or with none |
| `BufferCache.Cache.Breada` | 32v-unx/bio.c:88-123 | up to its first sleep: it may sleep for the other buffer with its own transfer in flight; a buffer handed over has the last contents written, or its holder sleeps on the transfer; the whole state is that of the step that BreadaReadsAhead is about |
| `BufferCache.Cache.Bflush` | 32v-unx/bio.c:476-492 | ends, with no delayed write of the device left on the available list, those writes started and no other buffer changed, no contents changed and nobody asleep for it |
| `BufferCache.Cache.StartDelayed` | 32v-unx/bio.c:484-487 | one turn of that loop: the available list gets shorter, and contents are kept |
| `BufferCache.Cache.Step` | 32v-unx/bio.c:60-492 | whatever a process or a device does next, the lists stay well formed and the cache becomes what the step of that event says; the logical contents change by what a holder gives to a write, if anything; held buffers change only by their holders and by the end of their own transfers |
| `BufferCache.Cache.Ask` | 32v-unx/bio.c:60-306 | the same for the steps of a process that asks for a block |
| `BufferCache.Cache.Act` | 32v-unx/bio.c:129-216 | the same for the steps about one buffer: iowait, a change, a release, a write, the end of a transfer |
| `BufferCache.Cache.Put` | 32v-unx/bio.c:129-181 | the same for the three writes |
| `BufferCache.Cache.End` | 32v-unx/bio.c:186-216 | the same for a release and for the end of a transfer |
| `BufferCache.Cache.Run` | 32v-unx/bio.c:60-492 | over any interleaving, followed state by state, each state the one that the event makes of the one before: what has been written is what the write events gave, in order; each done buffer that its holder has not modified, and the disk for a block in no buffer, has what was last written to the block |
| `BufferCache.Readable` | 32v-unx/bio.c:66-72 | an idle done buffer holds the logical contents of its block |
| `BufferSteps.GetCases` | 32v-unx/bio.c:260-306 | a process that asks for a block sleeps in two cases only: on the buffer of the block exactly if that is busy, and on the free list exactly if no buffer has the block and each available one has a delayed write; else it gets the buffer of the block, or the oldest available one without a delayed write |
| `BufferSteps.DrainedIs` | 32v-unx/bio.c:284-295 | on the way exactly the delayed writes in front of the available list are started, and the other buffers stay available in their order |
| `BufferSteps.BreadaReadsAhead` | 32v-unx/bio.c:106-123 | unless breada sleeps before it, a block to be read ahead that was in no buffer is in one afterwards, with a transfer in flight |
| `BufferSteps.SweptIs` | 32v-unx/bio.c:476-492 | a flush starts the delayed writes of the device on the available list, and touches no other buffer |
| `Pipe.PipeInode.constructor` | 32v-unx/pipe.c:29-63 | an empty pipe with two open ends satisfies what every step keeps |
| `Pipe.PipeInode.Enter` | 32v-unx/pipe.c:68-132 | a process enters a read, a write or the last close of an end |
| `Pipe.PipeInode.Queue` | 32v-unx/pipe.c:200-203 | a locked inode: IWANT is set and the process sleeps; nothing else changes |
| `Pipe.PipeInode.ReadTurn` | 32v-unx/pipe.c:80-103 | returns nothing exactly if the pipe is empty and cannot be written, sleeps if it is empty, else goes on to read with the lock |
| `Pipe.PipeInode.Take` | 32v-unx/pipe.c:102-104 | delivers the next bytes of the stream and advances the offset |
| `Pipe.PipeInode.ReadEnd` | 32v-unx/pipe.c:102-117 | a read ends with the bytes between offset and size, as many as asked for, appended to what was delivered |
| `Pipe.PipeInode.WriteTurn` | 32v-unx/pipe.c:138-181 | done when nothing is left; broken when nobody can read; asleep in a full pipe; else about to write the next PIPSIZ bytes or what is left |
| `Pipe.PipeInode.Deposit` | 32v-unx/pipe.c:182 | the next bytes of the chunk are appended, while the inode stays locked |
| `Pipe.PipeInode.WriteOn` | 32v-unx/pipe.c:182-188 | some more bytes of the chunk, and what follows when it is written |
| `Pipe.PipeInode.WriteEnd` | 32v-unx/pipe.c:182-188 | a chunk is in the stream as one piece, and the write goes on with the rest |
| `Pipe.PipeInode.CloseTurn` | 32v-unx/fio.c:69-76 | after the last close of an end nobody waits for data or for room |
| `Pipe.PipeInode.UpdateStart` | 32v-unx/alloc.c:316-319 | the update of all inodes takes a pipe that is in use and unlocked |
| `Pipe.PipeInode.UpdateEnd` | 32v-unx/alloc.c:320-321 | and lets it go, waking whoever waits for the lock |
| `Pipe.PipeInode.Interrupt` | 32v-unx/slp.c:41-56 | a signal ends a sleep in a pipe and with it the call; what every step keeps still holds |
| `Pipe.PipeInode.Turn` | 32v-unx/pipe.c:75-169 | a call from its top, with the inode free: a write is done if and only if nothing is left, broken if and only if something is left and the read end is closed, asleep in a full pipe, else about to write; a read returns nothing if and only if the pipe is empty and the write end closed, sleeps in an empty one, else starts to read; a close is done; and a process is out of its call exactly if it has an outcome |
| `Pipe.PipeInode.Go` | 32v-unx/pipe.c:68-189 | one step of a process: its outcome and the whole state after it; what a read returned, that a completed write is all in the stream, and that a broken one had no reader; a process leaves exactly with an outcome, or at the end of an update |
| `Pipe.PipeInode.Step` | 32v-unx/pipe.c:68-223 | any event keeps the invariant, makes of the pipe what its branch says, only extends what was delivered and written, and ends a write that is not interrupted only with all its bytes written or the read end closed |
| `Pipe.PipeInode.Run` | 32v-unx/pipe.c:68-223 | over any interleaving, state by state what the events say: the bytes delivered are a prefix of the bytes accepted, in order; and a write that is over has all its bytes in the stream, or the read end is closed, or a signal ended it while it slept for room |
| `Pipe.StepAccounted` | 32v-unx/pipe.c:138-188 | a write goes on, or has put all its bytes in the pipe, or cannot be read: each step keeps that, but for a signal to a writer asleep for room |
| `Pipe.PipeInode.InOrder` | 32v-unx/pipe.c:102-116 | with no write in progress the pipe holds exactly the bytes accepted and not delivered; the size stays below twice PIPSIZ |
| `Pipe.PipeInode.InOnePiece` | 32v-unx/pipe.c:171-182 | a write of at most PIPSIZ bytes is in the stream contiguously and once |
| `Pipe.PipeInode.NotBothAsleep` | 32v-unx/pipe.c:84-95 | no reader sleeps for data while a writer sleeps for room |
| `Pipe.PipeInode.Quiet` | 32v-unx/pipe.c:164-187 | when nothing can run, nobody waits for the lock, readers wait with IREAD in an empty pipe that is open for writing, and writers with IWRITE in a full one open for reading: no wakeup was lost |
| `ResourceMap.OneRun` | 32v-unx/malloc.c:27-28 | free space that hangs together is inside one entry, so that looking at single entries misses nothing |
| `ResourceMap.Canonical` | 32v-unx/malloc.c:49-83 | the entries are determined by the set of free units |
| `ResourceMap.FewRuns` | 32v-unx/malloc.c:58-82 | entries kept apart are at most half as many as the units, rounded up |
| `ResourceMap.Map.constructor` | 32v-unx/h/map.h:14 | an empty map: all terminator |
| `ResourceMap.Map.CloseUp` | 32v-unx/malloc.c:32-35 | moves the rest of the array, terminator included, down over one entry |
| `ResourceMap.Map.OpenUp` | 32v-unx/malloc.c:73-80 | the exchange loop puts an entry in its place and moves the rest up |
| `ResourceMap.Map.TakeFrom` | 32v-unx/malloc.c:29-36 | units taken off the front of an entry, which goes if nothing is left |
| `ResourceMap.Map.Malloc` | 32v-unx/malloc.c:21-41 | takes exactly the lowest run of size free units, or returns 0 and changes nothing exactly when there is none; sorted, separated and zero-terminated after |
| `ResourceMap.Map.JoinLeft` | 32v-unx/malloc.c:58-67 | joins the range to the entry before it, and that one to the next if the gap is filled |
| `ResourceMap.Map.JoinRight` | 32v-unx/malloc.c:69-81 | joins the range to the entry after it, or inserts an entry, maybe in the place of the terminator |
| `ResourceMap.Map.Mfree` | 32v-unx/malloc.c:49-83 | adds exactly its range to the free set, merging both neighbours; the terminator is lost exactly when no entry is to spare and the range touches no run |
| `ResourceMap.Map.TakeAndPut` | 32v-unx/malloc.c:21-83 | malloc takes the lowest run that fits, and mfree of what it took restores the array |
| `ResourceMap.Map.Churn` | 32v-unx/malloc.c:21-83 | no sequence of calls, each of which takes or gives back what it says, loses the terminator of an array with more entries than half as many units, rounded up |
| `ResourceMap.Map.ChurnOne` | 32v-unx/malloc.c:21-83 | one of these calls takes the lowest run that fits, or gives back exactly its range |
| `ResourceMap.NoTerminator` | 32v-unx/malloc.c:73-80 | that is the best bound: an array of any length over twice as many units less one loses it |
| `ResourceMap.BdpMap` | 32v-unx/uba.c:107-111 | so the 15 entries of bdpmap are enough: at most 8 are ever used |
| `Callout.PlaceIs` | 32v-unx/clock.c:163-166 | the place of a deadline divides those not later from those later |
| `Callout.InsertOrdered` | 32v-unx/clock.c:170-181 | entering a deadline at its place keeps the order |
| `Callout.InsertHolds` | 32v-unx/clock.c:169-181 | the two adjusted deltas keep the time left of every other entry |
| `Callout.StopsAt` | 32v-unx/clock.c:163-166 | the scan by deltas stops at the place of the deadline, behind all equal ones |
| `Callout.TickHolds` | 32v-unx/clock.c:56-59 | one decrement brings every entry that is not due one tick nearer, and keeps those that are due due |
| `Callout.DropHolds` | 32v-unx/clock.c:77-83 | moving the rest down over the due entries keeps the time left of the rest |
| `Callout.Table.constructor` | 32v-unx/h/callo.h:17 | an empty table |
| `Callout.Table.FindPlace` | 32v-unx/clock.c:160-166 | finds the place and the remainder of the delay there, less than the delta that follows |
| `Callout.Table.End` | 32v-unx/clock.c:170-172 | finds the end of the table |
| `Callout.Table.OpenUp` | 32v-unx/clock.c:173-178 | moves the entries from the place on up by one |
| `Callout.Table.Timeout` | 32v-unx/clock.c:152-183 | the entry is inserted at its due time behind all that are due no later, and no other moves; exactly when there is room, and exactly when it overruns the table unnoticed |
| `Callout.GuardMisses` | 32v-unx/clock.c:167-168 | the test looks at the place only: for every size, a table full but for one entry with all deadlines at 5, which a call due at 3 overruns |
| `Callout.Table.Call` | 32v-unx/clock.c:74 | a called function enters the calls it wants, by timeout |
| `Callout.Table.Fire` | 32v-unx/clock.c:71-76 | everything due is called, in the order of the deadlines, ties in the order of entry, and each call is recorded where it is made; what is entered meanwhile with a positive delay stays; exactly when the table has room for that |
| `Callout.Table.Compact` | 32v-unx/clock.c:77-83 | the rest of the table moves down over what was called |
| `Callout.Table.Tick` | 32v-unx/clock.c:56-59 | one tick for the whole table |
| `Callout.Table.Clock` | 32v-unx/clock.c:54-84 | a clock interrupt: one tick, then, at base priority, exactly the due entries are called and go |
| `Callout.Table.Drop` | 32v-unx/clock.c:77-83 | only the entries called leave |
| `Callout.EnteringKept` | 32v-unx/clock.c:152-183 | an entry with a positive delay keeps the account: all that was entered has been called once or is pending, and everything pending is due after the last base tick |
| `Callout.TickedKept` | 32v-unx/clock.c:54-84 | so does a tick: no call is early, each comes at the first base tick not before its deadline, in order |
| `Callout.Table.Run` | 32v-unx/clock.c:54-183 | over any run with positive delays, the calls made, the base ticks and the entries are those that the events say: no call is early, each comes at the first base-priority tick not before its deadline, in order, and everything entered was called once or is pending; the run goes through exactly if the table has room at every event |
| `PageFrames.Memory.constructor` | 32v-unx/malloc.c:162-168 | what meminit sets up over a clear bitmap |
| `PageFrames.Memory.Scan` | 32v-unx/malloc.c:107-122 | the circular scan ends and puts different free frames on the stack, at least one; all of them, unless the stack is full |
| `PageFrames.Memory.FirstScan` | 32v-unx/malloc.c:107-122 | the first scan, whose stop position is outside the range, ends with a full stack whatever the size of memory; with fewer frames than places the top of the stack is what counts |
| `PageFrames.Memory.Refill` | 32v-unx/malloc.c:107-122 | a free frame is on the stack: "lost mem" cannot happen |
| `PageFrames.Memory.Pop` | 32v-unx/malloc.c:123-130 | the frame taken is free: "dup alloc" cannot happen; its bit is set and freemem is one less |
| `PageFrames.Memory.Memall` | 32v-unx/malloc.c:97-133 | all of the frames asked for, different and free before, or none; no other bit changes; freemem stays the number of clear bits |
| `PageFrames.Memory.Release` | 32v-unx/malloc.c:145-155 | frees one frame; panics exactly if it is out of range or free |
| `PageFrames.Memory.Memfree` | 32v-unx/malloc.c:139-157 | frees all the frames; panics exactly if one is out of range, free, or there twice |
| `CharLists.GrowPool` | 32v-unx/prim.c:112-123 | the first free block goes behind a queue, and every block is still in one list once |
| `CharLists.ShrinkPool` | 32v-unx/prim.c:36-41 | the first block of a queue goes to the free list, and every block is still in one list once |
| `CharLists.GetText` | 32v-unx/prim.c:34-48 | the character under c_cf is the first of the queue, and the rest follows, over block boundaries |
| `CharLists.PutText` | 32v-unx/prim.c:126-128 | a character put at c_cl is the last of the queue |
| `CharLists.PutNewText` | 32v-unx/prim.c:107-128 | so is one put in a new block |
| `CharLists.Pool.constructor` | 32v-unx/prim.c:186-197 | all blocks free, all queues empty |
| `CharLists.Pool.Getc` | 32v-unx/prim.c:22-52 | the first character of the queue, or -1 if it is empty; other queues are untouched |
| `CharLists.Pool.TakeFirst` | 32v-unx/prim.c:34-48 | takes the first character, releasing a block that has been read through |
| `CharLists.Pool.Clear` | 32v-unx/prim.c:29-32 | an empty queue has no first and no last character |
| `CharLists.Pool.FreeBlock` | 32v-unx/prim.c:40-41 | the block goes to the front of the free list |
| `CharLists.Pool.QToB` | 32v-unx/prim.c:58-97 | exactly the first cc characters, or all there are, and the count of them |
| `CharLists.Pool.TakeBlock` | 32v-unx/prim.c:112-113 | the first free block, linked behind the last one of the queue |
| `CharLists.Pool.Putc` | 32v-unx/prim.c:99-131 | appends one character; fails exactly when the queue ends at a block boundary and no block is free |
| `CharLists.Pool.PutBehind` | 32v-unx/prim.c:126-130 | appends within the last block |
| `CharLists.Pool.PutInNew` | 32v-unx/prim.c:107-130 | appends in a new block |
| `CharLists.Pool.NextByte` | 32v-unx/prim.c:162-174 | one turn of the loop of b_to_q appends a character exactly if there is room |
| `CharLists.Pool.BToQ` | 32v-unx/prim.c:139-180 | appends characters up to the first that does not fit and returns the exact number left |
| `CharLists.Pool.PutEach` | 32v-unx/prim.c:99-131 | repeated putc up to its first failure does the same, count and contents |
| `CharLists.Pool.Unlink` | 32v-unx/prim.c:116-120 | a failed append leaves the queue as it was |
| `CharLists.Pool.Putw` | 32v-unx/prim.c:220-234 | appends both bytes or neither; refuses exactly when no block is free |
| `CharLists.Pool.Getw` | 32v-unx/prim.c:209-218 | takes two characters as a word, or neither |
| `CharLists.Pool.WordThrough` | 32v-unx/prim.c:209-234 | putw leaves the two bytes of the word in the queue, and getw undoes it, modulo 2^16 |
| `CharLists.Pool.Through` | 32v-unx/prim.c:58-180 | first in, first out, up to the room there is |
| `InodeTable.StepOk` | 32v-unx/iget.c:43-92 | a step that follows the rules for counts, lock and wakeups keeps the table consistent |
| `InodeTable.Bystander` | 32v-unx/iget.c:43-92 | no other user of the inode notices, except by being awakened |
| `InodeTable.Table.constructor` | 32v-unx/iget.c:43-67 | an empty table |
| `InodeTable.Table.Enter` | 32v-unx/iget.c:33-43 | someone wants an inode |
| `InodeTable.Table.Search` | 32v-unx/iget.c:44-67 | the slot of the inode, or else the first slot with no users |
| `InodeTable.Table.Iget` | 32v-unx/iget.c:43-81 | up to its next sleep: shares the slot if the inode is there and unlocked, sleeps on it if it is locked, and otherwise takes the first slot at count zero to read the inode into; fails exactly when the inode is not there and every slot is in use; nothing else changes |
| `InodeTable.Table.Sleep` | 32v-unx/iget.c:47-50 | IWANT is set before the sleep |
| `InodeTable.Table.Share` | 32v-unx/iget.c:61-63 | one more user, with the lock |
| `InodeTable.Table.Fill` | 32v-unx/iget.c:74-79 | the first user takes the slot, with the lock, before it sleeps for the transfer |
| `InodeTable.Table.Filled` | 32v-unx/iget.c:88-92 | the inode is handed over locked |
| `InodeTable.Table.Prele` | 32v-unx/pipe.c:214-223 | unlocks and wakes exactly the sleepers on the slot |
| `InodeTable.Table.Plock` | 32v-unx/pipe.c:196-205 | takes the lock or sleeps on it |
| `InodeTable.Table.Iput` | 32v-unx/iget.c:125-144 | exactly the last user goes on to write the inode out, under the lock; any other unlocks, wakes the sleepers and is gone |
| `InodeTable.Table.IputDone` | 32v-unx/iget.c:138-143 | the slot is free at count zero, and whoever slept on it searches again |
| `InodeTable.Table.Drop` | 32v-unx/text.c:147-148 | a reference given up while another user has the lock |
| `InodeTable.Table.Duplicate` | 32v-unx/text.c:218 | a second reference by the holder of the lock |
| `InodeTable.Table.Update` | 32v-unx/alloc.c:316-322 | the update takes a slot that is in use and unlocked |
| `InodeTable.Table.Step` | 32v-unx/iget.c:43-144 | any event keeps the table consistent and makes of it what its branch says |
| `InodeTable.Table.Run` | 32v-unx/iget.c:43-144 | over any interleaving, state by state what the events say: no inode is in two slots; whoever sleeps on a lock, ILOCK and IWANT are both set; whoever has a reference finds its inode in the slot |
| `InodeTable.Table.SomeoneRuns` | 32v-unx/iget.c:47-50 | whoever sleeps on a lock, a user that is not asleep has it |
| `Processes.ExitOk` | 32v-unx/sys1.c:381-398 | exit keeps the table consistent, makes one zombie, and conserves user and system time |
| `Processes.ExitWaits` | 32v-unx/sys1.c:385-397 | nobody is left asleep in wait with a zombie child: init and the parent are awakened |
| `Processes.ReapOk` | 32v-unx/sys1.c:418-431 | collecting a zombie conserves the times, and the zombie is gone |
| `Processes.ForkOk` | 32v-unx/slp.c:528-545 | a new process with an unused number has a live parent, and the times are conserved |
| `Processes.NotAllUsed` | 32v-unx/slp.c:513-524 | with fewer processes than half the numbers, some number is neither a pid nor a pgrp |
| `Processes.Table.constructor` | 32v-unx/main.c:55-84 | process 0 and init |
| `Processes.Table.FindNumber` | 32v-unx/slp.c:513-526 | the search ends, with a number in 1..29999 that is no pid and no pgrp in the table, and the first free slot |
| `Processes.Table.Scan` | 32v-unx/slp.c:519-524 | one look through the table: whether the number is taken, and the first free slot |
| `Processes.Table.Exit` | 32v-unx/sys1.c:381-398 | the whole table after exit: a zombie with its times added up, children given to init and stopped ones set running, init and the parent awakened if they wait |
| `Processes.Table.GiveAway` | 32v-unx/sys1.c:385-391 | the first loop of exit |
| `Processes.Table.WakeParent` | 32v-unx/sys1.c:392-397 | the second loop of exit |
| `Processes.Table.Wait` | 32v-unx/sys1.c:408-448 | the first child there is news of is collected, if a zombie, or reported once, if stopped; sleeps exactly if there are children and no news; fails exactly if there are none; the times are conserved, and only a collection is recorded as one |
| `Processes.Table.Collect` | 32v-unx/sys1.c:419-431 | the zombie's slot is free and its times are in those of the parent |
| `Processes.Table.Report` | 32v-unx/sys1.c:433-438 | only the mark on the stopped child changes |
| `Processes.Table.FallAsleep` | 32v-unx/sys1.c:443-446 | asleep with a child, and none to report |
| `Processes.Table.Survey` | 32v-unx/sys1.c:467-476 | the first free slot, and the number of processes of the user |
| `Processes.Table.Fork` | 32v-unx/sys1.c:453-503 | exactly when fork succeeds, for the super-user and for others, and the table after it |
| `Processes.Table.Newproc` | 32v-unx/slp.c:500-545 | the child is a copy with a new number, in a slot that was free |
| `Processes.Table.Stop` | 32v-unx/sig.c:109-126 | a process stops and its parent is awakened, exactly if the parent is not init |
| `Processes.Table.Resume` | 32v-unx/sig.c:297-298 | a stopped process runs again and may be reported again |
| `Processes.Table.Signal` | 32v-unx/slp.c:41-56 | a signal ends a sleep in wait |
| `Processes.Table.Spend` | 32v-unx/clock.c:92-103 | a tick is charged to one process |
| `Processes.Table.Step` | 32v-unx/sys1.c:381-503 | the table, the parents and the records after any event: who ended, who was collected, what time was charged |
| `Processes.Table.Run` | 32v-unx/sys1.c:381-503 | over any run, followed state by state: processes, known by serial numbers, are collected at most once, only when they have ended, and those that have ended and not been collected are exactly the zombies; time charged is time in the table; every process but the first two has a live parent; whoever sleeps in wait has a child and none to report |
| `Processes.EndBooks` | 32v-unx/sys1.c:381-384 | a process that ends is recorded once, and becomes a zombie |
| `Processes.ReapBooks` | 32v-unx/sys1.c:419-431 | a zombie that is collected has ended and was not collected before |
| `Processes.ForkBooks` | 32v-unx/slp.c:528-545 | a new process is none of those before, though its number may be |
| `Directory.Take` | 32v-unx/nami.c:68-75 | the characters of a component, as many as fit |
| `Directory.Pad` | 32v-unx/nami.c:76-77 | filled up with zeros |
| `Directory.Skip` | 32v-unx/nami.c:78-79 | past the slashes |
| `Directory.Gather` | 32v-unx/nami.c:68-79 | the first component of the path cut or filled up to 14 bytes, and the rest of the path behind it |
| `Directory.InMap` | 32v-unx/nami.c:157-167 | a name is in the map exactly if a slot in use has it |
| `Directory.Inserted` | 32v-unx/iget.c:308-319 | a new name in an empty slot adds one entry to the map |
| `Directory.Appended` | 32v-unx/iget.c:308-319 | so does one behind the last slot |
| `Directory.Removed` | 32v-unx/sys4.c:196-200 | emptying a slot removes its name from the map |
| `Directory.FirstEmpty` | 32v-unx/nami.c:160-163 | the first empty slot, or the end, is where a new entry goes |
| `Directory.WriteSlot` | 32v-unx/iget.c:313-317 | writing 16 bytes at a slot boundary changes that slot only, or appends one |
| `Directory.DirFile.constructor` | 32v-unx/nami.c:102-105 | an empty directory is an empty map |
| `Directory.DirFile.Search` | 32v-unx/nami.c:102-167 | finds the slot that has the name, or that there is none, and the first empty slot |
| `Directory.DirFile.Namei` | 32v-unx/nami.c:102-197 | lookup agrees with the map; create gets the first empty slot or the end; delete gets the matched slot |
| `Directory.DirFile.Enter` | 32v-unx/iget.c:308-319 | create after a failed lookup adds exactly the new name, in the first empty slot or behind the last; names stay unique |
| `Directory.DirFile.Unlink` | 32v-unx/sys4.c:167-202 | empties exactly the slot of the name, or fails and changes nothing |
| `Directory.DirFile.Run` | 32v-unx/nami.c:68-197 | any sequence of operations does what it does to a map |
| `Accounting.Compress` | 32v-unx/acct.c:91-109 | the loop computes the compressed form of a time |
| `Accounting.Halves` | 32v-unx/acct.c:98-101 | what is cut off is less than the last place, and it is at least half of it exactly if it is rounded up |
| `Accounting.DecodedIs` | 32v-unx/acct.c:102-108 | the record stands for the rounded fraction, also across the rounding carry |
| `Accounting.ErrorBound` | 32v-unx/acct.c:91-109 | exact below 8192; the decoded value is off by at most half of 8^e |
| `Accounting.Fits` | 32v-unx/acct.c:91-109 | any time of 31 bits fits in 3 bits of exponent and 13 of fraction |
| `Accounting.Monotone` | 32v-unx/acct.c:91-109 | a longer time never compresses to less |
| `SwapSpace.TakeOk` | 32v-unx/text.c:67-73 | an allocation gives free units to one owner and keeps the division of swap space |
| `SwapSpace.GiveOk` | 32v-unx/slp.c:386 | giving back a range keeps it too |
| `SwapSpace.Divided` | 32v-unx/text.c:67-73 | each unit is free exactly if nobody owns it, and has one owner at most |
| `SwapSpace.RunsBetween` | 32v-unx/malloc.c:58-82 | there is at most one free run more than there are owners, whatever the number of units |
| `SwapSpace.TablesChange` | 32v-unx/text.c:131-153 | a change of one process and one text that moves their counts together keeps all counts right |
| `SwapSpace.Swap.constructor` | 32v-unx/machdep.c:54 | all swap space free |
| `SwapSpace.Swap.XSwap` | 32v-unx/text.c:33-125 | an image gets its space when it first goes out, exactly if there is a run for it, and keeps it through the partial swaps; how much is out; its text has one process less in core |
| `SwapSpace.Swap.GoOut` | 32v-unx/text.c:66-73 | the first part of it |
| `SwapSpace.Swap.Progress` | 32v-unx/text.c:82-90 | how much has gone out, and when all has |
| `SwapSpace.Swap.SwapIn` | 32v-unx/slp.c:301-401 | the space of the image is free again and the text has one more process in core; without core nothing changes; exactly when the swap map keeps its terminator |
| `SwapSpace.Swap.FindText` | 32v-unx/text.c:176-212 | the slot of the text of an inode, or the first free slot |
| `SwapSpace.Swap.Xalloc` | 32v-unx/text.c:165-265 | attaches to the text of the inode, old or new, in the first free slot; the process goes out exactly when the text is not in core and there is no room; the result, the tables and the free runs afterwards are as in XallocCases |
| `SwapSpace.Swap.AttachTo` | 32v-unx/text.c:180-205 | hooking up to a text whose slot is known: in core, or going out for want of core exactly if there is a run for the image |
| `SwapSteps.XallocCases` | 32v-unx/text.c:176-222 | no slot if and only if no slot has the inode and all are used; no swap space if and only if there is none for a new text, or none for the image of a process that has to go out; otherwise the text has one user more, and no other text and no other process changes |
| `SwapSpace.Swap.NewText` | 32v-unx/text.c:213-222 | a new text owns swap space, exactly if there is a run for it |
| `SwapSpace.Swap.AttachIn` | 32v-unx/text.c:185-190 | both counts of the text go up |
| `SwapSpace.Swap.AttachOut` | 32v-unx/text.c:258-263 | only x_count goes up for a process that goes out |
| `SwapSpace.Swap.Xfree` | 32v-unx/text.c:131-153 | the last user of a text that is not sticky frees it and its swap space; any other only leaves; exactly when the swap map keeps its terminator |
| `SwapSpace.Swap.Xuntext` | 32v-unx/text.c:350-369 | a text is given up exactly if nobody uses it; exactly when the swap map keeps its terminator |
| `SwapSpace.Swap.Resize` | 32v-unx/slp.c:610-650 | a process in core changes its size without owning swap space |
| `SwapSpace.Swap.Newproc` | 32v-unx/slp.c:555-588 | the child has the size and the text of its parent and is counted, in core, or, without room, swapped out at once, which fails exactly if there is no run for it |
| `SwapSpace.Swap.ExecStart` | 32v-unx/sys1.c:62-63 | the argument area of an exec is owned by it, exactly if there is a run for it |
| `SwapSpace.Swap.ExecEnd` | 32v-unx/sys1.c:141-142 | and given back; exactly when the swap map keeps its terminator |
| `SwapSpace.Swap.Step` | 32v-unx/text.c:33-369 | any operation keeps the division of swap space and the counts, makes of the tables and the free runs what it says, panics exactly without space where it needs some, and loses the terminator exactly if a range given back joins no run and there is no entry to spare |
| `SwapSpace.Swap.GiveBack` | 32v-unx/text.c:131-369 | the same for the operations that give back swap space |
| `SwapSpace.Swap.Run` | 32v-unx/text.c:33-369 | over any sequence, state by state what the events say, and for any size of the map: each unit of swap space is free or has exactly one owner, a swapped process, a text or an exec; x_count is the number of processes attached and x_ccount the number of those in core; the map can lose its terminator only with as many owners as it has entries, but one |

## Left out

- FileIO.Writei: the contents of the buffer of block 0 after EFBIG are not modelled; only files are described.
- BlockLayer.Volume.Bmap: the read-ahead block number (32v-unx/subr.c:53-54, 118-122) is not modelled; it only chooses what is read early.
- BlockLayer.Volume.Alloc: free lists that are already damaged (bad counts, blocks out of range) are not modelled; the free list is well formed to begin with and stays so.
- BufferCache.Cache.Breada: a sleep in the middle ends the call of the method; the steps left are AheadBlock, Start, Iowait and Bread, as events of their own.
- BufferCache.Cache.Step: a step that would release a changed buffer of a block by brelse is skipped, as writei does with block 0 after EFBIG; such a buffer is released by one of the writes.
- Pipe.PipeInode.Deposit: writei has space and no I/O errors, and reads deliver what was asked for.
- Callout.Table.Timeout: delays are not negative, and called functions are not null.
- Callout.Table.Run: delays are positive, and nothing is said after a panic or an overrun.
- ResourceMap.Map.Mfree: the caller gives back units that are not free, to a map that has its terminator.
- SwapSpace.Swap.XSwap: each operation is taken whole, without the sleeps during transfers and for text locks (32v-unx/text.c:52, 284, 305), so no other process runs between the allocation and the store of p_swaddr; so are Xalloc, Xfree, SwapIn and Newproc.
- SwapSpace.Swap.Run: ends where the kernel panics for want of swap space, or the swap map has lost its terminator and the next call would read past it.
- SwapSpace.Swap.Resize: growth that needs a swap is XSwap followed by SwapIn; page tables are not modelled.
- Processes.Table.Exit: init and process 0 do not exit, and process 0 forks init only.
- Processes.Table.Stop: the commands that a tracer gives are not modelled, and a process that would exit instead of stopping does so by Exit.
- Sleeping on s_flock: the block layer is one process at a time, with every buffer it needs free.
- I/O errors and B_ERROR, disk statistics, and the swap and physio transfers of the buffer cache.
- 32-bit overflow of offset plus count, and the 16-bit fields of struct map: these are unbounded numbers.
- The linked structures of the buffer cache are tables of link indices, one array for each link field; bitmap words and masks are one bool per frame; clist blocks are 16 bytes with a 4-byte link kept apart from the characters.
- ialloc and ifree, the writing of inodes to disk, and the link counts of files.
- Mount crossing, mpx names, access permissions, special files, and faults on user addresses.
- Scheduling: the choice of a process to run or to swap, priorities, and run queues; any process that can run may run next.
- Signals, except that they end sleeps; accounting records other than compressed times; terminals, drivers, multiplexed files, mkfs.
