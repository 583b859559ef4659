# Verified models of the kernel's stateful cores

This project models the data structures and protocols of the kernel in Dafny 4.11 and proves what their
documentation promises. `dafny verify dfyconfig.toml` checks all of it.

Each component is a module, or a few that build on each other:

- **TCP** (`Tcp.dfy`, `TcpRun.dfy`). A connection is a class whose methods are proved equal to protocol functions;
  two endpoints and a network that loses, duplicates and reorders segments form a state machine, and the promises
  are invariants of every run, with 32-bit wrapping numbers and retransmission.
- **Block cache** (`Bcache.dfy`). The intrusive LRU list and hash chains, updated in place, refine a flat disk.
- **ext2** (`Ext2Alloc.dfy`, `Ext2Dir.dfy`, `Ext2Map.dfy`, `Ext2Own.dfy`, `Ext2Core.dfy`, `Ext2Path.dfy`,
  `Ext2Links.dfy`, `Ext2Fs.dfy`, `Ext2Mount.dfy`). Bitmaps and counts, directory blocks as bytes, files through direct and indirect
  pointers, and the operations on a mounted volume. Every block carries the role it plays (which slot of which
  inode) and every name the place of its record, so that a block owned twice or a name listed twice cannot be
  stated, let alone reached. Operations keep one invariant over success and failure paths, and a mount of the device
  after any run of them through the block cache finds the volume again.
- **Physical memory and paging** (`Frames.dfy`, `Paging.dfy`). The bitmap frame allocator and four-level tables, each
  labelled with the indices that lead to it, so that the tables are a tree and a mapping is a single-point update.
- **Heap** (`Heap.dfy`). Slabs with free lists threaded through their free blocks, partial lists and free runs.
- **Rings and transfers** (`Rings.dfy`, `Prp.dfy`). One-bit rings for xHCI and NVMe with the device as the other
  party, and NVMe's data pointers (section 4.3 of the NVMe 1.3 specification) and transfer loop, down to the bytes of
  physical memory that the controller and the processor see.
- **Several cores** (`Smp.dfy`). Mailbox and spinlock as interleavings of single memory accesses.
- **Graphics** (`Line.dfy`, `Flip.dfy`), **editor** (`Editor.dfy`) and **calendar** (`Calendar.dfy`).
- `Arith.dfy` and `Types.dfy` hold arithmetic and types that several of them use.

Where the code does not keep a promise, the model keeps the code and states when the promise holds:

- A receive that returns 0 is not always a clean end of stream: it is one exactly when the FIN was taken and the call
  had room or nothing was buffered (`TcpRun.ZeroIsCleanEndIff`, with `TcpRun.GivingUpReportsAnUncleanEnd` for the first
  condition and `TcpRun.NoRoomReportsAnUncleanEnd` for the second).
- A receive reports a timeout even when the bytes or the FIN came in its last poll: it times out exactly when nothing
  was there before the poll at the deadline (`Tcp.TimesOutIff`, with `Tcp.LateByteTimesOut`).
- Evicting a dirty block whose write-back fails loses the write, against the comment in `claim`
  (`Bcache.Cache.EvictionKeepsView`, with `Bcache.DroppedWrite`).
- A TRB ring is a queue with 254 outstanding TRBs and not with 255: the 255th, pushed while the controller stands on
  the LINK, re-arms the LINK for the next lap and the controller stops (`XhciRings.PushOk`, with `XhciRings.StuckRun`).
- The frame allocator rounds the base of its region up and its length down, so its last frame may end outside
  (`Frames.FramesInRegion`, with `Frames.FrameOutsideRegion`).
- Freeing a frame that is not in use makes the free count wrong (`Frames.FrameAllocator.Free`, with
  `Frames.FreedTwice`); freeing a block or an inode number twice does the same (`Ext2Alloc.GiveOk`).
- `iomap` computes page count and window end in 64 bits, and both can wrap: its bound check is right exactly when
  neither does, or when it refuses for want of any page (`Paging.BoundCheckIff`, with `Paging.WrappedWindowPasses` for
  the end and `Paging.WrappedCountPasses` for the count).
- A large heap request that passes the check of `carve` has room exactly when its slab count was not truncated to 32
  bits and the end of its slabs does not wrap at 2^64 (`Heap.CarveRight`, with `Heap.SlabsSuffice` and
  `Heap.TruncatedCount` for the count, `Heap.CarveCheckIff` and `Heap.WrappedCarvePasses` for the end).
- Joining two lines in the editor drops what does not fit in 256 columns (`Editor.JoinLinesText`, with
  `Editor.LongJoinLosesText`).

## Model

| member | source | states |
|---|---|---|
| Tcp.SeqLtIsOrder | src/tcp.c:72-75 | for stream offsets below 2^31, the signed 32-bit comparison of the wrapped sequence numbers is the order of the offsets |
| Tcp.TcpConn.Connect | src/tcp.c:298-305 | a slot, whatever it held, becomes the connection that the protocol function describes, with its SYN on the wire and outstanding |
| Tcp.TcpConn.Listen | src/tcp.c:326-329 | a slot, whatever it held, becomes a listening connection with an empty ring |
| Tcp.TcpConn.EmitSegment | src/tcp.c:97-132 | the segment sent, and the connection with it outstanding and its numbers used up; at most MSS bytes, SYN and FIN count one |
| Tcp.TcpConn.BareAck | src/tcp.c:135-149 | an ACK of the current numbers and window; the connection does not change |
| Tcp.TcpConn.Append | src/tcp.c:231-236 | the cells of the ring, read as a queue, gain exactly the payload at the end |
| Tcp.RingSnoc | src/tcp.c:232-234 | writing one cell behind the buffered bytes adds one byte to the queue and disturbs none |
| Tcp.RingDrop | src/tcp.c:399-403 | advancing the head by n, modulo the ring, drops the first n bytes of the queue |
| Tcp.TcpConn.Receive | src/tcp.c:202-253 | the whole segment path on a matched connection: reset, acknowledgement, open, data and FIN, and the ACKs it sends |
| Tcp.TcpConn.ReceiveAck | src/tcp.c:208-219 | the outstanding segment is cleared only by an ACK that reaches its end; a passive open completes on it |
| Tcp.TcpConn.ReceiveData | src/tcp.c:230-240 | only the expected in-order payload that fits is taken; anything else with data is re-acknowledged |
| Tcp.TcpConn.ReceiveFin | src/tcp.c:242-252 | a FIN is taken only at the expected number |
| Tcp.TcpConn.Accept | src/tcp.c:181-200 | a SYN opens a listening connection and is answered; anything else changes nothing |
| Tcp.TcpConn.Pump | src/tcp.c:257-277 | retransmission after the timeout, at most six times, then the connection is done; the clock difference wraps at 64 bits |
| Tcp.TcpConn.Recv | src/tcp.c:381-408 | the whole call, its polls included: -1 on an unused slot or when the wait times out, else 0 or a count as the state in which it ends decides; a count comes with that many of the oldest bytes, which leave the ring in order |
| Tcp.TcpConn.TakePoll | src/net.c:383-393 | the frames of a poll in order and then the timers, and all that is sent on the way |
| Tcp.TcpConn.Await | src/tcp.c:388-396 | the loop looks at the connection before each poll and at the clock after it, and ends as the wait function says |
| Tcp.TimesOutIff | src/tcp.c:388-396 | for every sequence of polls, the wait times out if and only if nothing was buffered or finished before the poll at the deadline; what that poll brings stays in the connection |
| Tcp.LateByteTimesOut | src/tcp.c:392-395 | a byte that arrives in the poll at the deadline is buffered, and the call still says -1 |
| Tcp.RecvMeans | src/tcp.c:381-408 | -1 if and only if nothing is buffered and the stream goes on, 0 if and only if it is finished or there is no room; otherwise all that is buffered or all that fits, and no byte is lost or repeated |
| Tcp.WindowIsRoom | src/tcp.c:230-240 | in-order data is taken if and only if it fits the window that an ACK of the connection gives |
| Tcp.Retransmits | src/tcp.c:257-277 | for every sequence of timer calls, an unanswered segment is sent again as it was with every 400 ms that pass, six times in all, and given up with the next 400 ms |
| Tcp.TcpConn.Send | src/tcp.c:352-378 | the whole call, chunks and polls included: the state, the segments and the count of the send function; -1 on an unused slot or when data was given and none counted |
| Tcp.TcpConn.AwaitAck | src/tcp.c:368-374 | the wait for a chunk ends as the wait function says |
| Tcp.AckFailsIff | src/tcp.c:368-374 | for every sequence of polls, the wait fails if and only if the chunk was not acknowledged before the poll that ends the connection or reaches the deadline |
| Tcp.SendStops | src/tcp.c:352-378 | a send stops before all of the data is counted only when the connection is not established or the wait for its last chunk failed |
| TcpRun.RunOk | src/tcp.c:97-277 | the protocol invariant holds in every state of every run of two endpoints over a network that loses, duplicates and reorders |
| TcpRun.InOrderPrefix | src/tcp.c:230-237 | in every run, delivered bytes followed by the ring are a prefix of the bytes the peer gave numbers to, both ways |
| TcpRun.SentIsAccepted | src/tcp.c:352-378 | when a send stops with k > 0, the peer has accepted exactly the first k bytes of the call, where the stream stood when it began |
| TcpRun.SendReturns | src/tcp.c:352-378 | over every run, the result of a send is the number of bytes it numbered less the chunk that awaits its ACK, -1 exactly when that is none of some data, and the whole length when all was counted |
| TcpRun.SendCountsAccepted | src/tcp.c:352-378 | in every run, whatever the peer and the network do during the call, a positive result of the whole send means that the peer has accepted that many bytes of the data in their place |
| TcpRun.ZeroIsCleanEndIff | src/tcp.c:380-408 | in every run and for every capacity, a receive that returns 0 means that every byte of the peer was handed over and its FIN taken, if and only if the FIN was taken and there was room or nothing buffered |
| TcpRun.ReadIsNextBytes | src/tcp.c:397-408 | in every run, a receive that returns a count hands over the peer's next bytes in order |
| TcpRun.NoRoomReportsAnUncleanEnd | src/tcp.c:397-408 | a run in which a receive with capacity 0 returns 0 after the FIN while a byte waits |
| TcpRun.GivingUpReportsAnUncleanEnd | src/tcp.c:268-271 | a run in which receive returns 0 after giving up on the peer, without a FIN: the comment at line 380 promises too much |
| TcpRun.DataExtends | src/tcp.c:231-237 | data at the expected number continues what was received along the peer's own bytes |
| TcpRun.FinClosesStream | src/tcp.c:242-245 | a FIN at the expected number means that everything before it was received |
| TcpRun.AckClears | src/tcp.c:208-211 | an acknowledgement that clears the outstanding segment means the peer has accepted all numbers used |
| TcpRun.InStep | src/tcp.c:360-376 | with nothing outstanding on an established connection, the peer expects exactly the next number |
| TcpRun.LosslessChunk | src/tcp.c:360-376 | an exchange in which nothing is lost delivers the chunk to the peer and counts it in the call |
| Bcache.BucketCount | src/bcache.c:238-242 | the smallest power of two that is no less than the number of slots |
| Bcache.MaskIsRemainder | src/bcache.c:46-49 | selecting a bucket with the mask of a power of two is taking the remainder |
| Bcache.Cache.constructor | src/bcache.c:224-256 | a fresh cache is consistent, with a power of two of buckets, holds no block, and shows the device |
| Bcache.Cache.LruUnlink | src/bcache.c:53-66 | the slot leaves the doubly linked list and the rest keeps its order |
| Bcache.Cache.LruPushFront | src/bcache.c:68-79 | the slot becomes the head of the list |
| Bcache.Cache.LruPushBack | src/bcache.c:81-92 | the slot becomes the tail of the list |
| Bcache.Cache.LruTouch | src/bcache.c:94-101 | the slot moves to the front and the rest keeps its order |
| Bcache.Cache.HashInsert | src/bcache.c:103-108 | the slot is on the chain of its block and on no other |
| Bcache.Cache.HashRemove | src/bcache.c:110-120 | the slot leaves its chain, which keeps its order, and the other chains are as they were |
| Bcache.Cache.Lookup | src/bcache.c:122-133 | the one slot that holds the block, or none |
| Bcache.Cache.Flush | src/bcache.c:146-160 | a dirty slot is written back and cleaned, or refused and left dirty; what readers see does not change |
| Bcache.Cache.Evict | src/bcache.c:162-171 | the slot is emptied; what readers see changes only when a dirty slot could not be written back |
| Bcache.Cache.EvictionKeepsView | src/bcache.c:162-171 | reusing the tail keeps what readers see if and only if the victim was not a dirty block that the device refuses and does not hold |
| Bcache.DroppedWrite | src/bcache.c:162-171 | a run in which a write is lost because its write-back failed, against the comment at line 166 |
| Bcache.Cache.Claim | src/bcache.c:162-178 | the slot used least recently is reused for the block, hashed and in front, and only its block leaves the cache; no device write unless the victim was dirty |
| Bcache.Cache.Fill | src/bcache.c:180-198 | the slot holds what readers see of the block and is used most recently; a failed device read leaves no slot for it |
| Bcache.Cache.Readahead | src/bcache.c:202-220 | the blocks after this one, up to three, were resident or are fetched and stay, and it stops early only at the end of the device, at an unreadable block or at a dirty victim; nothing that readers see changes and the device is never written |
| Bcache.Cache.Read | src/bcache.c:272-288 | the last value written to the block, or the device's; a resident block is used most recently, a miss reads ahead; with a device that accepts writes nothing seen changes |
| Bcache.Cache.Write | src/bcache.c:290-305 | exactly this block is seen with the new value, it is used most recently and marked to be written back; a miss takes the slot used least recently |
| Bcache.Cache.ReadRun | src/bcache.c:307-333 | the run of blocks as readers see them, whether taken from the device at once or block by block, when the device accepts writes for them; no block it accepts writes for is lost on the way |
| Bcache.Cache.Sync | src/bcache.c:335-344 | only refused blocks stay dirty; success if and only if none is left, and then the device equals what readers see |
| Bcache.Cache.Forget | src/bcache.c:346-358 | the block leaves the cache and its slot is the next victim; what readers see stays, unless the write-back was refused and the device's copy shows through |
| Bcache.Perform | src/bcache.c:272-358 | one operation answers as a flat disk does and leaves what a flat disk leaves |
| Bcache.RunAll | src/bcache.c:272-358 | every answer of any sequence of operations, with evictions and read-ahead, is that of a flat disk |
| Bcache.Durably | src/ext2.c:1242-1272 | whatever blocks an operation reads and writes, after the flush on its way out the device equals the flat disk they leave |
| Ext2Alloc.BitmapAlloc | src/ext2.c:673-691 | the first clear bit is found; none means the bitmap is full |
| Ext2Alloc.Allocate | src/ext2.c:704-772 | the first clear bit of all groups is set, and no other, and its group count and the total drop by one; refused only when all is used |
| Ext2Alloc.Release | src/ext2.c:730-791 | exactly that bit is cleared and the total rises by one, with counts and bitmaps in agreement if and only if the bit was set; a number past the groups changes nothing |
| Ext2Alloc.GiveOk | src/ext2.c:693-749 | clearing a bit and raising the counts keeps counts and bitmaps in agreement if and only if the bit was set |
| Ext2Map.BlockOfIsSlot | src/ext2.c:208-235 | the block of a logical index is the pointer in its slot: direct, single- or double-indirect |
| Ext2Map.MapBlocks | src/ext2.c:251-290 | the table agrees with the per-index lookup at every index, holes and missing pointer blocks included |
| Ext2Map.ReadFile | src/ext2.c:292-340 | reading contiguous runs at once gives the block-by-block contents, holes as zeros, cut to the size |
| Ext2Map.PiecesRead | src/ext2.c:292-340 | a file whose blocks hold the consecutive pieces of some data reads as that data |
| Ext2Dir.AddAtOk | src/ext2.c:884-924 | adding in a record with room keeps the block tiled by records and adds exactly one entry, with its inode, name and file type |
| Ext2Dir.RoomIs | src/ext2.c:896-923 | a record has room if and only if what its own header and name leave of it, both rounded to 4 bytes, holds the new header and name; the new record takes all the rest |
| Ext2Dir.RecordFormat | src/ext2.c:103-109 | the fields of a record, byte by byte: a 32-bit inode number and a 16-bit length, little-endian, the name length and the file type |
| Ext2Dir.PointerFormat | src/ext2.c:208-250 | a pointer block holds 32-bit little-endian numbers |
| Ext2Dir.RemoveAtOk | src/ext2.c:947-981 | removing a record keeps the block tiled and takes away exactly that entry |
| Ext2Dir.SoloOk | src/ext2.c:925-939 | a new directory block is tiled by one record, with exactly the new entry |
| Ext2Dir.DotBlockOk | src/ext2.c:1111-1130 | the first block of a new directory is tiled and holds exactly "." and ".." |
| Ext2Dir.FindRecord | src/ext2.c:947-981 | the live record of a name and the record before it, or the name is not in the block |
| Ext2Dir.FindRoom | src/ext2.c:896-923 | a record with room for the name, found if and only if there is one |
| Ext2Dir.FindReal | src/ext2.c:1154-1167 | whether the block holds an entry other than "." and ".." |
| Ext2Own.WriteKeepsInode | src/ext2.c:208-235 | a write to a block that is no pointer block of an inode leaves what the inode owns |
| Ext2Own.AccountMore | src/ext2.c:796-825 | one more block in an empty slot and one more in the count keep the blocks field exact |
| Ext2Core.DirAdded | src/ext2.c:884-924 | one entry more in one block of a directory is one name more in its name map |
| Ext2Core.DirRemoved | src/ext2.c:947-981 | one entry less in one block of a directory is one name less in its name map |
| Ext2Core.DirGrown | src/ext2.c:925-939 | a directory grown by a block holds one name more |
| Ext2Core.SameButWrite | src/ext2.c:617-624 | a write to a block of some inodes leaves the contents of all others |
| Ext2Path.LastComponent | src/ext2.c:985-1020 | the components of a path are those of its parent part and then its last name, whatever slashes follow |
| Ext2Path.SplitPath | src/ext2.c:985-1012 | the split succeeds if and only if there is a last name, of at most 255 bytes and after at most 255 bytes, whatever slashes follow |
| Ext2Links.DirUnlinked | src/ext2.c:1197-1206 | when an empty directory and its one name go, no other name leads to it, so the tree stays whole |
| Ext2Links.FileLinked | src/ext2.c:1047-1059 | a new file under a free name keeps every name leading to a live inode of the type its record gives |
| Ext2Links.DirLinked | src/ext2.c:1111-1150 | a new directory under a free name, with its "." and "..", keeps the tree whole, its ".." leading to the one directory that names it |
| Ext2Links.FileUnlinked | src/ext2.c:1207-1219 | when a name of a file goes, the file may go with it only if that was its last name |
| Ext2Fs.Volume.AllocBlock | src/ext2.c:704-728 | a block that was not in use, zeroed, or nothing changes and none is free; the volume stays consistent |
| Ext2Fs.Volume.FreeBlock | src/ext2.c:730-749 | exactly that block is free; the volume stays consistent if and only if it was in use or is no block of the volume |
| Ext2Fs.Volume.SetBlockOf | src/ext2.c:796-825 | exactly one logical block is mapped, the pointer block allocated on demand; refused, with nothing changed, only past the single-indirect range or on a full disk |
| Ext2Fs.Volume.FreeAllBlocks | src/ext2.c:829-873 | every block the inode reaches is freed, each once, and no other |
| Ext2Fs.Volume.DirFind | src/ext2.c:875-882 | the inode the name map gives for the name, 0 when there is none |
| Ext2Fs.Volume.DirAdd | src/ext2.c:884-943 | the name map gains exactly this name, in place or in a new block; refused only when no record has room and the disk is full or the directory as long as it can be, and then nothing is gained and one block is lost if there was one |
| Ext2Fs.Volume.DirRemove | src/ext2.c:947-982 | the name map loses exactly this name; true if and only if it was there |
| Ext2Fs.Volume.AllocInode | src/ext2.c:751-772 | a number that no live inode has, or none is free |
| Ext2Fs.Volume.FreeInode | src/ext2.c:774-791 | exactly that number is free; the volume stays consistent if and only if it was in use or is no number of the volume |
| Ext2Fs.Volume.Resolve | src/ext2.c:405-437 | the inode that the components of the path lead to through the name map, 0 when they lead nowhere |
| Ext2Fs.Volume.ResolveParent | src/ext2.c:985-1023 | the directory that holds the last name; refused if and only if the path is too long for the buffers or leads to no directory |
| Ext2Fs.Volume.ReadPath | src/ext2.c:502-516 | the contents of the regular file at the path |
| Ext2Fs.Volume.FillFile | src/ext2.c:1058-1082 | the block loop leaves the file holding the pieces written so far and the rest of the volume untouched |
| Ext2Fs.Volume.WriteFile | src/ext2.c:1025-1088 | the volume stays consistent; on success, below 2^32 bytes, the path reads as the data. A file that was opened is one file more with one link under exactly the one new name, or only the inode that was there changes and its link count does not; its blocks field counts what it owns, every block that came into use has an owner, what the old contents held is free or owned again, and every other file reads as before. A failure leaves the tree as it was, with a path too long, no parent, a directory in the way, no inode or no room for the name as the reason and at most one block lost, or, when the disk filled up or the data is past 12 + block_size/4 blocks, the data up to some block and then zeros |
| Ext2Fs.Volume.Mkdir | src/ext2.c:1090-1152 | a fresh empty directory with two links and a right blocks field under a name that was free, exactly three names and one inode more, one link more, in 16 bits, for its parent, and every block that came into use owned; or no change but at most one block lost, with a path too long, no parent, a name clash, no inode, no block or no room for the name as the reason; every file reads as before |
| Ext2Fs.Volume.IsEmptyDir | src/ext2.c:1154-1190 | true if and only if the directory holds nothing but "." and ".." |
| Ext2Fs.Volume.Remove | src/ext2.c:1169-1225 | it succeeds if and only if the path is short enough and leads to something that is not a directory with entries; then the name and, with its last link, the inode go, its number is free and zeroed and its blocks are free, and the tree loses nothing else; the parent of a removed directory has one link less; every file still there reads as before |
| Ext2Fs.Volume.Run | src/ext2.c:1025-1225 | any sequence of writes, directory creations and removals, successful or not, keeps the volume consistent, and link counts of files that equal the number of their names still do |
| Ext2Fs.Volume.WriteThenRead | src/ext2.c:1025-1088 | what was written is what is read back |
| Ext2Fs.Volume.WriteThenRemove | src/ext2.c:1025-1225 | a file written where there was none and then removed leaves nothing: its number and blocks are free, and the names are those of before |
| Ext2Fs.Tiny | src/ext2.c:1111-1141 | a volume in order: a metadata block, a data block, two inode numbers and a root directory |
| Ext2Fs.Consistent | src/ext2.c:673-873 | in a consistent volume the counts are those of the bitmaps, every block an allocated inode reaches is in use, and none is reached twice |
| Ext2Mount.MountFinds | src/ext2.c:160-202 | reading bitmaps, counts, inodes and data back from any device that holds the volume's blocks gives the volume: nothing is stored in two places or overwritten by another item |
| Ext2Mount.Store | src/ext2.c:617-660 | whatever is evicted on the way, after the writes of an operation a reader of the cache sees the new volume |
| Ext2Mount.Mounted.constructor | src/ext2.c:476-484 | a volume whose blocks are on the device, behind an empty cache |
| Ext2Mount.Mounted.Mutate | src/ext2.c:1242-1272 | a mutator, whatever path it took, leaves a consistent volume, and all of its blocks are on the device when it returns; a success shows at its path |
| Ext2Mount.Mounted.Run | src/ext2.c:1242-1272 | the same after any run of mutators |
| Ext2Mount.TinyMounted | src/ext2.c:476-484 | that volume, mounted behind a cache of eight blocks |
| Ext2Mount.Mounted.Remount | src/ext2.c:439-484 | mounting the device as it then stands gives a consistent volume with the same inodes, names, bitmaps and blocks, in which every path reads as before |
| Ext2Mount.Mounted.WriteRemountRead | src/ext2.c:1242-1255 | what was written is what is read back after a new mount of the device |
| Frames.Search | src/bitset.c:39-52 | the first clear bit, or none is clear |
| Frames.InitWords | src/bitset.c:10-19 | clear for the items, set past them, for any size |
| Frames.BitAfter | src/bitset.c:21-35 | setting or clearing a bit changes that bit and no other |
| Frames.FrameAllocator.constructor | src/frames.c:18-36 | exactly the frames after the bitmap are free, and the counts say so |
| Frames.MetaFramesIs | src/frames.c:24-31 | the frames set aside hold the bitmap, and one less would not |
| Frames.FrameAllocator.Alloc | src/frames.c:43-52 | a frame that was free and no longer is, every other frame as before; it panics only when none is free |
| Frames.FrameAllocator.Free | src/frames.c:54-62 | the free count equals the clear bits afterwards if and only if the frame was in use |
| Frames.FrameAllocator.AllocThenFree | src/frames.c:43-62 | freeing what was allocated brings bits and count back |
| Frames.FreedTwice | src/frames.c:54-62 | a frame freed twice makes the count one more than the clear bits |
| Frames.FramesInRegion | src/frames.c:18-22 | all frames lie in the region given if and only if there are none, or what aligning the base skips is no more than what rounding the length leaves over, or the count was truncated |
| Frames.FrameOutsideRegion | src/frames.c:18-22 | a region whose last frame ends outside it |
| Paging.WalkKept | src/paging.c:90-113 | a changed table entry is felt only by addresses whose path goes through it |
| Paging.LinkKeeps | src/paging.c:33-43 | linking an empty table where there was none changes no translation |
| Paging.RightsLinked | src/paging.c:33-43 | linking one with the write and user bits limits no access, at any address |
| Paging.RightsKept | src/paging.c:45-64 | a changed table entry limits only accesses whose path goes through it |
| Paging.LeafRightsOf | src/paging.c:53-61 | the entry carries exactly the write, user and uncached rights of the flags |
| Paging.PathIsPage | include/paging.h:35-39 | two addresses take the same path if and only if bits 12 to 47 agree |
| Paging.AddressSpace.constructor | src/paging.c:115-128 | adopting tables that form a tree outside the managed frames |
| Paging.AddressSpace.PhysicalAddress | src/paging.c:90-113 | the four-level walk, large pages included |
| Paging.HugePage | src/paging.c:98-101 | where bit 7 is set in the second entry, 2^30 consecutive bytes from the entry's address on |
| Paging.LargePage | src/paging.c:103-107 | where bit 7 is set in the third entry, 2^21 consecutive bytes from the entry's address on |
| Paging.SmallPage | src/paging.c:108-112 | under three tables, 4096 consecutive bytes from the last entry's address on |
| Paging.AddressSpace.LevelNext | src/paging.c:33-43 | the table below an entry, linked in when missing; the tables stay a tree and no translation or access right changes |
| Paging.AddressSpace.MapPage | src/paging.c:45-64 | a single-point update: the page of va translates to the page of pa with the rights of the flags as far as the tables above allow, every other address as before in translation and rights, even when tables are linked in; it panics only when no frame is free |
| Paging.AddressSpace.IoMap | src/paging.c:74-88 | byte for byte the window translates to the device's addresses with the rights of the flags, every address outside it as before; windows never meet; it panics only when the window does not fit or no frame is free |
| Paging.BoundCheckIff | src/paging.c:74-83 | for every address and length, the bound check passes exactly the windows that fit if and only if neither page count nor end wraps, or the space is used up and the count wraps to a page |
| Paging.WrappedWindowPasses | src/paging.c:74-83 | a window of 32 TiB passes it, because its end wraps |
| Paging.WrappedCountPasses | src/paging.c:74-83 | a window of 2^64 - 1 bytes passes it, because its page count wraps to 0 |
| Heap.LiveDisjoint | src/memory.c:63-137 | live blocks are 16-aligned, inside the carved slabs, as large as requested and pairwise disjoint |
| Heap.RoomsApart | src/memory.c:63-137 | the room of every block and live run lies apart from that of every other |
| Heap.PartialIff | src/memory.c:63-108 | a small slab is on the partial list of its class if and only if its free list is not empty |
| Heap.SlabsSuffice | src/memory.c:110-112 | the 32-bit slab count covers the request if and only if it was not truncated |
| Heap.TruncatedCount | src/memory.c:110-112 | a request of 2^48 bytes takes no slab |
| Heap.CarveCheckIff | src/memory.c:53-61 | the check passes exactly the counts of slabs that are left if and only if the end of the slabs does not wrap |
| Heap.CarveRight | src/memory.c:53-61 | of the requests that pass it, the region has room for exactly those whose count was not truncated and whose end does not wrap |
| Heap.WrappedCarvePasses | src/memory.c:53-61 | in a heap of 1 GiB at the kernel's heap window, a request of 2^46 bytes passes it |
| Heap.BaseWrapsIff | src/memory.c:158-171 | the base of the slabs wraps if and only if the descriptors reach into the topmost slab |
| Heap.SizeToClass | src/memory.c:31-39 | the smallest class that holds the size |
| Heap.Thread | src/memory.c:73-80 | the free list visits every block of the slab in order and ends |
| Heap.HeapAllocator.constructor | src/memory.c:158-179 | an empty heap whose descriptors and slabs lie apart inside the region, with as many slabs as fit |
| Heap.HeapAllocator.NewSlab | src/memory.c:53-87 | a fresh slab with all its blocks free, or no slab is left; no byte that a live block may use is touched |
| Heap.HeapAllocator.AllocSmall | src/memory.c:63-96 | a block of the smallest class that was not live, zeroed; refused if and only if no block of the class is free and no slab is left, and a slab is carved only then; no byte that a live block may use is written |
| Heap.HeapAllocator.AllocLarge | src/memory.c:110-137 | a run of just enough slabs that was not live, zeroed: from the first free run that is long enough, or fresh; refused if and only if there is none and too few slabs are left; no byte that a live block may use is written |
| Heap.HeapAllocator.Alloc | src/memory.c:139-156 | the requested number of zeroed bytes at a new address, in the smallest class or just enough slabs, the invariant kept; refused, with nothing changed, if and only if the arguments are bad or overflow, or nothing given back serves the request and too few slabs are left |
| Heap.HeapAllocator.Release | src/memory.c:181-193 | exactly this block is no longer live and its space is free for others of its size; no byte that another live block may use is written |
| Heap.HeapAllocator.AllocAgain | src/memory.c:139-193 | what was allocated and released can be had again, without a fresh slab |
| Heap.HeapAllocator.UsableSize | src/memory.c:195-202 | at least what was asked for, and no other live block lies in it |
| Heap.HeapAllocator.Write | src/memory.c:195-202 | a caller may write every byte up to the usable size: the heap stays in order and no other block changes |
| Heap.HeapAllocator.Run | src/memory.c:53-202 | every run of requests, releases and writes to held blocks, up to their usable size, keeps the invariant |
| OneBitRing.HeadTells | src/xhci.c:300-322 | the bit at the head tells if and only if there is a new entry, and then it is the oldest |
| OneBitRing.Consumed | src/xhci.c:300-322 | taking the head entry leaves the queue without it |
| OneBitRing.Produced | src/xhci.c:267-281 | posting at the tail leaves the queue with one more entry at the end |
| XhciRings.PushOk | src/xhci.c:267-281 | a push adds one TRB at the end of the outstanding ones if and only if it is not the 255th while the controller stands on the LINK |
| XhciRings.StuckOnLink | src/xhci.c:275-280 | after that push the controller sees nothing new |
| XhciRings.FetchOk | src/xhci.c:253-281 | a controller that follows cycle bits and the toggle LINK fetches the oldest outstanding TRB, and finds one whenever there is one |
| XhciRings.FetchedInOrder | src/xhci.c:253-281 | in every run with at most 254 outstanding, over any number of laps, what was fetched is what was pushed first |
| XhciRings.CatchesUp | src/xhci.c:253-281 | two looks of the controller fetch a TRB while there is one |
| XhciRings.StuckRun | src/xhci.c:267-281 | a run with 255 outstanding after which the controller never sees the TRBs |
| XhciRings.TrbRing.constructor | src/xhci.c:253-263 | an empty ring for a controller at its start |
| XhciRings.TrbRing.RingPush | src/xhci.c:267-281 | the ring after a push, in place |
| XhciRings.TrbRing.RingReset | src/xhci.c:468-476 | an empty ring for a controller rewound to its start |
| XhciEvents.EventRing.NextEvent | src/xhci.c:300-335 | the oldest event, taken once and at the first look that finds one, whatever the controller posts between looks; none if and only if none came before the deadline |
| NvmeQueues.QueuePair.Submit | src/nvme.c:207-232 | polling takes no stale entry for however long the controller needs, and returns this command's status |
| NvmeQueues.QueuePair.TakeCompletion | src/nvme.c:226-231 | the oldest pending completion is taken once |
| NvmeQueues.QueuePair.Irq | src/nvme.c:234-251 | every pending completion is taken once and the last status reported |
| NvmeQueues.QueuePair.SubmitIrq | src/nvme.c:253-279 | for any number of interrupts, of the controller or of others, before the one that reports it, the waiter gets its own command's status and each completion is counted once |
| NvmeQueues.QueuePair.RunAll | src/nvme.c:207-279 | in every run of commands, polled or by interrupt, over any number of laps, each gets its own status |
| Prp.SamePage | src/paging.c:90-113 | the bytes of a page lie in order in physical memory, large pages included |
| Prp.BuildPrps | src/nvme.c:539-573 | it succeeds if and only if the whole buffer is mapped, and then the controller's reading of the pointers leads byte for byte to the buffer, with at most 512 list entries |
| Prp.DeviceSeesBuffer | src/nvme.c:539-573 | the physical addresses the controller derives from the pointers are, byte for byte, those where the processor finds that part of the buffer |
| Prp.MaxCmdBlocks | src/nvme.c:465-474 | at least one block and at most what one list page covers |
| Prp.MaxCmdBlocksIs | src/nvme.c:465-474 | a block count is at most the cap if and only if one list page covers it and the controller takes it |
| Prp.NextCommand | src/nvme.c:582-600 | the next blocks of the transfer, as many as the cap allows, straight to the buffer if and only if all of that is mapped, and otherwise no more than the bounce page holds |
| Prp.Chunk | src/nvme.c:588-605 | one accepted command, executed on physical memory through its pointers alone, moves its bytes between the buffer as the processor sees it and the namespace, directly or through the bounce page; a refused one moves none; memory outside buffer and bounce page stays |
| Prp.ReadWrite | src/nvme.c:577-611 | the commands follow one another as `Prp.NextCommand` says, and after success the namespace holds the whole buffer, or the buffer, read by the processor, the blocks; a failure comes only from a refused command and leaves exactly the blocks of the commands before it moved; memory outside buffer and bounce page stays |
| Prp.CoveredOnce | src/nvme.c:577-611 | every requested block belongs to exactly one command |
| Mailbox.RunOk | src/smp.c:59-75 | in every interleaving each mailbox, its poster and its worker agree |
| Mailbox.ExactlyOnce | src/smp.c:146-161 | in every interleaving each posted job runs once, in order, with the function and argument posted, and a join has returned only for jobs that ran |
| Mailbox.JobFinishes | src/smp.c:69-75 | a posted job is done after five accesses of its core |
| Spinlock.MutualExclusion | include/spinlock.h:13-27 | in every interleaving of any number of cores at most one is inside, and the lock is taken if and only if one is |
| Spinlock.NoDeadlock | include/spinlock.h:13-22 | a free lock is taken by the next core that tries |
| FsLock.Serialised | src/ext2.c:1234-1272 | in every interleaving of calls under the lock the final state is that of the operations that took effect, one after the other |
| Line.Turn | src/gfx.c:406-415 | one turn of the loop moves the longer axis and keeps the point within half a pixel |
| Line.GfxLine | src/gfx.c:392-417 | for all endpoints: max(abs dx,abs dy) + 1 points from end to end, none past either end, each within half a pixel of the line along the shorter axis |
| Flip.RowDiffers | src/gfx.c:453-462 | true if and only if the rows differ |
| Flip.Display.constructor | src/gfx.c:424-451 | shadow and back buffer start as what the screen shows |
| Flip.Display.FlipTile | src/gfx.c:465-473 | the tile shows the back buffer on screen and in the shadow; every other pixel is as it was |
| Flip.Display.GfxFlip | src/gfx.c:496-535 | the screen shows the back buffer, as after a full flip; the tile count is 0 if and only if it already did |
| Flip.Display.GfxFlipFull | src/gfx.c:477-494 | the screen shows the back buffer, for any pitch |
| Flip.Display.Run | src/gfx.c:424-535 | over any run of draws and flips the shadow is what the screen shows |
| Editor.InsertCharText | src/editor.c:272-286 | inserting a character in a line is inserting it in the text |
| Editor.SplitLineText | src/editor.c:289-317 | splitting a line is inserting a newline in the text |
| Editor.DeleteCharText | src/editor.c:348-358 | deleting a character of a line is deleting it from the text |
| Editor.JoinLinesText | src/editor.c:320-344 | joining two lines deletes the newline between them if and only if the joined line fits |
| Editor.LongJoinLosesText | src/editor.c:320-344 | joining two lines of 200 columns loses the newline and 144 characters |
| Editor.ParseSerialized | src/editor.c:177-254 | parsing what was serialized gives the document back |
| Editor.ParseIs | src/editor.c:177-210 | every text parses to its pieces between newlines, carriage returns taken out, without an empty last piece that is not the only one, the first 1024 lines and 256 columns of each |
| Editor.EveryTextIsJoined | src/editor.c:177-210 | every text is such a list of pieces |
| Editor.UnfinishedLastLine | src/editor.c:199-203 | a document whose file lacks the final newline is read whole |
| Editor.ParseInto | src/editor.c:177-210 | the rows hold the parsed document |
| Editor.Serialize | src/editor.c:237-254 | the whole text, or nothing when it does not fit |
| Editor.Buffer.constructor | src/editor.c:213-233 | the parsed file, or one empty line |
| Editor.Buffer.TypeChar | src/editor.c:272-286 | one character more at the cursor unless the line is full |
| Editor.Buffer.TypeNewline | src/editor.c:289-317 | the line is split at the cursor unless the buffer is full |
| Editor.Buffer.Backspace | src/editor.c:348-367 | the character before the cursor goes, or the line joins the one above |
| Editor.Buffer.Delete | src/editor.c:370-385 | the character at the cursor goes, or the next line joins this one |
| Editor.Buffer.PushUndo | src/editor.c:746-764 | the snapshot is on top of the stack, the oldest of 16 falling off; a document too large leaves the stack |
| Editor.Buffer.Undo | src/editor.c:766-783 | the top snapshot is taken off and read back |
| Editor.Buffer.Edit | src/editor.c:272-385 | in any run of edits, a buffer not marked as changed still holds the document it held |
| Editor.Buffer.EditAndUndo | src/editor.c:746-783 | whatever is edited after a snapshot, undo brings document and cursor back |
| Calendar.NextIsOneMore | src/rtc.c:153-161 | the successor of any valid date maps to exactly one more |
| Calendar.EpochIsZero | src/rtc.c:153-161 | 1970-01-01 maps to 0 |
| Calendar.Increasing | src/rtc.c:153-161 | a later date has a larger number |
| Calendar.CivilHasNumber | src/rtc.c:153-161 | every number is the number of a date |
| Calendar.CivilOfDays | src/rtc.c:153-161 | the number of a date is the count of days from the epoch to it |
| Calendar.EpochIncreasing | src/rtc.c:163-172 | from 1970 on later times have larger epochs |
| Calendar.EpochCountsSeconds | src/rtc.c:163-172 | one second later on the clock is one more, from 1970 on; before it is 0 |

## Left out

- Ext2Fs.Volume.WriteFile: says nothing of the contents for 2^32 bytes and more, whose length the code truncates.
- Ext2Fs.Volume.Remove: requires that the last name is not "." or "..": removing "x/." of an empty directory would free the directory and leave its name, which no caller asks for.
- Ext2Fs.Volume.Run: says that the volume stays consistent; what each operation does is said by the operation.
- Paging.AddressSpace.MapPage: requires that no large page is on the way; the code would treat the large page as a table.
- Paging.AddressSpace.LevelNext: requires that the entry is no large page, for the same reason.
- Paging.AddressSpace.IoMap: requires a window whose page count and end do not wrap, which is when the bound check is right, physical addresses below 2^52, and no large page in the range.
- Frames.FrameAllocator.constructor: requires a frame count, truncated to 32 bits as in the code, that is not within 32 of 2^32, where rounding it up to words would wrap.
- Bcache.Cache.constructor: requires at most 2^31 slots; with more, the doubling of the bucket count would wrap to 0 and not end.
- Heap.HeapAllocator.Alloc: requires a request whose slab count is not truncated and whose end does not wrap; `Heap.CarveRight` says that the code is right exactly then.
- Heap.HeapAllocator.AllocLarge: requires the same.
- Heap.HeapAllocator.AllocSmall: requires that the end of one more slab does not wrap, for the same reason.
- Heap.HeapAllocator.NewSlab: requires the same.
- Heap.HeapAllocator.constructor: requires that the base of the slabs does not wrap; `Heap.BaseWrapsIff` says when.
- Heap.HeapAllocator.Run: requires of every request in the run what Alloc requires, wherever the heap then stands.
- Heap.HeapAllocator.Release: requires NULL or a block handed out before, as the header demands; other pointers are not modelled.
- NvmeQueues.QueuePair.Submit: the timeout and the controller's fatal status are not modelled, nor the path that masks the vector on another core.
- NvmeQueues.QueuePair.SubmitIrq: the timeout and the controller's fatal status are not modelled.
- Bcache.Cache.ReadRun: requires that the block numbers of the run do not wrap at 32 bits, and says what is read only when no eviction on the way can lose a block of the run; the 32-bit product of blocks and sectors per block in the device call is not modelled.
- Line.GfxLine: coordinates are unbounded; `Line.Turn` bounds the error term by three times the sum of the sides.
- Calendar.NextIsOneMore: years are unbounded; the 32-bit range of the code's `int` is not modelled.
- The checks that an ext2 mount makes, the byte layout of superblock, group descriptors and inode table and directory counts in group descriptors; triple-indirect blocks and symbolic links.
- Ext2Mount.Store: the writes of an operation reach the cache once per changed block and in any order, not one by one as the operation makes them, so nothing is said of the device while an operation is under way.
- Ext2Mount.Mounted.constructor: requires a device without bad blocks; `Bcache.Cache.EvictionKeepsView` says what a refused write loses. The superblock, which bypasses the cache, is written without fail.
- Prp.ReadWrite: requires a buffer whose bytes lie at distinct physical addresses and outside the bounce page.
- TCP headers, checksums and the lookup of a connection; the waits of connect and listen; several connections; liveness; streams of 2^31 bytes and more; ARP, which can re-enter the receive path.
- Memory orders weaker than interleaving in the mailbox and the spinlock.
- The zeroing of memory beyond the bytes requested from the heap; the byte layout of a pointer stored in a free block.
- Drawing primitives other than lines, clipping and blending, and drawing without a back buffer.
- The editor's motions, yank register, rendering and key decoding.
- Device bring-up, network protocols above and below TCP, audio, decoders, the shell and the scheduler: device scripts, thin layers or easy members.
