# dvida_oxide, verified

A Dafny model of the parts of the dvida_oxide kernel whose state is hard to get
right, with proofs of what they promise. `dafny verify dfyconfig.toml` checks the
whole project.

| file | models |
|---|---|
| `FrameAllocator.dfy` | the physical frame bitmap: next-fit frames, first-fit runs, release |
| `BlockAllocation.dfy` | the ext2 block allocator: bitmaps, pending set, write-back |
| `BlockTree.dfy` | the block tree of an inode as a mathematical object |
| `BlockIterator.dfy` | the cached iterator that walks and grows that tree |
| `DirBlock.dfy` | directory blocks: the bytes, the list of records they stand for, insert, lookup, delete |
| `Directory.dfy` | a directory of several blocks, read and grown through the iterator |
| `RingChannel.dfy` | the lock-free bounded channel, every interleaving, and its loops in memory |
| `WakerList.dfy`, `AsyncMutex.dfy` | the intrusive circular waker list and the async mutex around it |
| `TaskWake.dfy` | unbounded channel, one-shot cell and executor: no lost wake-up, progress |
| `Crc32.dfy` | the table-driven CRC-32 |
| `Calendar.dfy` | dates and timestamps, the weekday, the closed-form timestamp |
| `Path.dfy` | path components from both ends, normalisation, join, parent |
| `Serialize.dfy` | integers, arrays and derived structs in either byte order |
| `Common.dfy`, `Bits.dfy`, `ModArith.dfy` | shared types; bits of a byte string; facts about remainders |

How the code is read:

- Code that updates objects in place is a class whose methods are proved against a
  function or set of the old state. Concurrent code is a machine whose steps are its
  atomic accesses or critical sections; a run is any sequence of steps of any number
  of threads, and the objects in memory are shown to follow the machine
  (`AsyncMutex.Drive`, `TaskWake.Drive`, `RingChannel.Channel`). Atomics are
  sequentially consistent.
- The file system has 1024-byte blocks, 8192 blocks in a group and 512-byte sectors.
  Disk reads and writes succeed. Blocks carry the allocator's own numbers, group times
  8192 plus bit, as the code computes them. Block numbers fit 32 bits.
- Where 16-, 32- or 64-bit arithmetic can overflow, overflow is modelled: as a panic in
  the directory scan (`ReadHeader`, `RecordLength`), as wrap-around in the positions of
  the ring and in the 16-bit free counts, and as a flag beside the wrapped value in
  `RtcToPosix`.

Places where the code does not do what it is for are stated as theorems: a concrete
case, and the exact condition under which the intended property holds.

- Reading an index in the single-indirect range uses the slot number as a byte offset
  (`BlockIterator.ReadsRightIff`, `Misread`); a hole below a missing pointer block
  reports a stale number (`ReportedNumberIff`, `StaleNumber`). A read fills the
  triple-indirect cache without its block number, and a later set that puts a pointer
  into that block writes it to block 0: the iterator goes on as if it were stored, and
  the device has every index the iterator sees except those below such pointers
  (`Set`, `FlatOnDevice`, `GetThenSet`).
- A block that a file gets by its number is read and written one block before the sector
  that the bitmap bit stands for (`ReadOneBefore`).
- Writing back pending blocks panics exactly when one lies outside group 0, with the
  bits of group 0 already on the disk, and writes to relative sector -1 when nothing is
  pending (`WriteNewlyAllocatedBlocks`); when a request makes such a block pending is
  `LeavesZeroIff`.
- A directory that grows by a block can be scanned afterwards, with the entry in it,
  exactly when it had at most 12 blocks and the inode slot of that number was in use
  (`NewBlockSeenIff`, `AddDirEntry`). Otherwise it ends in a hole, because the
  iterator's pointers are not copied to the inode (`InodeReachesIff`, `GrowsIntoHole`),
  or in block 13, which is reached but cannot be read (`AtMostThirteen`).
- A memory map entry off the page boundary frees a frame outside of it (`AlignedIff`).
- A file name is read back exactly when it is ASCII (`ReadBackIff`, `EntryRoundTrip`,
  `AddThenFindIff`); deleting the first record of a block corrupts the block exactly
  when the name, written out again, does not fit the record (`PadHere`, `PadTooShort`,
  `DeleteAt`).
- Overlapping calls on the ring can strand a published message (`Stranded`): no receive
  finds it exactly when no position between the read and the write position selects its
  slot (`StrandedIff`). Calls that do not overlap act as a queue exactly as long as no
  send meets a waiting message in its slot (`SequentialIff`), which needs a capacity that
  does not divide 2^64 and positions that have wrapped (`ClearUnlessWrapped`,
  `WrapRefuses`).
- A lock future misses its wake-up in two ways. It can register after the unlocking
  thread has been at the list (`SleepsOnFreeMutex`): somebody will still come exactly
  when the mutex is locked or a thread that unlocked it is on its way
  (`RegisteredInTimeIff`, `StillComingIff`). And a future that was woken and finds the
  mutex locked again does not register again (`SleepsUnlisted`): it ends its poll in the
  list exactly when it had no node or its node was still there (`AsleepInListIff`,
  `InListIff`), and others can wake it exactly then (`WakeableIff`).
- A consumer asleep on a closed channel hears of it exactly when it is queued already
  (`ClosedHeardIff`, `ClosedUnheard`).
- Before 1970 no timestamp becomes a valid date with that timestamp
  (`UnixTimestampToDatetime`, `RoundTripTimestamp`).
- The closed-form timestamp is 59 days behind for every date (`PosixIsBehind`,
  `PosixNeverRight`).

## Model

| member | source | states |
|---|---|---|
| FrameAllocator.BitmapAllocator.Fill | kernel/src/arch/x86_64/memory/bitmap.rs:57-76 | afterwards a frame is free exactly when some usable memory map entry covers it |
| FrameAllocator.BitmapAllocator.SetUnusedByAddress | kernel/src/arch/x86_64/memory/bitmap.rs:91-102 | the free set gains exactly the frames of the region |
| FrameAllocator.BitmapAllocator.SetUsedByAddress | kernel/src/arch/x86_64/memory/bitmap.rs:78-89 | the free set loses exactly the frames of the region |
| FrameAllocator.AlignedIff | kernel/src/arch/x86_64/memory/bitmap.rs:67-75 | an entry frees only frames inside it if and only if it starts on a page boundary or is shorter than a page; if aligned it frees all of them |
| FrameAllocator.BitmapAllocator.IsMarked | kernel/src/arch/x86_64/memory/frame_allocator.rs:43-52 | the whole-byte shortcut never changes the answer whether a frame is free |
| FrameAllocator.BitmapAllocator.AllocateFrame | kernel/src/arch/x86_64/memory/frame_allocator.rs:84-117 | returns the lowest free frame from `next` on or, if there is none, the lowest of all; marks only it, advances `next`; None if and only if no frame is free |
| FrameAllocator.BitmapAllocator.AllocateContinuousFrames | kernel/src/arch/x86_64/memory/frame_allocator.rs:29-80 | returns the lowest run of `len` adjacent free frames and marks exactly those; None if and only if there is none; the odd case `len` = 0 exactly |
| FrameAllocator.ScanStep | kernel/src/arch/x86_64/memory/frame_allocator.rs:38-53 | one step of the run search keeps: no run ends earlier, and the current stretch of free frames is maximal |
| FrameAllocator.ScanEnd | kernel/src/arch/x86_64/memory/frame_allocator.rs:38-79 | a search that ends without a hit proves there is no run anywhere |
| FrameAllocator.VisitsAll | kernel/src/arch/x86_64/memory/frame_allocator.rs:90-91 | the cyclic walk from any start meets every frame |
| FrameAllocator.FirstIsNext | kernel/src/arch/x86_64/memory/frame_allocator.rs:90-98 | the first free frame that the walk meets is the lowest from its start on, or the lowest of all |
| Bits.BitIs | kernel/src/arch/x86_64/memory/bitmap.rs:85-100 | bit 8k + j of a bitmap is binary digit j of byte k, so a frame or block is free exactly when that digit is 0 |
| FrameAllocator.BitmapAllocator.FreeFrames | kernel/src/arch/x86_64/memory/frame_allocator.rs:20-27 | the free set gains exactly the given frames |
| FrameAllocator.Apply | kernel/src/arch/x86_64/memory/frame_allocator.rs:20-118 | each operation moves between free set and caller exactly the frames it reports, as many as asked if that is possible |
| FrameAllocator.Run | kernel/src/arch/x86_64/memory/frame_allocator.rs:20-118 | over every run from `fill`, the bitmap is the free set the history gives, and no frame is handed out while it is live |
| BlockAllocation.AddressesStrictlyIncrease | kernel/src/drivers/fs/ext2/structs.rs:31-40 | sector addresses, and block numbers, identify (group, bit); the pending set orders by address alone and so confuses no two blocks |
| BlockAllocation.NumberIs | kernel/src/drivers/fs/ext2/allocator.rs:136-147 | number divided by 8192 is the group, with the bit as remainder, and the address is 2 plus twice the number |
| BlockAllocation.ReadOneBefore | kernel/src/drivers/fs/ext2/managers.rs:22-24 | the sector at which a number is read and written is never the address of its block, and is the address of exactly the block with the number before |
| BlockAllocation.FoundByAddress | kernel/src/drivers/fs/ext2/create_file.rs:25-29 | searching the pending set by address finds exactly the block asked for |
| BlockAllocation.BitIterator.Next | kernel/src/crypto/iterators.rs:59-88 | yields the bits of the buffer lowest first and advances by one, None exactly at the end |
| BlockAllocation.SearchOrderExact | kernel/src/drivers/fs/ext2/allocator.rs:33-176 | the order in which a request looks lists every available block once and nothing else |
| BlockAllocation.SearchOrdered | kernel/src/drivers/fs/ext2/allocator.rs:33-176 | and in order: the group asked for first, then the others by number, each from its lowest bit |
| BlockAllocation.FirstTaken | kernel/src/drivers/fs/ext2/allocator.rs:111-176 | taking the first block leaves the others in their order |
| BlockAllocation.BlockAllocator.ScanGroup | kernel/src/drivers/fs/ext2/allocator.rs:60-101 | takes the lowest available blocks of a group, up to the number wanted, and makes exactly those pending |
| BlockAllocation.BlockAllocator.AllocateNBlocks | kernel/src/drivers/fs/ext2/allocator.rs:33-109 | serves from all groups but one, in order; fails exactly when they have too few blocks |
| BlockAllocation.BlockAllocator.AllocateNBlocksInGroup | kernel/src/drivers/fs/ext2/allocator.rs:111-176 | succeeds if and only if enough blocks over all groups are clear and not pending; returns that many distinct ones and makes exactly those pending; a failing request keeps every available block pending; bit number % 8192 of bitmap number / 8192 was clear for every number returned |
| BlockAllocation.RequestEffect | kernel/src/drivers/fs/ext2/allocator.rs:111-176 | what a request takes is distinct and available, and what is left is the rest |
| BlockAllocation.BlockAllocator.MarkPending | kernel/src/drivers/fs/ext2/allocator.rs:182-214 | visits the pending blocks in address order and sets their bits in the buffer; panics exactly when a block of a group above 0 is pending, and then group 0's bitmap is on the disk with exactly its pending bits set, if it had any |
| BlockAllocation.BlockAllocator.WriteNewlyAllocatedBlocks | kernel/src/drivers/fs/ext2/allocator.rs:178-252 | panics if and only if a block of a group above 0 is pending, leaving the pending set, the counts and every other bitmap as they were and the bits of group 0 set; otherwise sets exactly the pending bits, empties the set, changes no other bitmap, keeps what is available and keeps exact free counts exact; with nothing pending it writes to sector -1 |
| BlockAllocation.LeavesZeroIff | kernel/src/drivers/fs/ext2/allocator.rs:33-176 | a request makes a block outside of group 0 pending if and only if it wants more blocks than come before the first such block, and there is one |
| BlockAllocation.WriteBackEffect | kernel/src/drivers/fs/ext2/allocator.rs:200-248 | setting the pending bits turns "clear and not pending" into "clear" and lowers the count by their number |
| BlockAllocation.Run | kernel/src/drivers/fs/ext2/allocator.rs:33-252 | over every run of requests and write-backs no block number is handed out twice, each names a bit that was clear at the start, and exact counts stay exact |
| BlockTree.LinkNode | kernel/src/drivers/fs/ext2/block_iterator.rs:282-440 | storing one unused block number in one empty slot changes exactly one node of the whole tree |
| BlockTree.LinkEffect | kernel/src/drivers/fs/ext2/block_iterator.rs:282-440 | it keeps the tree free of aliases |
| BlockTree.PathOfInjective | kernel/src/drivers/fs/ext2/block_iterator.rs:449-540 | different indices have different paths through the tree |
| BlockTree.PathOfOnto | kernel/src/drivers/fs/ext2/read.rs:19-26 | every data slot of the tree is the slot of some index below the triple limit |
| BlockTree.PathOfOrdered | kernel/src/drivers/fs/ext2/block_iterator.rs:201-272 | the indices number the data blocks in the order of a walk of the tree |
| BlockTree.GrowDone | kernel/src/drivers/fs/ext2/block_iterator.rs:449-552 | a completed growth along the path of one index maps that index and no other |
| BlockTree.GrowOwned | kernel/src/drivers/fs/ext2/block_iterator.rs:449-552 | the blocks the tree gains are exactly those listed as new |
| BlockTree.GrownCount | kernel/src/drivers/fs/ext2/block_iterator.rs:449-552 | a growth that is complete, or has come to an absent node, has added exactly the nodes that were missing on the way |
| BlockTree.GrownKeeping | kernel/src/drivers/fs/ext2/block_iterator.rs:449-552 | a growth, complete or not, keeps every node and what every data block holds; an inode with the old pointers stands for the new tree or for one with the old nodes |
| BlockTree.InodeReachesIff | kernel/src/drivers/fs/ext2/dirs.rs:87-104 | the inode's old pointers reach a block that the iterator added if and only if the inode slot on the way to it was in use |
| BlockTree.WriteData | kernel/src/drivers/fs/ext2/dirs.rs:77-101 | writing a data block changes no node of the tree |
| BlockIterator.InodeBlockIterator.constructor | kernel/src/drivers/fs/ext2/block_iterator.rs:19-38 | starts at index 0 with the inode's pointers and coherent, empty caches |
| BlockIterator.LinkSound | kernel/src/drivers/fs/ext2/block_iterator.rs:282-440 | linking a block and writing through one cache keeps all three caches equal to the disk blocks they are tagged with |
| BlockIterator.InodeBlockIterator.AllocateOne | kernel/src/drivers/fs/ext2/block_iterator.rs:304-309 | the block it gets is the first in the order in which the allocator looks from the inode's group, the rest is left, and it is nowhere in the tree; None if and only if there is none |
| BlockIterator.InodeBlockIterator.HandleSetBlock | kernel/src/drivers/fs/ext2/block_iterator.rs:282-324 | fills the last pointer of the path if it is empty and reports the block it holds |
| BlockIterator.InodeBlockIterator.HandleSetIndirectBlock | kernel/src/drivers/fs/ext2/block_iterator.rs:326-374 | the same for the last two pointers; a failure leaves a tree that is grown part of the way and no block available |
| BlockIterator.InodeBlockIterator.HandleSetDoubleIndirectBlock | kernel/src/drivers/fs/ext2/block_iterator.rs:376-418 | the same for the last three pointers, whether or not the cached block carries its number |
| BlockIterator.InodeBlockIterator.HandleBlockInBlocksArray | kernel/src/drivers/fs/ext2/block_iterator.rs:420-447 | the same for the pointer in the inode, with a cleared block behind it |
| BlockIterator.InodeBlockIterator.Set | kernel/src/drivers/fs/ext2/block_iterator.rs:449-552 | the tree that the iterator sees becomes the old flat map with the current index mapped to the reported non-zero block, every other index as before; the new blocks, at most four and none if it was mapped, are exactly the blocks the tree gained; it fails, leaving the flat map unchanged, if and only if fewer blocks are available than are missing on the way; on the device the index is mapped if and only if the triple-indirect block was not cached by a read or has the pointer already, and otherwise nothing is; the inode's old pointers reach it if and only if, besides, the inode slot on the way was in use; the new blocks are the first of those available, in order; no block that is neither in the tree nor available is written to |
| BlockIterator.InodeBlockIterator.NextSet | kernel/src/drivers/fs/ext2/block_iterator.rs:175-180 | the same mapping, seen and on the device, and moves to the next index if and only if it succeeded |
| BlockIterator.InodeBlockIterator.HandleIndBlock | kernel/src/drivers/fs/ext2/block_iterator.rs:80-113 | follows a single-indirect pointer through the cache as without it; panics exactly on an unaligned offset |
| BlockIterator.InodeBlockIterator.HandleDoubleIndBlock | kernel/src/drivers/fs/ext2/block_iterator.rs:115-158 | follows a double-indirect pointer through the caches as without them |
| BlockIterator.InodeBlockIterator.Get | kernel/src/drivers/fs/ext2/block_iterator.rs:196-280 | returns what the uncached definition of reading gives, in every state of the caches, and changes no mapping; it leaves the triple-indirect block cached without its number if and only if it was so or this is the first access to that block |
| BlockIterator.InodeBlockIterator.Next | kernel/src/drivers/fs/ext2/block_iterator.rs:160-173 | terminates exactly at the block limit; otherwise reads and moves on |
| BlockIterator.TerminatesIff | kernel/src/drivers/fs/ext2/block_iterator.rs:196-280 | a read that does not panic reports the end if and only if the low 32 bits of the index are at or past the last block, and then leaves the buffer alone |
| BlockIterator.PanicsIff | kernel/src/drivers/fs/ext2/block_iterator.rs:196-280 | the exact indices at which a read panics |
| BlockIterator.ReadsRightIff | kernel/src/drivers/fs/ext2/block_iterator.rs:199-279 | reading index n yields the block of the tree, zeros for holes, on every well-formed tree if and only if not 13 <= n < 268 |
| BlockIterator.Misread | kernel/src/drivers/fs/ext2/block_iterator.rs:201-208 | for each such n, a well-formed tree that is misread |
| BlockIterator.EveryFourth | kernel/src/drivers/fs/ext2/block_iterator.rs:201-208 | with an indirect block, every fourth index of its range is read, and they yield the first 64 blocks of the range |
| BlockIterator.ReportedNumberIff | kernel/src/drivers/fs/ext2/block_iterator.rs:275-279 | the block number reported beside the buffer is right if and only if the pointer block exists or the last number reported was 0 |
| BlockIterator.StaleNumber | kernel/src/drivers/fs/ext2/block_iterator.rs:89-92 | for every such index, a file of one block for which, after its first read, the number of that block is reported |
| BlockIterator.FlatOnDevice | kernel/src/drivers/fs/ext2/block_iterator.rs:376-405 | in every state an index is mapped on the device, to the block that the iterator sees, if and only if the iterator sees it and the pointer to its triple-indirect subtree, if it is in one, is on the device |
| BlockIterator.GetThenSet | kernel/src/drivers/fs/ext2/block_iterator.rs:225-255 | a read in the triple range and then a set whose pointer goes into the triple-indirect block: the iterator has the block, the device does not |
| BlockIterator.OnlyTriple | kernel/src/drivers/fs/ext2/block_iterator.rs:225-255 | for every index of that range there is a file for which that happens |
| BlockIterator.FlatInjective | kernel/src/drivers/fs/ext2/block_iterator.rs:449-552 | in a well-formed tree two indices never share a block |
| BlockIterator.Run | kernel/src/drivers/fs/ext2/block_iterator.rs:160-552 | every run of skip, set and get acts as assignments to a flat map: old and new mappings stay, two assignments agree on the block if and only if they are to the same index, reads change nothing; the device holds the mappings below pointers that its triple-indirect block has, which are all of them unless a read cached that block before it was set |
| DirBlock.MinRecLenRounds | kernel/src/drivers/fs/ext2/mod.rs:190-194 | the smallest record is header and name rounded up to a multiple of four |
| DirBlock.RecordLengthIs | kernel/src/drivers/fs/ext2/mod.rs:211-222 | for names that can be stored the 16-bit computation is that size, or the larger length given |
| DirBlock.ReadBackIff | kernel/src/drivers/fs/ext2/mod.rs:269-276 | a name written as UTF-8 and read one character per byte comes back if and only if it is ASCII; only then is its length kept |
| DirBlock.SerializeEntry | kernel/src/drivers/fs/ext2/mod.rs:293-316 | success exactly when the name has at most 255 bytes and fits; then the fields are at their places and nothing else changed; the error cases exactly |
| DirBlock.EntryIsSerialized | kernel/src/drivers/fs/ext2/mod.rs:293-316 | the bytes of an entry are the little-endian encoding of inode, length, name length and type by the serializer, then the name |
| DirBlock.DeserializeEntry | kernel/src/drivers/fs/ext2/mod.rs:253-290 | fails exactly when header or name is cut short; otherwise the fields and the record length |
| DirBlock.HeaderIsDeserialized | kernel/src/drivers/fs/ext2/mod.rs:253-270 | the fields of a record are what the serializer decodes there |
| DirBlock.EntryRoundTrip | kernel/src/drivers/fs/ext2/mod.rs:253-317 | an entry is read back unchanged if and only if its name is ASCII |
| DirBlock.TilesFrame | kernel/src/drivers/fs/ext2/dirs.rs:50-84 | the records of a range depend on its bytes only |
| DirBlock.SplitBytes | kernel/src/drivers/fs/ext2/dirs.rs:67-75 | the two writes of an insertion keep the tiling and turn the record into itself, shortened, and the new entry; all other records are intact |
| DirBlock.MergeBytes | kernel/src/drivers/fs/ext2/open.rs:74-84 | the write of a deletion keeps the tiling and makes the predecessor absorb the record |
| DirBlock.PadHere | kernel/src/drivers/fs/ext2/open.rs:63-72 | turning the first record into padding reads as its removal if and only if the length written is the old one |
| DirBlock.SplitLive | kernel/src/drivers/fs/ext2/dirs.rs:58-75 | a split adds exactly one live entry, behind those up to the split record |
| DirBlock.SplitFind | kernel/src/drivers/fs/ext2/dirs.rs:58-75 | after a split other names are found as before and the new one is found unless an earlier record carries it |
| DirBlock.RemoveLive | kernel/src/drivers/fs/ext2/open.rs:60-90 | removing a record removes exactly its entry |
| DirBlock.RemoveFind | kernel/src/drivers/fs/ext2/open.rs:60-90 | after the first match is removed the name is found exactly as in the records behind it, so not at all if it was unique |
| DirBlock.RemoveFindOther | kernel/src/drivers/fs/ext2/open.rs:60-90 | other names are found as before |
| DirBlock.SplitThenRemove | kernel/src/drivers/fs/ext2/open.rs:74-82 | deleting an entry just split off restores the list of records, lengths included |
| DirBlock.ReadHeader | kernel/src/drivers/fs/ext2/dirs.rs:51-59 | the exact fault of a header on any block: it reaches past the block (Corrupted), or the slice or the 16-bit arithmetic panics; otherwise the length and what the name needs |
| DirBlock.InsertEntry | kernel/src/drivers/fs/ext2/dirs.rs:67-75 | done at the first record with room it has the effect of an insertion on the list of records |
| DirBlock.AddEntryInBlock | kernel/src/drivers/fs/ext2/dirs.rs:48-84 | on every block that records tile: inserted if and only if some record has the slack, and then the list is the old one with the first such record split; otherwise the block is unchanged; terminates on every block; a name above 255 bytes is never inserted; on every other block: what the walk along the lengths meets first, a record with the slack or a fault, and without an insertion no byte changes |
| DirBlock.DeleteAt | kernel/src/drivers/fs/ext2/open.rs:61-86 | in a tiled block: it holds the old records without the first match if and only if the match is not the first record or the name written out again fits it; in any block: fails if and only if the merged length does not fit 16 bits |
| DirBlock.FindInBlock | kernel/src/drivers/fs/ext2/open.rs:22-101 | for every block: the first match, nothing, or the fault that comes first, an entry cut short, a length above the size left, or a length of zero that never ends; in a tiled block: the inode of the first live record of that name if and only if there is one ("." and ".." excluded), with the bytes left counted down exactly; without deletion nothing changes |
| DirBlock.DotsNotFound | kernel/src/drivers/fs/ext2/open.rs:49-57 | "." and ".." are found in no list of records |
| DirBlock.SightTiled | kernel/src/drivers/fs/ext2/open.rs:34-98 | with the whole block to go, that definition finds the first match of a tiled block and meets no fault |
| DirBlock.PadTooShort | kernel/src/drivers/fs/ext2/open.rs:63-72 | a first record whose name has bytes above 127 and no slack is one the deletion corrupts |
| Directory.Dir.AddDirEntry | kernel/src/drivers/fs/ext2/dirs.rs:18-106 | the entry is put into the first block that has room, or alone into a new last block: one live entry more, the new name found, all others found as before; no block in use elsewhere is written to; fails for want of space if and only if no record has the slack and the allocator lacks the blocks; the directory can be scanned afterwards if and only if a record had the slack, or it had at most 12 blocks and the inode slot of that number was in use; otherwise its last block is a hole or cannot be read |
| Directory.NewBlockSeenIff | kernel/src/drivers/fs/ext2/dirs.rs:87-104 | what the iterator reads back after a block was added: the blocks before and the new one if and only if there were at most 12 and the inode slot was in use |
| Directory.AtMostThirteen | kernel/src/drivers/fs/ext2/block_iterator.rs:201-208 | no directory of more than 13 blocks can be scanned |
| Directory.GrowsIntoHole | kernel/src/drivers/fs/ext2/dirs.rs:87-104 | every full directory of fewer than 12 blocks, with no block behind its last, loses the entry it grows for |
| Directory.EmptyDirectory | kernel/src/drivers/fs/ext2/dirs.rs:87-104 | a directory without blocks is one |
| Directory.GrownInside | kernel/src/drivers/fs/ext2/dirs.rs:48-84 | an insertion into one block is an insertion into the directory |
| Directory.GrownBehind | kernel/src/drivers/fs/ext2/dirs.rs:87-104 | so is a new last block that holds the entry alone |
| Directory.AddThenFindIff | kernel/src/drivers/fs/ext2/dirs.rs:34-85 | a new name is found after it was added if and only if it is ASCII |
| Directory.Dir.FindEntry | kernel/src/drivers/fs/ext2/open.rs:129-185 | returns the first match over all blocks, as the iterator reads them; a deletion changes one block, which reads as the removal of that record if and only if the name fits it; then the name is found only if a later record carries it and all others as before; no other block is written to |
| Directory.AsciiPadFits | kernel/src/drivers/fs/ext2/open.rs:63-72 | an ASCII name always fits the record it is deleted from |
| RingChannel.StepInv | kernel/src/ejcineque/sync/mpsc/bounded.rs:77-159 | every atomic access of any thread keeps exclusive ownership of claimed slots and the conservation of messages |
| RingChannel.Reachable | kernel/src/ejcineque/sync/mpsc/bounded.rs:77-159 | in every state of every interleaving of any number of threads, states 1 and 3 have exactly one owner, and as multisets accepted = taken + published and offered = refused + returned + in slots + in hand |
| RingChannel.PositionsAdvance | kernel/src/ejcineque/sync/mpsc/bounded.rs:107-154 | over every run each position has moved forward by one for every completed call and every successful move past a slot, never back |
| RingChannel.NoBadAccess | kernel/src/ejcineque/sync/mpsc/bounded.rs:101-106 | no thread ever overwrites a full slot or reads an uninitialised one |
| RingChannel.SendFindsFirst | kernel/src/ejcineque/sync/mpsc/bounded.rs:77-122 | in every state, a send that nobody interrupts fills the first empty slot at the positions it tries; refused if and only if closed or none of them selects one |
| RingChannel.SendQueuesIff | kernel/src/ejcineque/sync/mpsc/bounded.rs:77-122 | if the ring holds a queue with room, such a send appends to it if and only if the slot at the write position is empty |
| RingChannel.RecvFindsFirst | kernel/src/ejcineque/sync/mpsc/bounded.rs:124-159 | in every state, a receive that nobody interrupts takes the first published message between the positions; none if and only if no position between them selects one |
| RingChannel.RecvQueues | kernel/src/ejcineque/sync/mpsc/bounded.rs:124-159 | if the ring holds a queue, such a receive takes the oldest message and leaves the rest, or reports none if and only if it is empty, wherever the positions are |
| RingChannel.ClearUnlessWrapped | kernel/src/ejcineque/sync/mpsc/bounded.rs:85-95 | the slot at the write position of a queue with room is empty if the capacity divides 2^64 or the positions have not wrapped |
| RingChannel.SequentialIff | kernel/src/ejcineque/sync/mpsc/bounded.rs:77-159 | any sequence of calls that do not overlap, by any threads, acts as a bounded FIFO queue throughout if and only if no send meets a waiting message in its slot |
| RingChannel.SequentialFromStart | kernel/src/ejcineque/sync/mpsc/bounded.rs:56-159 | from a new channel that is every sequence, for a capacity that divides 2^64, and every one of fewer than 2^64 calls for any other |
| RingChannel.WrapRefuses | kernel/src/ejcineque/sync/mpsc/bounded.rs:85-119 | calls after which a ring of three slots that holds two messages refuses a third |
| RingChannel.Channel.TrySend | kernel/src/ejcineque/sync/mpsc/bounded.rs:77-122 | the loop over the buffer makes exactly the accesses of the machine, at most 7 + 4 * capacity; it fills the first empty slot it tries, is refused if and only if closed or there is none, and on a queue whose next slot is empty acts as the queue |
| RingChannel.Channel.TryRecv | kernel/src/ejcineque/sync/mpsc/bounded.rs:124-159 | the same for a receive: the first published message between the positions, none if and only if no position there selects one; on a queue it acts as the queue |
| RingChannel.StrandedIff | kernel/src/ejcineque/sync/mpsc/bounded.rs:124-159 | no number of receives returns a published message if and only if no position between the read and the write position selects its slot |
| RingChannel.ReachableTame | kernel/src/ejcineque/sync/mpsc/bounded.rs:77-159 | every run leaves the ring in a state to which that applies |
| RingChannel.Stranded | kernel/src/ejcineque/sync/mpsc/bounded.rs:92-158 | a run of two overlapping sends and receives after which no receive finds a published message |
| WakerList.List.Insert | kernel/src/ejcineque/sync/mutex.rs:147-180 | the node joins at the head; every neighbour link of the circle is consistent again; the wakers are the old ones behind the new one |
| WakerList.List.Remove | kernel/src/ejcineque/sync/mutex.rs:217-235 | the node at the tail leaves and its waker is returned, None if and only if the list was empty; every link is consistent again |
| AsyncMutex.StepOneGuard | kernel/src/ejcineque/sync/mutex.rs:96-111 | every step keeps: at most one live guard, and Locked if and only if there is one |
| AsyncMutex.StepOneEditor | kernel/src/ejcineque/sync/mutex.rs:63-87 | every step keeps: at most one thread inside the list lock, and the lock is held exactly then |
| AsyncMutex.StepInOrder | kernel/src/ejcineque/sync/mutex.rs:144-239 | every step keeps: wakers joined = wakers woken followed by wakers waiting, oldest first |
| AsyncMutex.Reachable | kernel/src/ejcineque/sync/mutex.rs:96-239 | all three in every state of every interleaving |
| AsyncMutex.WakesOldest | kernel/src/ejcineque/sync/mutex.rs:221-233 | a guard dropped while someone waits wakes the one who joined first of those not yet woken |
| AsyncMutex.TakesIff | kernel/src/ejcineque/sync/mutex.rs:96-140 | over every run an idle thread that tries or polls gets the guard if and only if no thread has it; else only a poll goes on to the list |
| AsyncMutex.PollWaits | kernel/src/ejcineque/sync/mutex.rs:142-185 | a poll of the locked mutex makes its thread the newest in the list if its future has no node, and changes nothing else |
| AsyncMutex.HandOver | kernel/src/ejcineque/sync/mutex.rs:138-239 | the drop of the guard followed by a poll of the thread that has waited longest makes that thread the guard |
| AsyncMutex.ServedInOrder | kernel/src/ejcineque/sync/mutex.rs:138-239 | so the guard goes through the whole list in the order in which they joined |
| AsyncMutex.Drive | kernel/src/ejcineque/sync/mutex.rs:134-239 | the linked list in memory holds exactly the queue of the machine after any run |
| AsyncMutex.RegisteredInTimeIff | kernel/src/ejcineque/sync/mutex.rs:138-185 | after a future has registered, somebody will come to the list if and only if the mutex is locked or a thread that unlocked it has not reached the list yet |
| AsyncMutex.StillComingIff | kernel/src/ejcineque/sync/mutex.rs:207-239 | while somebody waits, the steps under way wake somebody if and only if the mutex is locked or a thread that unlocked it is on its way to the list |
| AsyncMutex.AsleepInListIff | kernel/src/ejcineque/sync/mutex.rs:144-185 | over every run, a poll that finds the mutex locked ends in the list if and only if the future had no node or the wake-ups have not reached the place at which it last joined |
| AsyncMutex.InListIff | kernel/src/ejcineque/sync/mutex.rs:144-239 | in every reachable state a future with a node is in the list if and only if the wake-ups have not reached the place at which it last joined |
| AsyncMutex.WakeableIff | kernel/src/ejcineque/sync/mutex.rs:131-239 | some run of the other threads wakes a sleeping thread if and only if it is in the list and there are others |
| AsyncMutex.SleepsOnFreeMutex | kernel/src/ejcineque/sync/mutex.rs:138-185 | a reachable state in which a thread sleeps in the list, the mutex is free and nobody is on the way to wake it |
| AsyncMutex.SleepsUnlisted | kernel/src/ejcineque/sync/mutex.rs:138-185 | a reachable poll, of a woken future that finds the mutex locked again, that ends with no run of the others able to wake it |
| TaskWake.StepChan | kernel/src/ejcineque/sync/mpsc/unbounded.rs:34-90 | every step keeps the channel's invariant: a waiting consumer is queued, or the buffer is empty and its waker registered |
| TaskWake.StepCell | kernel/src/ejcineque/sync/spsc/cell.rs:27-61 | every step keeps the same for the one-shot cell |
| TaskWake.NoLostWakeup | kernel/src/ejcineque/executor.rs:37-173 | in every reachable state a task whose last poll was Pending with something to receive is in the run queue; sent = received followed by buffered; the cell's value comes out at most once |
| TaskWake.PolledInTime | kernel/src/ejcineque/executor.rs:110-173 | a queued, unfinished task is polled before the run loop has popped more ids than were ahead of it |
| TaskWake.MessageIsSeen | kernel/src/ejcineque/executor.rs:110-173 | so a sleeping consumer with a message is polled within that many pops |
| TaskWake.WokenInTurn | kernel/src/ejcineque/sync/mpsc/unbounded.rs:35-44 | any sends put their messages behind the others and wake the tasks that have waited longest, one each, until none is left |
| TaskWake.SentComesOut | kernel/src/ejcineque/sync/mpsc/unbounded.rs:35-89 | what was sent comes out behind what was there, in order and once each |
| TaskWake.PendingIsWoken | kernel/src/ejcineque/sync/mpsc/unbounded.rs:35-89 | a poll of an empty, open channel waits, and the send after those for the tasks before it wakes it |
| TaskWake.PolledToTheEnd | kernel/src/ejcineque/sync/mpsc/unbounded.rs:74-89 | without a sender the messages left come out in order, every later poll ends the stream and no waker is registered; with a sender the later polls all wait |
| TaskWake.EndsIff | kernel/src/ejcineque/sync/mpsc/unbounded.rs:74-89 | over every run a poll ends the stream if and only if the buffer is empty and there is no sender; then everything sent has been received and nothing follows |
| TaskWake.ClosedDrains | kernel/src/ejcineque/sync/mpsc/unbounded.rs:74-89 | over every run after the last sender is gone, each poll takes the next message or ends the stream, and the consumer never waits |
| TaskWake.PoppedAsWoken | kernel/src/ejcineque/executor.rs:37-41 | over every run the ids popped are those queued at first and those woken since, in that order and once each |
| TaskWake.OnlyTasksPolled | kernel/src/ejcineque/executor.rs:128-150 | a poll starts exactly when the id of an unfinished task is popped |
| TaskWake.SpawnedIsPolled | kernel/src/ejcineque/executor.rs:50-100 | a new task is polled once those queued before it have been popped |
| TaskWake.FinishedIsGone | kernel/src/ejcineque/executor.rs:150-173 | a task that has returned is not polled again, however often it is woken |
| TaskWake.PutIsGotOnce | kernel/src/ejcineque/sync/spsc/cell.rs:28-61 | however often an empty cell is polled before it is set, setting it wakes the last who polled, the next poll takes the value and the one after that waits |
| TaskWake.Drive | kernel/src/ejcineque/executor.rs:37-173 | channel, cell and run queue in memory follow the machine over any run |
| TaskWake.ClosedUnheard | kernel/src/ejcineque/sync/mpsc/unbounded.rs:28-32 | a run after which the consumer sleeps on a closed channel and is not queued |
| TaskWake.ClosedStaysUnheard | kernel/src/ejcineque/sync/mpsc/unbounded.rs:28-32 | from such a state it is never polled again unless a waker from elsewhere queues it |
| TaskWake.ClosedHeardIff | kernel/src/ejcineque/sync/mpsc/unbounded.rs:28-32 | in every reachable state in which the consumer sleeps on a closed channel it is polled again, within enough pops and with no waker from elsewhere, if and only if it is queued |
| Crc32.EntryIs | kernel/src/crypto/crc32.rs:4-37 | each of the 256 table words is eight steps of the bitwise division |
| Crc32.PartialCrc | kernel/src/crypto/crc32.rs:39-43 | the table loop equals the bit-at-a-time division of section 8 of RFC 1952, from any running value |
| Crc32.FullCrc | kernel/src/crypto/crc32.rs:52-59 | the checksum of that division for every byte string |
| Crc32.IsVerifiedCrc32 | kernel/src/crypto/crc32.rs:45-50 | accepts exactly the checksum |
| Crc32.Step8Sum | kernel/src/crypto/crc32.rs:39-43 | eight division steps are linear over exclusive or |
| Crc32.DivideConcat | kernel/src/crypto/crc32.rs:39-43 | a running checksum can be continued over a concatenation |
| Crc32.UndoDivide | kernel/src/crypto/crc32.rs:39-43 | the division can be run backwards: the register before the bytes is determined by the one after |
| Crc32.BurstDetected | kernel/src/crypto/crc32.rs:52-59 | inputs of one length that differ only within four adjacent bytes, in particular in one byte, share a checksum if and only if they are equal |
| Crc32.CheckValue | kernel/src/crypto/crc32.rs:52-75 | the checksum of the test data 31 32 33 34 is 9BE3E0A3 |
| Crc32.Residue | kernel/src/crypto/crc32.rs:45-59 | data followed by its own checksum always has the checksum 2144DF1C |
| Calendar.DatetimeToUnixTimestamp | kernel/src/time/mod.rs:224-272 | the loops compute the day count of the calendar for every field value; a month above 13 panics |
| Calendar.UnixTimestampToDatetime | kernel/src/time/mod.rs:280-330 | for every timestamp from 0 on: a valid date with that timestamp and the right weekday; fails if and only if the year does not fit 16 bits; for every one before: a day of January 1970, never a valid date with that timestamp |
| Calendar.RoundTripTimestamp | kernel/src/time/mod.rs:224-330 | timestamp to date to timestamp is the identity if and only if the year fits and the timestamp is not negative, or is minus one day |
| Calendar.RoundTripDate | kernel/src/time/mod.rs:224-330 | date to timestamp to date is the identity on valid dates, with the weekday set right |
| Calendar.TimestampInjective | kernel/src/time/mod.rs:224-272 | two valid dates with one timestamp are equal up to the weekday field |
| Calendar.YearsClosed | kernel/src/time/mod.rs:235-242 | the year loop in closed form |
| Calendar.DayNumberClosed | kernel/src/time/formats.rs:10-17 | the loop day count equals the shifted-year expression with its own constant 719469 |
| Calendar.WeekdayIs | kernel/src/time/mod.rs:333-347 | the congruence gives (day count + 4) mod 7 for every date from 1970 |
| Calendar.NoNegativeRemainder | kernel/src/time/mod.rs:345-346 | a negative remainder of the truncating division never changes the result |
| Calendar.ClosedDaysIs | kernel/src/time/formats.rs:4-17 | the closed form counts 59 days less than the loops, for every valid date |
| Calendar.PosixIsBehind | kernel/src/time/formats.rs:4-22 | its 32-bit result is the timestamp less 59 days modulo 2^32; it overflows if and only if that does not fit |
| Calendar.PosixNeverRight | kernel/src/time/formats.rs:4-22 | it is never the timestamp |
| Path.Components.constructor | kernel/src/hal/path.rs:60-66 | the iterator has all components to yield |
| Path.Components.Next | kernel/src/hal/path.rs:184-207 | yields the first remaining component, None if and only if there is none |
| Path.Components.NextBack | kernel/src/hal/path.rs:211-236 | yields the last remaining component, None if and only if there is none |
| Path.Interleave | kernel/src/hal/path.rs:181-237 | any mix of calls at both ends yields the non-empty parts, each once and in place |
| Path.PartsAround | kernel/src/hal/path.rs:184-207 | the parts of two texts with a slash between are the parts of both |
| Path.Normalize | kernel/src/hal/path.rs:114-139 | the result is absolute, has no slash too many, and its components are those that remain when, read from the end, each ".." cancels the nearest name before it that is left |
| Path.NormalIsClean | kernel/src/hal/path.rs:114-139 | a normalised path is absolute, has no ".", ".." or empty part and no slash too many, and its components are the directory that the path leads to |
| Path.NormalIdempotent | kernel/src/hal/path.rs:114-139 | normalising twice is normalising once |
| Path.WalkIsKept | kernel/src/hal/path.rs:117-128 | the stack of the loop and the reading from the end agree |
| Path.CompsJoin | kernel/src/hal/path.rs:143-160 | joining a relative path appends its parts; an absolute one replaces the path |
| Path.NormalJoin | kernel/src/hal/path.rs:113-160 | normalising before a join changes nothing after normalising |
| Path.JoinName | kernel/src/hal/path.rs:113-160 | joining a name and normalising appends it |
| Path.JoinUp | kernel/src/hal/path.rs:75-160 | joining ".." leads to the components of the parent, and at the root stays there |
| Path.JoinStays | kernel/src/hal/path.rs:113-160 | joining ".", or a name and "..", changes nothing |
| Path.ParentDropsLast | kernel/src/hal/path.rs:75-98 | None if and only if the path is "/"; otherwise an absolute path without exactly the last component, which is a prefix of it |
| Serialize.SerializeInt | dvida_serialize/src/numbers.rs:8-19 | success if and only if the slice holds the size; then byte k there is digit k to the base 256 of the value, counted from the lowest for Little and NA and from the highest for Big, and nothing else changed |
| Serialize.EncodeIntIs | dvida_serialize/src/numbers.rs:13-16 | the same of the encoding, for integers of any size and signedness |
| Serialize.SerializeArray | dvida_serialize/src/numbers.rs:48-62 | the same for an array of integers |
| Serialize.DeserializeArray | dvida_serialize/src/numbers.rs:66-86 | success if and only if the input holds the size; then the elements its bytes decode to |
| Serialize.IntRoundTrip | dvida_serialize/src/numbers.rs:8-37 | integers of any size and signedness, in either byte order, are read back |
| Serialize.SerializeValue | dvida_serialize_macros/src/lib.rs:52-60 | for every schema: success if and only if the slice holds the total size; then the encoding is in front and nothing else changed; every integer of it is at its offset with its bytes in order |
| Serialize.SerializeFields | dvida_serialize_macros/src/lib.rs:53-59 | the derived code, field by field |
| Serialize.EncodeLaid | dvida_serialize_macros/src/lib.rs:52-60 | the layout of every schema: elements one after the other, fields in order |
| Serialize.DeserializeValue | dvida_serialize_macros/src/lib.rs:62-79 | for every schema: success if and only if the input holds the total size; then the value its first bytes decode to, and that size; that value is laid out there |
| Serialize.RoundTrip | dvida_serialize_macros/src/lib.rs:51-80 | decoding an encoding gives the value back, for every schema and byte order |
| Serialize.RoundTripBytes | dvida_serialize_macros/src/lib.rs:51-80 | encoding what bytes of the right length decode to gives the bytes back |
| Serialize.ThereAndBack | dvida_serialize_macros/src/lib.rs:51-80 | serialize then deserialize through one buffer returns the value and its size and changes nothing behind it |

## Left out

- Directory.Dir.AddDirEntry: requires a directory that can be scanned, as does
  `FindEntry`; on others the scan stops at the first block that cannot be read. The
  modification time and the write-back at the end (`WriteNewlyAllocatedBlocks`) are not
  part of it.
- DirBlock.AddEntryInBlock: that the cast of a record header at an offset off a multiple
  of four panics is not modelled; lengths that are multiples of four stay so.
- `is_dir_empty`, `rmdir`, reading directories into user buffers and walking paths over
  directories.
- Tree blocks and bitmap blocks are on separate parts of the disk and are modelled as
  separate maps.
- BlockIterator.InodeBlockIterator.Get: a misaligned pointer cast is modelled as a panic
  for every buffer, which is the case for word-aligned buffers.
- Block allocation by two tasks at once: the original releases the lock on the pending
  set between its test and its insertion, so calls are modelled one at a time.
- Freed blocks, inode allocation, byte-level `read` and `write`, `get_block_lba`, I/O
  errors and disk timing.
- The waker ring of the bounded channel (`register_waker`, `try_wake_receiver`), its
  destructor, and overflow panics when a position reaches 2^64 - 1.
- Dropping or cancelling a lock future whose node is in the list: nodes live as long as
  the mutex here.
- TaskWake.NoLostWakeup: one executor context, one consumer and one getter; `spawn` is
  one step, and a task woken from its wait polls the same future next.
- Calendar.DatetimeToUnixTimestamp: reading the clock registers is not modelled.
- Path.CompsJoin: paths are sequences of characters; the byte positions of the original
  are the same for ASCII and fall on character boundaries otherwise.
- Serialize.IntRoundTrip: floating-point fields are covered as their bit patterns, not
  as numbers; on failure the bytes already written by earlier fields are not described
  beyond lying inside the slice.
- Drivers, interrupts, page tables, the heap, the scheduler, terminal, fonts, keyboard
  and logging.
