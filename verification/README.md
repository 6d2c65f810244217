# A verified model of the remote ext2 file system

The repository is a distributed file system. A FUSE client (`fsc`) sends each file operation as a packet to a
server (`rfs`), which works on an ext2 image of 1, 2 or 4 KiB blocks through a pool of worker threads. Data blocks go
through a memcached process, of which the connection's output queue is modelled too.

The model follows the program's structure:

- `Bytes`, `Arithmetic`: little-endian integers, positioned writes, and the quotients of the address computations.
- `Allocation`, `BitArrays`: bitmaps of blocks and inodes with their two layers of counters, on booleans and packed
  into bytes.
- `BlockTree`, `Ownership`, `Linking`: where each block of a file hangs in the inode, who owns which block, and what
  linking and unlinking a chain of blocks does to every pointer of every file.
- `Storage`, `InodeOps`, `Truncation`, `FileContents`, `FileIO`: the image as an array of blocks of bytes, the
  operations on one inode, and file contents with the cache.
- `DirRecords`, `Listings`, `Directory`, `Paths`, `DirTree`: directory records, listings, path resolution, and the tree
  that the directories form.
- `FileTable`, `States`, `FileSystem`, `Runs`, `CachedRuns`, `StaleReads`, `ValidVolumes`: the inode table, the request
  handlers, runs of requests, and volumes from which runs can start.
- `LockTable`, `LockOrder`: the list of per-inode locks as a state machine whose steps are the critical sections, and
  which nestings of locks deadlock.
- `Resolving`, `Deadlock`: the server's threads resolving paths, locking, changing the tree and unlocking, as one machine.
- `Queues`: the request queue and the client's pool of sockets, as state machines.
- `OutputQueue`: memcached's list of messages and I/O vectors.
- `Wire`: the packets.

Objects that the program updates in place are classes (`Allocator`, `BitArray`, `Volume`, `Inode`, `FileSystem`,
`LockList`, `Conn`), and each method is proved against a specification: a listing, the bytes of a file, the path that
leads to an inode. `owner` and `place` are specification state: which slot of which file each block belongs to, and
where each directory is in the tree. The program has neither.

The central invariant is `States.Valid`. It says that the bitmaps, both counters, the pointers of all files and the
ownership of blocks agree, that inodes that are not in use are empty, and that the directories form a tree in which every
other node has one name. Requests keep it under the conditions given below, so every state of a run has it up to the
first request that breaks it (`Runs.Run`); and there are such volumes of every size (`ValidVolumes.VolumeIsValid`,
`ValidVolumes.FreshVolume`).

Some properties hold only under a condition. These are proved as equivalences, so that the condition is exact:

- Create and mkdir keep the state valid exactly when the path is not there yet (`FileSystem.Create`, `FileSystem.Mkdir`).
  rfs/Rfs.c:371-376 and 475-485 look the path up, and add the entry whatever they find. If the path is there, its directory
  has a second entry of the name, for an inode that is then given back, and mkdir leaves a block to that inode.
- Unlink keeps the state valid exactly when the path does not lead to a directory with subdirectories
  (`FileSystem.Unlink`): rfs/Rfs.c:417-424 does not look at the type.
- A read gives the bytes of the file exactly when the part of the first block before the offset and the bytes asked for
  fit in the blocks fetched (`FileIO.ReadExact`): rfs/Dir.c:114-115 counts blocks from the size alone.
- A write refills the cache with the block it wrote, whatever the disk holds, exactly when it began at the start of a block
  (`FileIO.CacheRefill`): rfs/Dir.c:144-223 reads one block length back from where it wrote. For whole writes, of any
  length: all writes at an offset keep the cache right if the offset is the start of a block (`FileSystem.Write`); if it
  is not, and its block begins inside the file, there is data that does not (`CachedRuns.TellingWrite`).
- A change other than a write keeps the cache right exactly when no block that it gives back is cached
  (`CachedRuns.CacheKept`). Truncate and unlink never delete cache entries. The family that fails is: read a file, so
  that its block `b` is cached; then cut or unlink the file. `b` is free and still cached, and whoever takes it
  next, as a pointer block, a directory block or a block of another file, writes to the disk past the entry.
  `StaleReads.StaleRead` goes on from there to a read of bytes that the file does not have.
- A list of names arrives exactly when no name is longer than 254 bytes (`Wire.NamesRoundTrip`), and a write request
  exactly when its offset is below 2^32 (`Wire.WriteRoundTrip`).
- A path resolves as its directory part followed by its last name exactly when it has a last name or its directory part
  leads nowhere (`Paths.ResolveComposes`): a path that ends in a slash has an empty last name.
- The bytes read of a bitmap cover all its bits exactly when the bits fill whole bytes or their number divided by 8 is
  not a multiple of 8 (`BitArrays.ReadCovers`).
- Threads that nest their locks in given pairs never deadlock exactly when the inodes can be ranked so that each pair
  increases (`LockOrder.DeadlockFree`); and requests that have resolved their paths never come to a halt exactly when
  the pairs that they are still to lock can be ranked so (`Resolving.ResolvedDeadlockFree`). While the tree does not
  change between resolving and the last lock, the depth in the tree is such a rank, and the server never deadlocks
  (`Resolving.QuietNeverStuck`). But rfs/Rfs.c:413-417 resolves both paths before it locks, and in between the tree can
  turn round: `Deadlock.ServerDeadlocks` is a run, of requests that each do what they should, from the tree with only a
  root directory to two threads that wait for each other for ever.

## Model

| member | source | states |
|---|---|---|
| Runs.Run | rfs/Rfs.c:74-145 | any sequence of truncate, write, create, unlink, mkdir and rmdir requests, from any valid state, goes through valid states only, each step with the effect its request promises, up to the first harmful request (a create or mkdir of a path that is there, an unlink of a directory with subdirectories), which is carried out too and leaves a state that is not valid |
| Runs.RootNamesServed | rfs/Rfs.c:74-145 | in every valid state with a free inode and five free blocks the requests to make a file or a directory under any new name in the root are among those that a run serves, and so are those that truncate, write or unlink a file of the root, or remove a directory of it |
| Runs.BitmapExact | rfs/Grupos.c:99-135 | in every valid state a block's bit is set if and only if the block is reserved or reachable from a file's inode: no block is leaked and none in use is marked free |
| Runs.ReachedOnce | rfs/Inode.c:293-472 | in every valid state no block is reachable through two slots, of one file or of two, and no reserved block is reachable |
| Runs.FreeInodeEmpty | rfs/Rfs.c:418-426 | in every valid state an inode whose bit is clear has size 0 and fifteen zero pointers |
| Ownership.NoSharing | rfs/Inode.c:293-472 | under the ownership invariant that assigning and releasing keep, used slots with the same block are the same slot of the same file |
| Ownership.Attach | rfs/Inode.c:264-270 | storing a loose block's number in an unused pointer word, of the inode or of a pointer block, keeps the ownership invariant of all files, with that slot in use and the block owned by it |
| Ownership.Detach | rfs/Inode.c:239-246 | clearing the pointer of a used slot with nothing below it keeps the ownership invariant of all files, with that slot unused and its block loose |
| Ownership.GrowShrinkRestores | rfs/Inode.c:475-515 | growing files and shrinking them to the slots they had gives every block its first owner and every file its first pointers |
| BlockTree.DataSlotSound | rfs/Inode.c:80-116 | the positions computed for block n lead to a well-formed data slot, and the blocks before it in the tree are exactly the n earlier ones |
| BlockTree.DataSlotUnique | rfs/Inode.c:80-116 | every data slot is the one computed for its own index, so that two indexes never share a place |
| BlockTree.LiveGrows | rfs/Inode.c:293-472 | going from n to n + 1 blocks adds exactly the new data slot and the pointer blocks that start with it |
| Truncation.AddressingTotal | rfs/Inode.c:80-116 | for each block size and every 32-bit file size all blocks are within the four levels, at different slots, and the products that delimit the levels fit in 32 bits |
| Bytes.WordBytes | rfs/Inode.c:118-125 | four bytes read as a 32-bit word are a number whose least significant byte is the first |
| Bytes.CodesAreLittle | rfs/Inode.c:264-270 | the four bytes written for a word, and the two for a half word, are its base 256 digits, least significant first |
| Linking.ExtendKeeps | rfs/Inode.c:293-472 | linking the missing chain of blocks for block n keeps the invariant for the file with one block more, loses no owned block and writes only pointer blocks and the new blocks |
| Linking.ShrinkKeeps | rfs/Inode.c:165-237 | clearing the pointers of the last block and of the pointer blocks it leaves empty keeps the invariant for the file with one block less, and takes back exactly those blocks |
| Allocation.FirstClear | commons/bitarray.c:83-89 | the first clear bit of a bitmap, or -1 if and only if it has none, whatever the bit after the end is, which is tested before the bound |
| Allocation.Allocator.Search | rfs/Grupos.c:212-234 | the smallest free unit of all groups, or -1 if and only if the counter of free units is 0 |
| Allocation.Allocator.Take | rfs/Grupos.c:236-250 | takes the smallest free unit: exactly its bit changes, and both counters still agree with the bitmaps |
| Allocation.Allocator.Release | rfs/Grupos.c:99-116 | frees exactly the unit given, and both counters still agree with the bitmaps |
| Allocation.Space.NumberOf | rfs/Grupos.c:99-116 | numbering units by group and bit is undone by the division and remainder that find the group and the bit |
| Allocation.SameFreeSameBitmaps | rfs/Grupos.c:99-135 | which units are free determines the bitmaps and both layers of counters |
| BitArrays.BitArray.Set | commons/bitarray.c:48-54 | changes the bit at the position to 1, among the bits of the packed bytes, and no other |
| BitArrays.BitArray.Clean | commons/bitarray.c:56-62 | changes the bit at the position to 0, among the bits of the packed bytes, and no other |
| BitArrays.BitArray.FirstFree | commons/bitarray.c:83-89 | the first clear bit of the packed bytes, or -1 if and only if all are set |
| BitArrays.MasksApart | commons/bitarray.h:27-30 | the masks of the eight positions are not zero and have no bit in common |
| BitArrays.MarkPacked | rfs/Grupos.c:118-135 | setting or clearing a bit in the bytes of one group changes exactly that unit in the bitmaps that the allocator works on |
| BitArrays.ReadCovers | rfs/Grupos.c:74-82 | the bytes read for a group of n bits are n / 8, and one more if n % 64 is not below 8; they cover its bits if and only if the bits fill whole bytes or their number divided by 8 is not a multiple of 8 |
| BitArrays.GroupBits | rfs/Grupos.c:68-82 | a bit names a block if and only if it is below the number of blocks that its group is taken to have, less, in the last group, the number of the first data block; the bits between name numbers past the end of the volume |
| BitArrays.GroupsNeeded | rfs/Grupos.c:73 | the groups computed hold all blocks, and the last one is not empty if and only if the blocks do not fill their groups |
| Storage.WordsInjective | rfs/Inode.c:118-125 | the pointer words of a block determine its bytes |
| Storage.PatchWord | rfs/Inode.c:264-270 | writing the four bytes of a pointer, least significant first, changes that word of the block and no other |
| InodeOps.AssignDirect | rfs/Inode.c:293-312 | answers -1 and changes nothing when no block is free, else takes one block into the direct pointer and keeps the invariant |
| InodeOps.AssignBlock | rfs/Inode.c:293-472 | gives the file block n with just the pointer blocks it lacks, or answers -1 and changes nothing, exactly when there are too few free blocks; each block taken is lower than all that are left free and than all taken for slots below it; all files keep their blocks and data |
| FileContents.AssignNumber | rfs/Inode.c:293-472 | after a block is assigned, looking up block n finds a block nobody owned before, and looking up any earlier block, or any block of another file, finds what it found before |
| FileContents.BlockNumberBytes | rfs/Inode.c:80-125 | the address computation, in bytes of the disk: block n is the n-th direct pointer, or the number in bytes 4k to 4k + 3, least significant first, of the pointer block one, two or three levels down |
| InodeOps.ReleaseBlock | rfs/Inode.c:165-237 | takes the last block off the file with exactly the pointer blocks that become empty, clears the pointers to them, and leaves every other file and all data as they were |
| Truncation.TruncateDown | rfs/Inode.c:248-262 | the file has the new size and just the blocks it needs, and the free counter grows by the data and pointer blocks between the two sizes |
| Truncation.TruncateUp | rfs/Inode.c:475-515 | succeeds if and only if there are enough free blocks for data and pointers; if not, bitmaps, counters, owners, all pointers and all data are as before the call, although blocks were assigned on the way |
| Truncation.GrowThenShrink | rfs/Inode.c:248-515 | growing to any size and cutting back restores bitmaps, counters, owners, size, pointers and every byte of data of every file |
| FileContents.BlockNumberInFile | rfs/Inode.c:80-116 | for each block that a file has, the program's address computation finds the block its slot points to |
| FileContents.BlockNumberPastEnd | rfs/Inode.c:80-116 | just past the end of a file the address computation finds 0, if the disk begins with a zero word |
| FileContents.DataWriteContent | rfs/Dir.c:144-223 | overwriting one data block changes that block of that file, and no byte of any other block of any file |
| FileIO.WriteFile | rfs/Dir.c:144-223 | when it succeeds the file's bytes in the range are the data, all others are as before up to the old size and, past that, what the disk held in the blocks that were added; every other file's bytes are untouched, and the file is as long as needed; else nothing changes; it fails exactly when growing needs more blocks than are free |
| FileIO.FileByte | rfs/Dir.c:102-142 | byte x of a file is byte x % bs of the disk block that the address computation gives for block x / bs |
| FileIO.ReadFile | rfs/Dir.c:102-142 | fetches each block from the cache, right or wrong, if it is there and else from the disk, and gives the stretch that the offset selects of the blocks fetched followed by the buffer's old contents; through a right cache these are the file's bytes |
| FileIO.ReadExact | rfs/Dir.c:111-142 | that stretch is the file's bytes at the offset, for all old contents of the buffer, if and only if the first block's part before the offset and the bytes asked for fit in the blocks fetched |
| FileIO.CacheRefill | rfs/Dir.c:144-223 | what a write reads back for the cache is the block written, on every disk, if and only if the write began at the start of the block |
| FileIO.Resize | rfs/Rfs.c:263-306 | the file keeps its bytes below both sizes, the bytes that growing adds are what the disk held in the blocks that were added, and every other file keeps all its bytes; if growing fails, everything is as before |
| DirRecords.RecordBytes | rfs/Dir.c:262-276 | a record has its inode in bytes 0 to 3 and its length in bytes 4 and 5, least significant first, the length of its name in byte 6 and its name from byte 8 on; it needs 8 bytes and its name, rounded up to a multiple of 4 |
| DirRecords.SplitAdds | rfs/Dir.c:225-311 | splitting a new record off the slack of another keeps the block tiled by records and adds exactly the new entry to its list |
| DirRecords.SplitBytes | rfs/Dir.c:278-307 | a split changes the two bytes of the old record's length, to what that record needs, and behind it puts the whole new record, byte by byte |
| DirRecords.MergeRemoves | rfs/Dir.c:313-385 | merging a record into the one before it keeps the block tiled and removes exactly its entry, the first with its inode |
| DirRecords.MergeBytes | rfs/Dir.c:362-379 | a merge changes the two bytes of the record's length, to the sum of the two lengths, and no others |
| DirRecords.KillRemoves | rfs/Dir.c:313-385 | marking the first record of a block deleted keeps the block tiled and removes exactly its entry |
| DirRecords.KillBytes | rfs/Dir.c:362-379 | marking a record deleted changes the four bytes of its inode number to zero, and no others |
| Directory.ListDirectory | rfs/Dir.c:21-58 | lists the names and inodes of all records of all blocks in order, deleted ones left out |
| Directory.CountEntries | rfs/Dir.c:411-451 | the count is the length of that listing |
| Directory.GrowsWhenFull | rfs/Dir.c:258-278 | a directory must grow for a name if and only if no record's length exceeds what its own name needs by what the new name needs, each 8 bytes and the name rounded up to a multiple of 4 |
| Directory.AddEntry | rfs/Dir.c:225-311 | adds exactly the one entry: if some record's length leaves room, the first such record in block order is cut in two, with all bytes that are written given, and the size stays; if and only if there is none, a new block begins with the record; every other file keeps its bytes and the directory stays well formed |
| Directory.RemoveEntry | rfs/Dir.c:313-385 | removes exactly the first entry with the inode, by a change to just two or four bytes of its block, and changes nothing if there is none; every other file keeps its bytes and the directory stays well formed |
| Directory.AddThenRemove | rfs/Dir.c:225-385 | adding an entry for an inode that is not listed and deleting it again restores the listing, even when a block was added |
| Directory.FreshDirectory | rfs/Rfs.c:451-505 | a directory without blocks lists exactly the two entries added to it, in order |
| Paths.NextName | rfs/Dir.c:61-76 | each step of the tokenizer skips slashes, gives the bytes up to the next slash or the end, and leaves the rest of the names; it stops when only slashes are left |
| Paths.Separate | rfs/Rfs.c:686-708 | the path is cut at its last slash: put together the parts give it back, and its names are those of the directory part followed by the last name |
| Paths.FindName | rfs/Dir.c:78-95 | the inode of the first entry with the name, or 0 if there is none |
| Paths.ResolveComposes | rfs/Rfs.c:686-708 | resolving a path is resolving its directory part and looking its last name up there, if and only if there is a last name or the directory part leads nowhere |
| Paths.CreateResolves | rfs/Rfs.c:348-395 | after a file is created the new name leads to it by every path to its directory, and every other path leads where it did |
| Paths.MkdirResolves | rfs/Rfs.c:451-505 | after a directory is created its name leads to it, and every path that led somewhere, or does not pass through it, leads where it did |
| Paths.UnlinkResolves | rfs/Rfs.c:397-449 | after a file is unlinked the paths that led to it lead nowhere, and every other path leads where it did |
| Paths.RemoveResolves | rfs/Rfs.c:507-566 | after a directory is removed the paths that led to or through it lead nowhere, and every other path leads where it did |
| DirTree.TreeAddFile | rfs/Rfs.c:348-395 | entering an unused inode under a new name keeps the directories a tree: each node below one directory, "." and ".." right, names distinct |
| DirTree.TreeAddDir | rfs/Rfs.c:451-505 | entering a new directory with its two dots keeps the directories a tree, one level below its parent |
| DirTree.TreeRemove | rfs/Rfs.c:507-566 | removing a file, or a directory without subdirectories, keeps the rest a tree |
| DirTree.TreeBroken | rfs/Rfs.c:417-424 | removing a directory with a subdirectory does not, wherever the directories are placed |
| FileSystem.FileSystem.FindPath | rfs/Dir.c:61-76 | gives the inode that the names of the path lead to from the root, or 0 |
| FileSystem.FileSystem.Truncate | rfs/Rfs.c:263-306 | keeps the whole state valid; one file has the new size and its bytes below both sizes, or, with too few free blocks, nothing changes and the result says so; no other file, listing or path changes |
| FileSystem.FileSystem.Write | rfs/Rfs.c:308-345 | keeps the whole state valid; one file has the data in the range, or, with too few free blocks, nothing changes and the result says so; what is new in the cache is blocks of the file as they are now, but the first one read from the offset on; a write at the start of a block keeps the cache equal to the disk |
| FileSystem.FileSystem.Read | rfs/Rfs.c:202-236 | gives as many bytes as are asked for, or those up to the end of the file if it has fewer, through any cache; a right cache stays right, and gives the file's bytes |
| FileSystem.FileSystem.Create | rfs/Rfs.c:348-395 | the state stays valid if and only if the path is not there yet; then there is a new empty regular file with one link under the path, in the lowest free inode, its directory's record is as it was but for a block more if no record had room, every other path and every other file is as before, or, without a directory for it, only the record of that inode is written; otherwise the directory has a second entry, for an inode that is not in use |
| FileSystem.FileSystem.Unlink | rfs/Rfs.c:397-449 | the state stays valid if and only if the path leads to no directory with subdirectories; then the paths that led to the file, or through the directory, lead nowhere, its inode has no mode, links or bytes and is free, as are its blocks, the record of its directory, every other path and every other file is as before; otherwise the subdirectories stay without a place in the tree |
| FileSystem.FileSystem.Mkdir | rfs/Rfs.c:451-505 | the state stays valid if and only if the path is not there yet; then there is a directory with two links and one block that lists exactly "." and ".." under the path, in the lowest free inode, its parent has one link more, or, without a directory for it, only the record of that inode is written; otherwise the directory has a second entry and a link more, for an inode that is not in use but keeps a block |
| FileSystem.FileSystem.Rmdir | rfs/Rfs.c:507-566 | keeps the whole state valid; a directory is removed, its inode is left without mode, links and bytes, and its parent has one link less, if and only if it has just two entries, and else nothing changes |
| CachedRuns.RunCached | rfs/Dir.c:102-223 | from an empty cache that may forget blocks at any time, in any run of reads and changes in which just those writes that begin at the start of a block, and just those changes that give back no cached block, are served, every read is served from the cache and the disk, whatever is cached, and gives the bytes of the file from the offset up to as many as are asked for or to its end, and the cache is right in every state |
| CachedRuns.FitsExactly | rfs/Dir.c:111-142 | the reads that these runs serve are exactly those that give the bytes of the file whatever the buffer held before |
| CachedRuns.CacheKept | rfs/Rfs.c:397-449 | a request other than a write keeps every cached block equal to the data block of a file if and only if no block that it gives back is cached |
| CachedRuns.CutSpoils | rfs/Inode.c:248-262 | unlinking a file, or cutting it to nothing, leaves a cache that held one of its blocks holding a block that is no file's |
| CachedRuns.TellingWrite | rfs/Dir.c:144-223 | for each offset whose block begins inside the file, and each length, there is data whose write keeps a cache that does not forget right if and only if the offset is the start of a block; what the write enters into the cache is what it reads back |
| StaleReads.StaleRead | rfs/Inode.c:165-237 | a file is read, cut to nothing, its blocks are taken and given back by another file, it grows to its old size, and is read again, from the cache that the first read left: on any full volume with two such files the first read gives the bytes of the file, and the second one bytes that the file does not have |
| StaleReads.StaleStartExists | rfs/Inode.c:165-237 | there is such a volume for every block size |
| ValidVolumes.VolumeIsValid | rfs/Rfs.c:74-145 | a volume with a root directory and up to 26 files of up to twelve blocks is valid, whatever its reserved blocks, its files and its free blocks hold |
| ValidVolumes.FreshVolume | rfs/Rfs.c:74-145 | for every block size and number of free blocks there is a valid volume with nothing but a root directory |
| LockTable.LockList.Enter | rfs/sincro.c:30-60 | the first node of the inode counts one thread more, or, if there is none, a node with count 1 is appended; nothing else changes |
| LockTable.LockList.Leave | rfs/sincro.c:74-103 | the first node of the inode is removed if it counts one thread, and else counts one less and is unlocked; nothing else changes |
| LockTable.OneNodeEach | rfs/sincro.c:30-103 | in every state of every run there is one node at most for an inode, and its count is the number of threads that wait for it or hold it |
| LockTable.NoDanglingNode | rfs/sincro.c:74-103 | in every state of every run a thread that waits for a node or holds it finds it in the list |
| LockTable.WriterAlone | rfs/sincro.c:30-103 | in every state of every run two threads that hold one inode both read |
| LockTable.GrantedWhen | rfs/sincro.c:67-70 | in every state of every run a thread that waits for an inode can have it if and only if nobody else holds it, or it and all who hold it read |
| LockTable.NeverStuck | rfs/sincro.c:30-103 | while a request is unfinished some thread can go on, in every state of every run in which nested locks are taken in increasing rank, ranks that may change but not for what is referred to |
| LockOrder.StuckWithoutOrder | rfs/sincro.c:30-103 | for each circle of pairs, of any length, there is a run in which as many threads each hold one inode of it and wait for the next, with no step left |
| LockOrder.DeadlockFree | rfs/sincro.c:30-103 | threads that nest their locks in given pairs never get stuck if and only if some rank increases along every pair |
| LockOrder.RingStays | rfs/sincro.c:30-103 | a circle of waiting threads stays whatever step any thread takes |
| DirTree.LocksInOrder | rfs/Rfs.c:416-417 | in any tree a directory ranks below each node that it names, so that locking the directory first follows the order |
| Resolving.RankedProgress | rfs/Rfs.c:397-449 | in every state of the server with an unfinished request, some request can go on if the pairs still to be locked can be ranked |
| Resolving.QuietNeverStuck | rfs/Rfs.c:413-417 | in every run in which the tree does not change between a request's resolving and its last lock, some request can go on while one is unfinished |
| Resolving.ResolvedDeadlockFree | rfs/Rfs.c:413-417 | requests that have resolved their paths lock without ever coming to a halt, or to a circle of waiting threads, if and only if the pairs that they have to lock can be ranked |
| Resolving.DeadlockStays | rfs/Rfs.c:413-417 | a deadlock stays whatever other requests come and however the tree changes |
| Deadlock.OrderTurnsRound | rfs/Rfs.c:413-417 | eight mkdir and rmdir requests, each new directory with the lowest free inode, from the empty tree through one in which directory 12 is in 11 to one in which 11 is in 12 |
| Deadlock.ServerDeadlocks | rfs/Rfs.c:413-417 | a run of the server from the empty tree, of requests that each do what they should, after which two threads each hold one of inodes 11 and 12 and wait for the other |
| Queues.ServedInOrder | rfs/Main.c:139-142 | requests leave the queue in the order in which they arrived, each arrival once at most, and a worker that has passed the semaphore finds one |
| Queues.NotForgotten | rfs/Main.c:139-142 | in every state of every run with a request that is not dequeued some thread can go on, without another request arriving or being served first |
| Queues.SocketHeldOnce | fsc/fsc.c:80-118 | no socket is held by two threads or is held and idle at once, and a thread that has passed the semaphore finds one |
| Queues.AllBack | fsc/fsc.c:80-118 | when no request is under way all sockets are back in the pool, and the semaphore counts them |
| OutputQueue.Deliver | memcached-1.6/daemon/memcached.c:4993-5052 | however the buffers are split, and whatever part of a message each sendmsg takes, what was sent and what is pending are the bytes of the vectors queued, whose payload is the buffers in order; over TCP they are the buffers themselves; each message keeps to its limits, and each but the last has reached one; each sendmsg takes just what it answers of the first message that is not finished, or all of it if it answers more |
| OutputQueue.Queue | memcached-1.6/daemon/memcached.c:892-939 | whatever buffers are queued, every message but the last has 1024 vectors or, over UDP and in the first message, exactly 1400 bytes; the payload is the buffers in order |
| OutputQueue.DatagramsFit | memcached-1.6/daemon/memcached.c:892-939 | every UDP message fits the limit on datagrams and begins with the place for its header |
| OutputQueue.MessagesInPlace | memcached-1.6/daemon/memcached.c:862-882 | each message points into the list of vectors where it is now, at the end of the messages before it, even after the list has moved |
| OutputQueue.Conn.AddIov | memcached-1.6/daemon/memcached.c:892-939 | queues exactly the bytes given: in one vector of the last message if they fit; else a message is started only when the one before it has 1024 vectors or, over UDP and in the first message, 1400 bytes, and the bytes are cut only where their message has 1400 |
| OutputQueue.Conn.AddMsghdr | memcached-1.6/daemon/memcached.c:274-310 | adds one message, empty or, over UDP, with just the eight bytes for its header, doubles the list if it was full, and leaves what was queued as it was |
| OutputQueue.Conn.EnsureSpace | memcached-1.6/daemon/memcached.c:862-882 | there is room for a vector afterwards, in a list twice as long if it was full, and the messages, pointed to the new list, hold what they held |
| OutputQueue.Conn.Transmit | memcached-1.6/daemon/memcached.c:4993-5052 | what is reported sent is exactly what is no longer pending, the bytes that the answer takes of the first message that is not finished; and Complete is answered only when nothing is pending |
| Wire.FrameOf | rfs/serial_rfs.c:26-40 | copying the three parts one after the other makes the frame of the type, the length in two bytes, least significant first, and the payload |
| Wire.FrameRoundTrip | rfs/serial_rfs.c:26-40 | a receiver that reads three bytes and then as many as they say gets the type and the payload, whatever follows |
| Wire.EncodeNames | rfs/serial_rfs.c:212-247 | writes the record of each name one after the other into a payload of the computed length, and stays inside it |
| Wire.RecordBytes | rfs/serial_rfs.c:233-240 | a name of up to 254 bytes is written as its length and one, its bytes and a zero, and a longer one is cut |
| Wire.DecodeNames | fsc/fsc.c:241-251 | passes on the pieces that the length bytes cut the payload into: put together again, each after its length, they are the payload |
| Wire.NamesRoundTrip | rfs/serial_rfs.c:212-247 | the client gets the names that were listed, whatever the memory held before, if and only if none is longer than 254 bytes |
| Wire.EncodeWrite | fsc/serializar_y_deserializar.c:71-95 | the payload is the path with its end, the size, the data and four bytes of the offset |
| Wire.DecodeWrite | rfs/serial_rfs.c:86-111 | finds the four fields again in any payload that is long enough for what it says |
| Wire.WriteRoundTrip | rfs/serial_rfs.c:86-111 | a write request arrives as it was sent if and only if its offset fits in four bytes |

## Left out

What the program does and the model does not:

- Running out of memory and failing system calls; sockets, FUSE, configuration, logging and inotify.
- Interleaving inside one request: handlers are atomic in `Runs`. What interleaves are the critical sections of the lock
  list and of the queues, and in `Resolving` the resolving of paths and the changes of the tree, each as one step. The
  unsynchronised counters of superblock and group table are not a race in the model.
- The inode table, bitmaps and group descriptors as blocks of the image: they are a map, sequences of booleans
  (tied to bytes by `BitArrays.MarkPacked`) and counters.
- `i_blocks`, times, permissions and `bg_used_dirs_count`.
- The getattr, open and readdir handlers, which only read, beyond the listing and the packet that readdir sends.
- The contents of UDP headers (`build_udp_headers`), and sending timeouts.
- The upper half of an 8-byte `off_t`: sizes and offsets on the server are 32 bits wide.
- The `rc` storage engine, and memcached beyond its output queue.
- Deleting cache entries of directory listings and attributes on the client.

What preconditions exclude although the program goes on:

- Truncating or writing a directory (`States.CanTouch`): the handlers do not look at the type, and the records would be
  damaged.
- Paths through a node that is not a directory (`States.ThroughDirs`): rfs/Dir.c:61-76 lists the bytes of any file as
  if they were records.
- Names of 256 bytes or more in a create or mkdir: `d_name_len` is one byte. `Directory.AddEntry` has the name that is
  stored, cut by that byte; the tree then need not have distinct names.
- Adding an entry without the blocks for it: rfs/Dir.c:293 does not look at the result of growing.
- Unlink or rmdir of a path that ends in a slash: directory part and path are then the same inode, which is locked twice.
- Rmdir of a file, rmdir or unlink of a directory by the names "." or "..".
- Packets that say more than they hold (`Wire.DecodeNames`, `Wire.DecodeWrite`): the program reads past their end.
- Lists of names and writes whose payload has 65536 bytes or more (`Wire.EncodeNames`, `Wire.EncodeWrite`): the length in
  the packet's header has two bytes.
- Creating without a free inode: the search result -1 is marked used as it is.
- Reads at an offset past the end of the file: the size that is left is negative.
- A path without a slash: rfs/Rfs.c:690 walks back past its beginning.
- Bitmaps that are not read whole, as given by `BitArrays.ReadCovers`, and clear bits that name no block, of which
  `BitArrays.GroupBits` shows the program to look at some: in `Allocator` such bits are set.

Contracts that say less than one might look for:

- FileSystem.FileSystem.Write: keeps the cache equal to the disk only if the first word of the disk is zero, and so do
  CachedRuns.RunCached and CachedRuns.TellingWrite. A write that ends at the end of a block then refreshes the cache for
  block 0, which the address computation takes for "no block".
- FileSystem.FileSystem.Create: leaves the mode and links of the inode it gave back, as the program does, so the record
  of an inode that is not in use may differ afterwards.
- Directory.RemoveEntry: removes the first entry with the inode and not the one with the name, as the program does; in a
  valid state they are the same one.
- LockTable.NeverStuck: is about locks taken in increasing rank. That the server's own requests keep to one is proved
  for a tree that stands still (`Resolving.QuietNeverStuck`) and false otherwise (`Deadlock.ServerDeadlocks`).
- Resolving.QuietNeverStuck: in this machine a new inode is taken when the tree is changed, under the locks; the program
  takes it before it resolves.
- StaleReads.StaleRead: starts from a volume without free blocks, so that it is known who takes which block; the allocator
  takes the first free one in any case.
- Runs.Run: ends with the first request that leaves a state that is not valid, and skips those that preconditions exclude.
- CachedRuns.RunCached: skips reads that `FileIO.ReadExact` shows to be wrong and changes that `CachedRuns.CacheKept`
  shows to spoil the cache.
