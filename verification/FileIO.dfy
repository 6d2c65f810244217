/** Reading and writing the bytes of a file (`Dir_escribirArchivo` and `Dir_leerArchivo` in rfs/Dir.c). */
module FileIO {
  import opened Arithmetic
  import opened Bytes
  import opened BlockTree
  import opened Ownership
  import opened Linking
  import opened Allocation
  import opened Storage
  import opened InodeOps
  import opened Truncation
  import opened FileContents

  /** Byte `x` of a file given by its blocks. */
  function ByteAt(blocks: seq<seq<Byte>>, bs: nat, x: nat): int
    requires bs > 0
  {
    if Quot(x, bs) < |blocks| && Rem(x, bs) < |blocks[Quot(x, bs)]| then blocks[Quot(x, bs)][Rem(x, bs)] else -1
  }

  ghost predicate Blocked(blocks: seq<seq<Byte>>, bs: nat) {
    forall k :: 0 <= k < |blocks| ==> |blocks[k]| == bs
  }

  /** `blocks'` is `blocks` with the first `done` bytes of `data` written from byte `offset` on. */
  ghost predicate Written(blocks: seq<seq<Byte>>, blocks': seq<seq<Byte>>, bs: nat,
                          offset: nat, data: seq<Byte>, done: nat) {
    && bs > 0 && done <= |data| && |blocks'| == |blocks| && Blocked(blocks, bs) && Blocked(blocks', bs)
    && forall x :: 0 <= x < |blocks| * bs ==>
         ByteAt(blocks', bs, x) == if offset <= x < offset + done then data[x - offset] else ByteAt(blocks, bs, x)
  }

  lemma WrittenNone(blocks: seq<seq<Byte>>, bs: nat, offset: nat, data: seq<Byte>)
    requires bs > 0 && Blocked(blocks, bs)
    ensures Written(blocks, blocks, bs, offset, data, 0)
  {
  }

  /** Writing the next `m` bytes of the data at position `off` of block `k`. */
  lemma WrittenStep(blocks: seq<seq<Byte>>, now: seq<seq<Byte>>, bs: nat, offset: nat, data: seq<Byte>, done: nat,
                    k: nat, off: nat, m: nat)
    requires Written(blocks, now, bs, offset, data, done) && done + m <= |data|
    requires k < |blocks| && off + m <= bs && k * bs + off == offset + done
    ensures Written(blocks, now[k := Patch(now[k], off, data[done..done + m])], bs, offset, data, done + m)
  {
    var next := now[k := Patch(now[k], off, data[done..done + m])];
    forall x | 0 <= x < |blocks| * bs
      ensures ByteAt(next, bs, x) == if offset <= x < offset + done + m then data[x - offset] else ByteAt(blocks, bs, x)
    {
      WrittenByte(blocks, now, bs, offset, data, done, k, off, m, x);
    }
  }

  lemma WrittenByte(blocks: seq<seq<Byte>>, now: seq<seq<Byte>>, bs: nat, offset: nat, data: seq<Byte>, done: nat,
                    k: nat, off: nat, m: nat, x: nat)
    requires Written(blocks, now, bs, offset, data, done) && done + m <= |data|
    requires k < |blocks| && off + m <= bs && k * bs + off == offset + done && x < |blocks| * bs
    ensures ByteAt(now[k := Patch(now[k], off, data[done..done + m])], bs, x) ==
            if offset <= x < offset + done + m then data[x - offset] else ByteAt(blocks, bs, x)
  {
    assert ByteAt(now, bs, x) == if offset <= x < offset + done then data[x - offset] else ByteAt(blocks, bs, x);
    assert |now[k]| == bs && |now| == |blocks|;
    DivBound(x, bs, |blocks|);
    Position(bs, k, Quot(x, bs), Rem(x, bs));
    hide Quot, Rem, Written;
    var q, r := Quot(x, bs), Rem(x, bs);
    if q == k {
      assert off <= r < off + m <==> offset + done <= x < offset + done + m;
    } else {
      assert !(offset + done <= x < offset + done + m);
    }
  }

  lemma Position(bs: nat, k: nat, q: nat, r: nat)
    requires r < bs
    ensures q < k ==> q * bs + r < k * bs
    ensures q > k ==> q * bs + r >= k * bs + bs
  {
    if q < k {
      MulMonotone(q + 1, k, bs);
    } else if q > k {
      MulMonotone(k + 1, q, bs);
    }
  }

  /** The contents of every file but `ino` are the same on both disks. */
  ghost predicate OthersSame(p: nat, files: map<nat, File>, ino: nat, disk: Disk, disk': Disk)
    requires p > 0
  {
    forall j: nat, m: nat :: j in files && j != ino && m <= MaxBlocks(p) && LiveSlots(p, m) <= files[j].live ==>
      Content(p, disk', files[j].ip, m) == Content(p, disk, files[j].ip, m)
  }

  /** Every cached block, except a copy of block 0, is a data block of some file and equals it. */
  ghost predicate CacheClean(cache: map<nat, seq<Byte>>, disk: Disk, owner: map<nat, Owner>) {
    forall b :: b in cache && b != 0 ==>
      b < |disk| && b in owner && owner[b].Of? && Height(owner[b].slot) == 0 && cache[b] == disk[b]
  }

  /** Every block that was not cached before is one of file `i`, or block 0. */
  ghost predicate CacheMore(cache: map<nat, seq<Byte>>, cache': map<nat, seq<Byte>>, owner: map<nat, Owner>, i: nat) {
    forall b :: b in cache' && b !in cache && b != 0 ==> b in owner && owner[b].Of? && owner[b].ino == i
  }

  lemma CacheMoreRefl(cache: map<nat, seq<Byte>>, owner: map<nat, Owner>, i: nat)
    ensures CacheMore(cache, cache, owner, i)
  {
  }

  lemma CacheMoreTrans(cache0: map<nat, seq<Byte>>, cache1: map<nat, seq<Byte>>, cache2: map<nat, seq<Byte>>,
                       owner: map<nat, Owner>, i: nat)
    requires CacheMore(cache0, cache1, owner, i) && CacheMore(cache1, cache2, owner, i)
    ensures CacheMore(cache0, cache2, owner, i)
  {
  }

  /** The data blocks of every file outside `touched` are owned as before and hold the same bytes, and
      so does block 0. */
  ghost predicate DataKept(owner: map<nat, Owner>, disk: Disk,
                           owner': map<nat, Owner>, disk': Disk, touched: set<nat>) {
    && |disk'| == |disk| && (|disk| > 0 ==> disk'[0] == disk[0])
    && forall b :: b in owner && b < |disk| && DataOf(owner[b]) && owner[b].ino !in touched ==>
         b in owner' && owner'[b] == owner[b] && disk'[b] == disk[b]
  }

  ghost predicate DataOf(o: Owner) {
    o.Of? && Height(o.slot) == 0
  }

  /** The data blocks of file `i` at the slots `kept` are owned as before and hold the same bytes. */
  ghost predicate SlotsKept(owner: map<nat, Owner>, disk: Disk, owner': map<nat, Owner>,
                            disk': Disk, i: nat, kept: iset<Slot>) {
    && |disk'| == |disk|
    && forall b :: b in owner && b < |disk| && DataOf(owner[b]) && owner[b].ino == i && owner[b].slot in kept ==>
         b in owner' && owner'[b] == owner[b] && disk'[b] == disk[b]
  }

  lemma DataKeptRefl(owner: map<nat, Owner>, disk: Disk, touched: set<nat>)
    ensures DataKept(owner, disk, owner, disk, touched)
  {
  }

  lemma DataKeptTrans(owner0: map<nat, Owner>, disk0: Disk, owner1: map<nat, Owner>, disk1: Disk, touched: set<nat>,
                      owner2: map<nat, Owner>, disk2: Disk, touched': set<nat>)
    requires DataKept(owner0, disk0, owner1, disk1, touched) && DataKept(owner1, disk1, owner2, disk2, touched')
    ensures DataKept(owner0, disk0, owner2, disk2, touched + touched')
  {
  }

  /** Growing keeps all data. */
  lemma GrownKeepsData(owner: map<nat, Owner>, disk: Disk, owner': map<nat, Owner>, disk': Disk,
                       touched: set<nat>, i: nat, kept: iset<Slot>)
    requires Grown(owner, disk, owner', disk') && (|disk| > 0 ==> disk'[0] == disk[0])
    ensures DataKept(owner, disk, owner', disk', touched) && SlotsKept(owner, disk, owner', disk', i, kept)
  {
  }

  /** Shrinking one file keeps all data but what is past its new end. */
  lemma ShrunkKeepsData(p: nat, files: map<nat, File>, owner: map<nat, Owner>, disk: Disk, i: nat, f': File,
                        owner': map<nat, Owner>, disk': Disk)
    requires i in files && Good(p, WordsOf(p, disk), files, owner) && Good(p, WordsOf(p, disk'), files[i := f'], owner')
    requires Shrunk(owner, disk, owner', disk')
    ensures DataKept(owner, disk, owner', disk', {i}) && SlotsKept(owner, disk, owner', disk', i, f'.live)
  {
    hide WordsOf;
    FirstBlockShrunk(p, files, owner, disk, owner', disk');
    forall b | b in owner && b < |disk| && DataOf(owner[b]) && (owner[b].ino != i || owner[b].slot in f'.live)
      ensures b in owner' && owner'[b] == owner[b] && disk'[b] == disk[b]
    {
      assert Reached(WordsOf(p, disk), files, owner[b], b);
      StillOwned(p, WordsOf(p, disk), files, owner, WordsOf(p, disk'), files[i := f'], owner', b);
    }
  }

  /** A block whose slot is still in use is still owned. */
  lemma StillOwned(p: nat, w: Words, files: map<nat, File>, owner: map<nat, Owner>,
                   w': Words, files': map<nat, File>, owner': map<nat, Owner>, b: nat)
    requires Good(p, w, files, owner) && Good(p, w', files', owner') && Within(owner', owner)
    requires b in owner && owner[b].Of? && owner[b].ino in files' && owner[b].slot in files'[owner[b].ino].live
    ensures b in owner' && owner'[b] == owner[b]
  {
    var i, slot := owner[b].ino, owner[b].slot;
    assert Placed(p, w', owner', i, files'[i]);
    assert Owns(w', owner', files'[i].ip, i, slot);
    var c := PtrAt(files'[i].ip, w', slot);
    assert Reached(w, files, owner[b], b) && Reached(w, files, owner[c], c);
  }

  function Stored(disk: Disk, b: nat, off: nat, data: seq<Byte>): Disk
    requires data != [] ==> b < |disk| && off + |data| <= |disk[b]|
  {
    if data == [] then disk else disk[b := Patch(disk[b], off, data)]
  }

  /** What storing bytes in block `k` of a file does to the volume. */
  lemma StoreFacts(p: nat, disk: Disk, owner: map<nat, Owner>, files: map<nat, File>, i: nat,
                   n: nat, k: nat, off: nat, data: seq<Byte>)
    requires p > 0 && n <= MaxBlocks(p) && Formatted(p, disk) && |disk| == |WordsOf(p, disk)|
    requires Good(p, WordsOf(p, disk), files, owner) && i in files && files[i].live == LiveSlots(p, n)
    requires off + |data| <= 4 * p && if data == [] then k <= n else k < n
    ensures |files[i].ip| == 15
    ensures var b := BlockNumber(p, files[i].ip, WordsOf(p, disk), k);
            && (k < n ==> HasBlock(WordsOf(p, disk), owner, i, b, DataSlot(p, k)) && Height(DataSlot(p, k)) == 0)
            && (k == n && RawWord(WordsOf(p, disk), 0, 0) == 0 ==> b == 0)
            && (data != [] ==> 0 < b < |disk| && off + |data| <= |disk[b]|)
            && var disk' := Stored(disk, b, off, data);
               && Formatted(p, disk') && |disk'| == |disk|
               && Good(p, WordsOf(p, disk'), files, owner)
               && OthersSame(p, files, i, disk, disk')
               && SamePointers(p, files[i].ip, WordsOf(p, disk), files[i].ip, WordsOf(p, disk'))
               && (forall x :: 0 <= x < |disk| && x != b ==> disk'[x] == disk[x])
               && var c := Content(p, disk, files[i].ip, n);
                  && (data != [] ==> c[k] == disk[b])
                  && Content(p, disk', files[i].ip, n) == if data == [] then c else c[k := Patch(disk[b], off, data)]
  {
    hide Good, WordsOf, DataSlot, BlockNumber, LiveSlots, MaxBlocks;
    var w := WordsOf(p, disk);
    if k < n {
      BlockNumberInFile(p, w, owner, files, i, n, k);
      DataSlotSound(p, k);
      DataSlotLive(p, n, k);
      if data != [] {
        var b := BlockNumber(p, files[i].ip, w, k);
        var blk := Patch(disk[b], off, data);
        DataWrite(p, files, owner, disk, i, DataSlot(p, k), b, blk);
        DataWriteContent(p, files, owner, disk, i, k, b, blk, i, n);
        forall j: nat, m: nat | j in files && j != i && m <= MaxBlocks(p) && LiveSlots(p, m) <= files[j].live
          ensures Content(p, disk[b := blk], files[j].ip, m) == Content(p, disk, files[j].ip, m)
        {
          DataWriteContent(p, files, owner, disk, i, k, b, blk, j, m);
        }
      }
    } else {
      IpLength(p, w, owner, files, i);
      if RawWord(w, 0, 0) == 0 {
        BlockNumberPastEnd(p, w, owner, files, i, n);
      }
    }
  }

  lemma DataSlotLive(p: nat, n: nat, k: nat)
    requires p > 0 && k < n && k < MaxBlocks(p)
    ensures DataSlot(p, k) in LiveSlots(p, n)
  {
    DataSlotSound(p, k);
  }

  lemma IpLength(p: nat, w: Words, owner: map<nat, Owner>, files: map<nat, File>, i: nat)
    requires Good(p, w, files, owner) && i in files
    ensures |files[i].ip| == 15
  {
    assert Placed(p, w, owner, i, files[i]);
  }

  /** The contents of a file are whole blocks. */
  lemma ContentBlocked(p: nat, disk: Disk, owner: map<nat, Owner>, files: map<nat, File>, i: nat, n: nat)
    requires p > 0 && n <= MaxBlocks(p) && Formatted(p, disk)
    requires Good(p, WordsOf(p, disk), files, owner) && i in files && LiveSlots(p, n) <= files[i].live
    ensures Blocked(Content(p, disk, files[i].ip, n), 4 * p)
  {
    hide Good, WordsOf, DataSlot, LiveSlots, MaxBlocks;
    WordsLength(p, disk);
    forall k | 0 <= k < n ensures |Content(p, disk, files[i].ip, n)[k]| == 4 * p {
      DataSlotLive(p, n, k);
      RawInUse(p, WordsOf(p, disk), owner, files, i, DataSlot(p, k));
    }
  }

  /** The first word of the disk is not part of any file. */
  lemma FirstWordKept(p: nat, disk: Disk, disk': Disk)
    requires Formatted(p, disk) && Formatted(p, disk') && |disk'| == |disk|
    requires |disk| > 0 ==> disk'[0] == disk[0]
    ensures RawWord(WordsOf(p, disk'), 0, 0) == RawWord(WordsOf(p, disk), 0, 0)
  {
    hide Word32;
  }

  /** Refreshing the cache entry of the block just written keeps the cache equal to the disk. */
  lemma CacheRefreshed(cache: map<nat, seq<Byte>>, disk: Disk, owner: map<nat, Owner>, b: nat,
                       cache': map<nat, seq<Byte>>, disk': Disk, buffer: seq<Byte>)
    requires CacheClean(cache, disk, owner) && |disk'| == |disk|
    requires forall x :: 0 <= x < |disk| && x != b ==> disk'[x] == disk[x]
    requires forall k :: k in cache' ==>
             (k == b && cache'[k] == buffer) || (k != b && k in cache && cache'[k] == cache[k])
    requires b != 0 ==> b < |disk| && b in owner && owner[b].Of? && Height(owner[b].slot) == 0 && buffer == disk'[b]
    ensures CacheClean(cache', disk', owner)
  {
  }

  /** What a round that writes to block `k` of a file of `n` blocks does to a cache that does not forget: the
      entry of that block is `buffer`, and those of all other blocks of files are as before. */
  ghost predicate Entered(p: nat, cache: map<nat, seq<Byte>>, cache': map<nat, seq<Byte>>, owner: map<nat, Owner>,
                          i: nat, n: nat, k: nat, buffer: seq<Byte>)
    requires p > 0
  {
    && (k < n ==> forall b :: b in owner && owner[b] == Of(i, DataSlot(p, k)) ==> b in cache' && cache'[b] == buffer)
    && (forall b :: b in owner && owner[b].Of? && (k == n || owner[b] != Of(i, DataSlot(p, k))) && b in cache ==>
          b in cache' && cache'[b] == cache[b])
  }

  lemma PutEntered(p: nat, w: Words, owner: map<nat, Owner>, files: map<nat, File>, i: nat, n: nat, k: nat, b: nat,
                   cache: map<nat, seq<Byte>>, buffer: seq<Byte>)
    requires p > 0 && k <= n && Good(p, w, files, owner) && i in files
    requires if k < n then HasBlock(w, owner, i, b, DataSlot(p, k)) && b == PtrAt(files[i].ip, w, DataSlot(p, k))
             else b == 0
    ensures Entered(p, cache, cache[b := buffer], owner, i, n, k, buffer)
  {
    hide DataSlot;
    forall x | x in owner && owner[x].Of? && x == b ensures k < n && owner[x] == Of(i, DataSlot(p, k)) {
    }
    if k < n {
      forall x | x in owner && owner[x] == Of(i, DataSlot(p, k)) ensures x == b {
        assert Reached(w, files, owner[x], x);
      }
    }
  }

  /** What a round that writes to block `k` of a file of `n` blocks, from position `off` on, does to the disk and to
      any cache: no other block of a file changes, and if the block is cached it is as it was read back. */
  ghost predicate Round(p: nat, cache: map<nat, seq<Byte>>, cache': map<nat, seq<Byte>>, disk: Disk, disk': Disk,
                        owner: map<nat, Owner>, i: nat, n: nat, k: nat, off: nat)
    requires p > 0
  {
    && |disk'| == |disk| && off < 4 * p
    && (forall b :: b in owner && b < |disk| && owner[b].Of? && (k == n || owner[b] != Of(i, DataSlot(p, k))) ==>
          disk'[b] == disk[b])
    && (forall b :: b in cache' && b != 0 ==>
          if k < n && b in owner && owner[b] == Of(i, DataSlot(p, k))
          then Height(owner[b].slot) == 0 && b < |disk'| && ReadFrom(p, disk'[b], off, cache'[b])
          else b in cache && cache'[b] == cache[b])
  }

  /** `blk` is what a read of one block length from position `off` of a block gives, as far as the block goes. */
  ghost predicate ReadFrom(p: nat, now: seq<Byte>, off: nat, blk: seq<Byte>) {
    |blk| == |now| == 4 * p && off < 4 * p && blk[..4 * p - off] == now[off..]
  }

  lemma PutRound(p: nat, w: Words, owner: map<nat, Owner>, files: map<nat, File>, i: nat, n: nat, k: nat, b: nat,
                 off: nat, cache: map<nat, seq<Byte>>, cache': map<nat, seq<Byte>>, disk: Disk, disk': Disk,
                 buffer: seq<Byte>)
    requires p > 0 && k <= n && Good(p, w, files, owner) && i in files && |disk'| == |disk| && off < 4 * p
    requires if k < n then HasBlock(w, owner, i, b, DataSlot(p, k)) && b == PtrAt(files[i].ip, w, DataSlot(p, k))
                           && Height(DataSlot(p, k)) == 0 && b < |disk| && ReadFrom(p, disk'[b], off, buffer)
             else b == 0
    requires forall x :: 0 <= x < |disk| && x != b ==> disk'[x] == disk[x]
    requires forall x :: x in cache' ==>
             (x == b && cache'[x] == buffer) || (x != b && x in cache && cache'[x] == cache[x])
    ensures Round(p, cache, cache', disk, disk', owner, i, n, k, off)
  {
    hide DataSlot, ReadFrom;
    if k < n {
      forall x | x in owner && owner[x] == Of(i, DataSlot(p, k)) ensures x == b {
        assert Reached(w, files, owner[x], x);
      }
    }
  }

  /** What a write to file `i` that begins at position `off` of its block `first` does to any cache: an entry is as it
      was, or it is the block of the file as it is now, but read from `off` on in the first one. */
  ghost predicate Refilled(p: nat, cache: map<nat, seq<Byte>>, cache': map<nat, seq<Byte>>, disk: Disk,
                           owner: map<nat, Owner>, i: nat, first: nat, off: nat)
    requires p > 0
  {
    forall b :: b in cache' && b != 0 ==>
      || (b in cache && cache'[b] == cache[b])
      || (b < |disk| && b in owner && owner[b].Of? && owner[b].ino == i && Height(owner[b].slot) == 0
          && ReadFrom(p, disk[b], if owner[b].slot == DataSlot(p, first) then off else 0, cache'[b]))
  }

  lemma RefilledNone(p: nat, cache: map<nat, seq<Byte>>, disk: Disk, owner: map<nat, Owner>, i: nat, first: nat,
                     off: nat)
    requires p > 0
    ensures Refilled(p, cache, cache, disk, owner, i, first, off)
  {
  }

  lemma RefilledFirst(p: nat, cache: map<nat, seq<Byte>>, cache': map<nat, seq<Byte>>, disk: Disk, disk': Disk,
                      owner: map<nat, Owner>, i: nat, n: nat, k: nat, off: nat)
    requires p > 0 && Round(p, cache, cache', disk, disk', owner, i, n, k, off)
    ensures Refilled(p, cache, cache', disk', owner, i, k, off)
  {
    hide DataSlot, ReadFrom;
  }

  lemma RefilledMore(p: nat, cache0: map<nat, seq<Byte>>, cache: map<nat, seq<Byte>>, cache': map<nat, seq<Byte>>,
                     disk: Disk, disk': Disk, owner: map<nat, Owner>, i: nat, n: nat, first: nat, off: nat, k: nat)
    requires p > 0 && n <= MaxBlocks(p) && first < k <= n
    requires Refilled(p, cache0, cache, disk, owner, i, first, off)
    requires Round(p, cache, cache', disk, disk', owner, i, n, k, 0)
    ensures Refilled(p, cache0, cache', disk', owner, i, first, off)
  {
    hide DataSlot, ReadFrom, MaxBlocks;
    DataSlotSound(p, first);
    if k < n {
      DataSlotSound(p, k);
    }
  }

  lemma RefilledOwners(p: nat, cache: map<nat, seq<Byte>>, cache': map<nat, seq<Byte>>, disk: Disk,
                       owner: map<nat, Owner>, i: nat, first: nat, off: nat)
    requires p > 0 && Refilled(p, cache, cache', disk, owner, i, first, off)
    ensures CacheMore(cache, cache', owner, i)
  {
  }

  /** The entry of block `k` of the file is in the cache and begins with `v`. */
  ghost predicate EntryBegins(p: nat, cache: map<nat, seq<Byte>>, owner: map<nat, Owner>, i: nat, k: nat, v: Byte)
    requires p > 0
  {
    forall b :: b in owner && owner[b] == Of(i, DataSlot(p, k)) ==> b in cache && cache[b] != [] && cache[b][0] == v
  }

  lemma EntryMade(p: nat, cache: map<nat, seq<Byte>>, cache': map<nat, seq<Byte>>, owner: map<nat, Owner>, i: nat,
                  n: nat, k: nat, buffer: seq<Byte>)
    requires p > 0 && k < n && buffer != [] && Entered(p, cache, cache', owner, i, n, k, buffer)
    ensures EntryBegins(p, cache', owner, i, k, buffer[0])
  {
  }

  /** The block of byte `offset` begins with byte `v`. */
  ghost predicate BeginsWith(bytes: seq<int>, bs: nat, offset: nat, v: int)
    requires bs > 0
  {
    var start := offset - Rem(offset, bs);
    0 <= start < |bytes| && bytes[start] == v
  }

  /** If the cache is right after a write, its entry for the first block that was written begins as the
      block does. */
  lemma FirstByteCached(vol: Volume, inode: Inode, ino: nat, files: map<nat, File>, offset: nat, data: seq<Byte>)
    requires vol.p > 0 && data != [] && offset + |data| <= inode.size < TWO32
    requires Holds(vol, inode, ino, files, BlockCount(vol.p, inode.size))
    requires EntryBegins(vol.p, vol.cache, vol.owner, ino, Quot(offset, 4 * vol.p), data[0])
    requires CacheClean(vol.cache, vol.disk, vol.owner)
    ensures BeginsWith(FileBytes(vol.p, vol.disk, inode.block, inode.size), 4 * vol.p, offset, data[0])
  {
    hide Holds, Tally, Good, WordsOf, DataSlot, LiveSlots, MaxBlocks, BlockCount, BlockNumber, Quot, Rem, ByteAt;
    var p, n, k, r := vol.p, BlockCount(vol.p, inode.size), Quot(offset, 4 * vol.p), Rem(offset, 4 * vol.p);
    HoldsFacts(vol, inode, ino, files, n);
    vol.Shape();
    BlockReach(p, inode.size);
    OffsetStart(p, inode.size, offset);
    BlockNumberInFile(p, vol.Words(), vol.owner, files, ino, n, k);
    ContentBlocked(p, vol.disk, vol.owner, files, ino, n);
    var c := Content(p, vol.disk, inode.block, n);
    ByteInBlock(c, 4 * p, k, 0);
    assert Start(4 * p, k) + 0 == offset - r;
  }

  lemma EntryLasts(p: nat, cache: map<nat, seq<Byte>>, cache': map<nat, seq<Byte>>, owner: map<nat, Owner>, i: nat,
                   n: nat, k: nat, buffer: seq<Byte>, last: nat, v: Byte)
    requires p > 0 && n <= MaxBlocks(p) && last < k <= n
    requires Entered(p, cache, cache', owner, i, n, k, buffer) && EntryBegins(p, cache, owner, i, last, v)
    ensures EntryBegins(p, cache', owner, i, last, v)
  {
    hide DataSlot, MaxBlocks;
    DataSlotSound(p, last);
    if k < n {
      DataSlotSound(p, k);
    }
  }

  /** One round of the write: stores `data` in block `k` of the file from position `off` on, reads a
      block length back from there and sends it to the cache under that block's number. */
  method StoreChunk(vol: Volume, inode: Inode, k: nat, off: nat, data: seq<Byte>, prev: seq<Byte>,
                    ghost ino: nat, ghost files: map<nat, File>, ghost n: nat)
    returns (buffer: seq<Byte>)
    requires vol.p > 0 && Holds(vol, inode, ino, files, n) && n <= MaxBlocks(vol.p)
    requires off < 4 * vol.p && off + |data| <= 4 * vol.p && |prev| == 4 * vol.p
    requires if data == [] then k <= n else k < n
    modifies vol`disk, vol`cache
    ensures Holds(vol, inode, ino, files, n) && |vol.disk| == |old(vol.disk)| && |buffer| == 4 * vol.p
    ensures var c := Content(vol.p, old(vol.disk), inode.block, n);
            && Blocked(c, 4 * vol.p)
            && Content(vol.p, vol.disk, inode.block, n) == if data == [] then c else c[k := Patch(c[k], off, data)]
    ensures OthersSame(vol.p, files, ino, old(vol.disk), vol.disk)
    ensures SamePointers(vol.p, inode.block, old(vol.Words()), inode.block, vol.Words())
    ensures RawWord(vol.Words(), 0, 0) == old(RawWord(vol.Words(), 0, 0))
    ensures RawWord(vol.Words(), 0, 0) == 0 ==>
              Round(vol.p, old(vol.cache), vol.cache, old(vol.disk), vol.disk, vol.owner, ino, n, k, off)
    ensures off == 0 && RawWord(vol.Words(), 0, 0) == 0 && CacheClean(old(vol.cache), old(vol.disk), vol.owner) ==>
              CacheClean(vol.cache, vol.disk, vol.owner)
    ensures !vol.forgets && RawWord(vol.Words(), 0, 0) == 0 ==>
              Entered(vol.p, old(vol.cache), vol.cache, vol.owner, ino, n, k, buffer)
    ensures data != [] ==> buffer[0] == data[0]
  {
    hide Round, Holds, Tally, Good, WordsOf, Content, OthersSame, CacheClean, BlockNumber, DataSlot, LiveSlots,
         MaxBlocks, Volume.Consistent, RawWord, SamePointers, Entered;
    ghost var p, disk, owner, cache := vol.p, vol.disk, vol.owner, vol.cache;
    HoldsFacts(vol, inode, ino, files, n);
    vol.Shape();
    StoreFacts(p, disk, owner, files, ino, n, k, off, data);
    ContentBlocked(p, disk, owner, files, ino, n);
    var b := BlockNumber(vol.p, inode.block, vol.Words(), k);
    vol.WriteBytes(b, off, data);
    HoldsAgain(vol, inode, ino, files, n);
    vol.Shape();
    FirstWordKept(p, disk, vol.disk);
    buffer := ReadAcross(vol.p, vol.disk, b, off, prev);
    vol.CachePut(b, buffer);
    if RawWord(vol.Words(), 0, 0) == 0 {
      if k < n {
        BlockNumberInFile(p, WordsOf(p, disk), owner, files, ino, n, k);
        DataSlotSound(p, k);
        AcrossFrom(p, vol.disk, b, off, prev);
      }
      PutRound(p, WordsOf(p, disk), owner, files, ino, n, k, b, off, cache, vol.cache, disk, vol.disk, buffer);
      PutEntered(p, WordsOf(p, disk), owner, files, ino, n, k, b, cache, buffer);
    }
    if off == 0 && RawWord(vol.Words(), 0, 0) == 0 && CacheClean(cache, disk, owner) {
      CacheRefreshed(cache, disk, owner, b, vol.cache, vol.disk, buffer);
    }
  }

  lemma AcrossFrom(p: nat, disk: Disk, b: nat, off: nat, prev: seq<Byte>)
    requires Formatted(p, disk) && off < 4 * p && |prev| == 4 * p && b < |disk|
    ensures ReadFrom(p, disk[b], off, ReadAcross(p, disk, b, off, prev))
  {
  }

  lemma PutMore(cache: map<nat, seq<Byte>>, cache': map<nat, seq<Byte>>, owner: map<nat, Owner>, b: nat, i: nat)
    requires forall k :: k in cache' ==> k == b || k in cache
    requires b != 0 ==> b in owner && owner[b].Of? && owner[b].ino == i
    ensures CacheMore(cache, cache', owner, i)
  {
  }

  lemma CacheGrown(cache: map<nat, seq<Byte>>, disk: Disk, owner: map<nat, Owner>, disk': Disk, owner': map<nat, Owner>)
    requires CacheClean(cache, disk, owner) && Grown(owner, disk, owner', disk')
    ensures CacheClean(cache, disk', owner')
  {
  }

  /** The first `n` blocks of a file's contents. */
  lemma ContentPrefix(p: nat, disk: Disk, ip: seq<nat>, m: nat, n: nat)
    requires p > 0 && m <= n
    ensures Content(p, disk, ip, n)[..m] == Content(p, disk, ip, m)
  {
  }

  lemma ByteOfPrefix(blocks: seq<seq<Byte>>, m: nat, bs: nat, x: nat)
    requires bs > 0 && m <= |blocks| && x < m * bs
    ensures ByteAt(blocks[..m], bs, x) == ByteAt(blocks, bs, x)
  {
    DivBound(x, bs, m);
  }

  /** In a file of `size` bytes, byte `offset` is in block `offset / bs`. */
  lemma OffsetBlock(p: nat, size: nat, offset: nat)
    requires p > 0 && offset <= size
    ensures Quot(offset, 4 * p) <= BlockCount(p, size)
    ensures offset < size ==> Quot(offset, 4 * p) < BlockCount(p, size)
    ensures Quot(offset, 4 * p) * (4 * p) + Rem(offset, 4 * p) == offset
    ensures Rem(offset, 4 * p) > 0 ==> Quot(offset, 4 * p) < BlockCount(p, size)
  {
    BlockCountIs(p, size);
    var bs, n := 4 * p, BlockCount(p, size);
    DivBound(offset, bs, n + 1);
    if offset < n * bs {
      DivBound(offset, bs, n);
    } else {
      DivMod(bs, n, 0);
    }
    hide BlockCount;
  }

  lemma OthersSameRefl(p: nat, files: map<nat, File>, ino: nat, disk: Disk)
    requires p > 0
    ensures OthersSame(p, files, ino, disk, disk)
  {
  }

  lemma OthersSameTrans(p: nat, files: map<nat, File>, ino: nat, disk: Disk, disk1: Disk, disk2: Disk)
    requires p > 0 && OthersSame(p, files, ino, disk, disk1) && OthersSame(p, files, ino, disk1, disk2)
    ensures OthersSame(p, files, ino, disk, disk2)
  {
    hide Content, LiveSlots, MaxBlocks;
  }

  lemma SamePointersTrans(p: nat, ip: seq<nat>, w: Words, w1: Words, w2: Words)
    requires SamePointers(p, ip, w, ip, w1) && SamePointers(p, ip, w1, ip, w2)
    ensures SamePointers(p, ip, w, ip, w2)
  {
  }

  /** The first `done` bytes of `data` are written; `before` and `disk0` are as they were at the start. */
  ghost predicate Progress(p: nat, files: map<nat, File>, ino: nat, n: nat, ip: seq<nat>, disk0: Disk, disk: Disk,
                           before: seq<seq<Byte>>, offset: nat, data: seq<Byte>, done: nat)
    requires p > 0
  {
    && |disk| == |disk0| && OthersSame(p, files, ino, disk0, disk)
    && SamePointers(p, ip, WordsOf(p, disk0), ip, WordsOf(p, disk))
    && |before| == n && Written(before, Content(p, disk, ip, n), 4 * p, offset, data, done)
  }

  /** Where block `k` starts. */
  function Start(bs: nat, k: nat): nat {
    k * bs
  }

  /** Stores the next `m` bytes. */
  method StorePiece(vol: Volume, inode: Inode, k: nat, off: nat, m: nat, offset: nat,
                    data: seq<Byte>, done: nat, prev: seq<Byte>,
                    ghost ino: nat, ghost files: map<nat, File>, ghost n: nat, ghost disk0: Disk,
                      ghost before: seq<seq<Byte>>)
    returns (buffer: seq<Byte>)
    requires vol.p > 0 && Holds(vol, inode, ino, files, n) && n <= MaxBlocks(vol.p)
    requires Progress(vol.p, files, ino, n, inode.block, disk0, vol.disk, before, offset, data, done)
    requires off < 4 * vol.p && off + m <= 4 * vol.p && done + m <= |data| && |prev| == 4 * vol.p
    requires Start(4 * vol.p, k) + off == offset + done && if m == 0 then k <= n else k < n
    modifies vol`disk, vol`cache
    ensures Holds(vol, inode, ino, files, n) && |buffer| == 4 * vol.p
    ensures Progress(vol.p, files, ino, n, inode.block, disk0, vol.disk, before, offset, data, done + m)
    ensures RawWord(vol.Words(), 0, 0) == old(RawWord(vol.Words(), 0, 0))
    ensures RawWord(vol.Words(), 0, 0) == 0 ==>
              Round(vol.p, old(vol.cache), vol.cache, old(vol.disk), vol.disk, vol.owner, ino, n, k, off)
    ensures off == 0 && RawWord(vol.Words(), 0, 0) == 0 && CacheClean(old(vol.cache), old(vol.disk), vol.owner) ==>
              CacheClean(vol.cache, vol.disk, vol.owner)
    ensures !vol.forgets && RawWord(vol.Words(), 0, 0) == 0 ==>
              Entered(vol.p, old(vol.cache), vol.cache, vol.owner, ino, n, k, buffer)
    ensures m > 0 ==> buffer[0] == data[done]
  {
    hide Round, Holds, WordsOf, Content, OthersSame, CacheClean, MaxBlocks, RawWord, Written, Blocked, SamePointers,
         Entered;
    ghost var p, disk := vol.p, vol.disk;
    var piece := data[done..done + m];
    buffer := StoreChunk(vol, inode, k, off, piece, prev, ino, files, n);
    OthersSameTrans(p, files, ino, disk0, disk, vol.disk);
    SamePointersTrans(p, inode.block, WordsOf(p, disk0), WordsOf(p, disk), vol.Words());
    if m > 0 {
      WrittenStep(before, Content(p, disk, inode.block, n), 4 * p, offset, data, done, k, off, m);
    }
  }

  /** The part of `Dir_escribirArchivo` that writes, in a file that is long enough: a first piece up to
      the end of its block, whole blocks while more than one is left, and the rest. */
  method Overwrite(vol: Volume, inode: Inode, offset: nat, data: seq<Byte>, ghost ino: nat, ghost files: map<nat, File>)
    requires vol.p > 0 && inode.size < TWO32 && offset + |data| <= inode.size
    requires Holds(vol, inode, ino, files, BlockCount(vol.p, inode.size))
    modifies vol`disk, vol`cache
    ensures Holds(vol, inode, ino, files, BlockCount(vol.p, inode.size))
    ensures var n := BlockCount(vol.p, inode.size);
            Progress(vol.p, files, ino, n, inode.block, old(vol.disk), vol.disk,
                     Content(vol.p, old(vol.disk), inode.block, n), offset, data, |data|)
    ensures RawWord(vol.Words(), 0, 0) == old(RawWord(vol.Words(), 0, 0))
    ensures RawWord(vol.Words(), 0, 0) == 0 ==>
              Refilled(vol.p, old(vol.cache), vol.cache, vol.disk, vol.owner, ino,
                       Quot(offset, 4 * vol.p), Rem(offset, 4 * vol.p))
    ensures Rem(offset, 4 * vol.p) == 0 && RawWord(vol.Words(), 0, 0) == 0 &&
            CacheClean(old(vol.cache), old(vol.disk), vol.owner) ==>
              CacheClean(vol.cache, vol.disk, vol.owner)
    ensures !vol.forgets && RawWord(vol.Words(), 0, 0) == 0 && data != [] ==>
              EntryBegins(vol.p, vol.cache, vol.owner, ino, Quot(offset, 4 * vol.p), data[0])
  {
    hide Round, Refilled, Holds, Tally, Good, WordsOf, Content, CacheClean, LiveSlots, MaxBlocks,
         RawWord, BlockCount, Quot, Rem, Progress, Start, Entered, EntryBegins;
    ghost var p, n, disk := vol.p, BlockCount(vol.p, inode.size), vol.disk;
    ghost var before := Content(p, disk, inode.block, n);
    HoldsFacts(vol, inode, ino, files, n);
    BlockReach(p, inode.size);
    OffsetStart(p, inode.size, offset);
    StartProgress(vol, inode, ino, files, n, offset, data);

    var bs := 4 * vol.p;
    var nro := Quot(offset, bs);
    var off := Rem(offset, bs);
    var first := bs - off;
    var buffer := Zeros(bs);
    ghost var cache0 := vol.cache;
    if |data| < first {
      buffer := StorePiece(vol, inode, nro, off, |data|, offset, data, 0, buffer, ino, files, n, disk, before);
      if RawWord(vol.Words(), 0, 0) == 0 {
        RefilledFirst(p, cache0, vol.cache, disk, vol.disk, vol.owner, ino, n, nro, off);
        if !vol.forgets && data != [] {
          EntryMade(p, cache0, vol.cache, vol.owner, ino, n, nro, buffer);
        }
      }
    } else {
      buffer := StorePiece(vol, inode, nro, off, first, offset, data, 0, buffer, ino, files, n, disk, before);
      if RawWord(vol.Words(), 0, 0) == 0 {
        RefilledFirst(p, cache0, vol.cache, disk, vol.disk, vol.owner, ino, n, nro, off);
        if !vol.forgets {
          EntryMade(p, cache0, vol.cache, vol.owner, ino, n, nro, buffer);
        }
      }
      StoreRest(vol, inode, nro, off, offset, data, first, buffer, ino, files, n, disk, before, cache0);
    }
  }

  /** Whole blocks while more than one is left, and then the rest, in the blocks after block `last`. */
  method StoreRest(vol: Volume, inode: Inode, last: nat, ghost off: nat, offset: nat, data: seq<Byte>, from: nat,
                   prev: seq<Byte>, ghost ino: nat, ghost files: map<nat, File>, ghost n: nat, ghost disk0: Disk,
                   ghost before: seq<seq<Byte>>, ghost cache0: map<nat, seq<Byte>>)
    requires vol.p > 0 && inode.size < TWO32 && offset + |data| <= inode.size && from <= |data|
    requires n == BlockCount(vol.p, inode.size) && Holds(vol, inode, ino, files, n) && n <= MaxBlocks(vol.p)
    requires Progress(vol.p, files, ino, n, inode.block, disk0, vol.disk, before, offset, data, from)
    requires Start(4 * vol.p, last + 1) == offset + from && |prev| == 4 * vol.p && last < n && 0 < from
    requires RawWord(vol.Words(), 0, 0) == 0 ==>
               Refilled(vol.p, cache0, vol.cache, vol.disk, vol.owner, ino, last, off)
    modifies vol`disk, vol`cache
    ensures Holds(vol, inode, ino, files, n)
    ensures Progress(vol.p, files, ino, n, inode.block, disk0, vol.disk, before, offset, data, |data|)
    ensures RawWord(vol.Words(), 0, 0) == old(RawWord(vol.Words(), 0, 0))
    ensures RawWord(vol.Words(), 0, 0) == 0 ==>
              Refilled(vol.p, cache0, vol.cache, vol.disk, vol.owner, ino, last, off)
    ensures RawWord(vol.Words(), 0, 0) == 0 && CacheClean(old(vol.cache), old(vol.disk), vol.owner) ==>
              CacheClean(vol.cache, vol.disk, vol.owner)
    ensures !vol.forgets && RawWord(vol.Words(), 0, 0) == 0 &&
            EntryBegins(vol.p, old(vol.cache), vol.owner, ino, last, data[0]) ==>
              EntryBegins(vol.p, vol.cache, vol.owner, ino, last, data[0])
  {
    hide Round, Refilled, Holds, WordsOf, Content, CacheClean, MaxBlocks, RawWord, BlockCount, Progress, Start, Entered,
         EntryBegins;
    ghost var p := vol.p;
    var bs := 4 * vol.p;
    var nro, done, buffer := last, from, prev;
    while |data| - done > bs
      invariant done <= |data| && last <= nro && Start(bs, nro + 1) == offset + done
      invariant |buffer| == bs && Holds(vol, inode, ino, files, n)
      invariant Progress(p, files, ino, n, inode.block, disk0, vol.disk, before, offset, data, done)
      invariant RawWord(vol.Words(), 0, 0) == old(RawWord(vol.Words(), 0, 0))
      invariant RawWord(vol.Words(), 0, 0) == 0 ==> Refilled(p, cache0, vol.cache, vol.disk, vol.owner, ino, last, off)
      invariant RawWord(vol.Words(), 0, 0) == 0 && CacheClean(old(vol.cache), old(vol.disk), vol.owner) ==>
                  CacheClean(vol.cache, vol.disk, vol.owner)
      invariant !vol.forgets && RawWord(vol.Words(), 0, 0) == 0 &&
                EntryBegins(p, old(vol.cache), vol.owner, ino, last, data[0]) ==>
                  EntryBegins(p, vol.cache, vol.owner, ino, last, data[0])
    {
      nro := nro + 1;
      NextBlock(p, inode.size, nro, offset + done);
      ghost var cache1, disk1 := vol.cache, vol.disk;
      buffer := StorePiece(vol, inode, nro, 0, bs, offset, data, done, buffer, ino, files, n, disk0, before);
      if RawWord(vol.Words(), 0, 0) == 0 {
        RefilledMore(p, cache0, cache1, vol.cache, disk1, vol.disk, vol.owner, ino, n, last, off, nro);
        if !vol.forgets && EntryBegins(p, cache1, vol.owner, ino, last, data[0]) {
          EntryLasts(p, cache1, vol.cache, vol.owner, ino, n, nro, buffer, last, data[0]);
        }
      }
      done := done + bs;
    }
    nro := nro + 1;
    NextBlock(p, inode.size, nro, offset + done);
    ghost var cache2, disk2 := vol.cache, vol.disk;
    buffer := StorePiece(vol, inode, nro, 0, |data| - done, offset, data, done, buffer, ino, files, n, disk0, before);
    if RawWord(vol.Words(), 0, 0) == 0 {
      RefilledMore(p, cache0, cache2, vol.cache, disk2, vol.disk, vol.owner, ino, n, last, off, nro);
      if !vol.forgets && EntryBegins(p, cache2, vol.owner, ino, last, data[0]) {
        EntryLasts(p, cache2, vol.cache, vol.owner, ino, n, nro, buffer, last, data[0]);
      }
    }
  }

  lemma OffsetStart(p: nat, size: nat, offset: nat)
    requires p > 0 && offset <= size
    ensures var q, r := Quot(offset, 4 * p), Rem(offset, 4 * p);
            && q <= BlockCount(p, size) && (offset < size ==> q < BlockCount(p, size))
            && Start(4 * p, q) + r == offset && Start(4 * p, q + 1) == offset + (4 * p - r)
  {
    OffsetBlock(p, size, offset);
  }

  lemma StartProgress(vol: Volume, inode: Inode, ino: nat, files: map<nat, File>, n: nat, offset: nat, data: seq<Byte>)
    requires vol.p > 0 && Holds(vol, inode, ino, files, n) && n <= MaxBlocks(vol.p)
    ensures Progress(vol.p, files, ino, n, inode.block, vol.disk, vol.disk, Content(vol.p, vol.disk, inode.block, n),
                     offset, data, 0)
  {
    hide Good, WordsOf, Content, Written, OthersSame;
    OthersSameRefl(vol.p, files, ino, vol.disk);
    ContentBlocked(vol.p, vol.disk, vol.owner, files, ino, n);
    ContentLength(vol.p, vol.disk, inode.block, n);
    WrittenNone(Content(vol.p, vol.disk, inode.block, n), 4 * vol.p, offset, data);
  }

  lemma ContentLength(p: nat, disk: Disk, ip: seq<nat>, n: nat)
    requires p > 0
    ensures |Content(p, disk, ip, n)| == n
  {
  }

  /** The block that starts at byte `at` of a file. */
  lemma NextBlock(p: nat, size: nat, k: nat, at: nat)
    requires p > 0 && Start(4 * p, k) == at <= size
    ensures Start(4 * p, k + 1) == at + 4 * p
    ensures k <= BlockCount(p, size) && (at < size ==> k < BlockCount(p, size))
  {
    OffsetBlock(p, size, at);
    DivMod(4 * p, k, 0);
  }

  /** The bytes of a file of `size` bytes. */
  function FileBytes(p: nat, disk: Disk, ip: seq<nat>, size: nat): (bytes: seq<int>)
    requires p > 0
    ensures |bytes| == size
  {
    seq(size, x requires 0 <= x => ByteAt(Content(p, disk, ip, BlockCount(p, size)), 4 * p, x))
  }

  /** Byte `x` of a file is byte `x % bs` of the disk block that the address computation gives for block `x / bs`,
      where `bs` is the block size. */
  lemma FileByte(p: nat, disk: Disk, owner: map<nat, Owner>, files: map<nat, File>, i: nat, size: nat, x: nat)
    requires (p == 256 || p == 512 || p == 1024) && size < TWO32 && Formatted(p, disk) && x < size
    requires Good(p, WordsOf(p, disk), files, owner) && i in files && files[i].live == LiveSlots(p, BlockCount(p, size))
    ensures |files[i].ip| == 15
    ensures var b := BlockNumber(p, files[i].ip, WordsOf(p, disk), x / (4 * p));
            && 0 < b < |disk| && |disk[b]| == 4 * p
            && FileBytes(p, disk, files[i].ip, size)[x] == disk[b][x % (4 * p)]
  {
    var n, k := BlockCount(p, size), Quot(x, 4 * p);
    ByteBlock(p, size, x);
    hide Good, WordsOf, BlockNumber, DataSlot, LiveSlots, MaxBlocks, BlockCount;
    BlockReach(p, size);
    BlockFound(p, disk, owner, files, i, n, k);
    ContentBlocked(p, disk, owner, files, i, n);
    ContentLength(p, disk, files[i].ip, n);
  }

  lemma ByteBlock(p: nat, size: nat, x: nat)
    requires p > 0 && x < size
    ensures Quot(x, 4 * p) < BlockCount(p, size)
  {
    BlockCountIs(p, size);
    DivBound(x, 4 * p, BlockCount(p, size));
  }

  /** The bytes that the disk holds where a file of `size` bytes is, by `ip` and the pointer words `w`. */
  function HeldBytes(p: nat, disk: Disk, w: Words, ip: seq<nat>, size: nat): (bytes: seq<int>)
    requires p > 0
    ensures |bytes| == size
  {
    seq(size, x requires 0 <= x => ByteAt(HeldAt(p, disk, w, ip, BlockCount(p, size)), 4 * p, x))
  }

  lemma BytesHeld(p: nat, disk: Disk, disk': Disk, w: Words, ip: seq<nat>, size: nat)
    requires p > 0
    requires Content(p, disk', ip, BlockCount(p, size)) == HeldAt(p, disk, w, ip, BlockCount(p, size))
    ensures FileBytes(p, disk', ip, size) == HeldBytes(p, disk, w, ip, size)
  {
  }

  /** `bytes` with `data` written over it from `offset` on, longer if need be. */
  function Splice(bytes: seq<int>, offset: nat, data: seq<int>): seq<int>
    requires offset <= |bytes|
  {
    bytes[..offset] + data + if offset + |data| <= |bytes| then bytes[offset + |data|..] else []
  }

  /** What a file holds after a write: the data in its range, and its old bytes elsewhere. */
  ghost predicate Wrote(old_: seq<int>, new_: seq<int>, offset: nat, data: seq<Byte>) {
    && |new_| == (if offset + |data| <= |old_| then |old_| else offset + |data|)
    && (forall x :: offset <= x < offset + |data| ==> new_[x] == data[x - offset])
    && (forall x :: 0 <= x < |old_| && !(offset <= x < offset + |data|) ==> new_[x] == old_[x])
  }

  lemma WroteIsSplice(old_: seq<int>, new_: seq<int>, offset: nat, data: seq<Byte>)
    requires Wrote(old_, new_, offset, data) && offset <= |old_|
    ensures new_ == Splice(old_, offset, data)
  {
  }

  lemma WroteBytes(p: nat, ip0: seq<nat>, disk0: Disk, size0: nat, ip: seq<nat>, disk1: Disk, disk2: Disk, size: nat,
                   offset: nat, data: seq<Byte>)
    requires p > 0 && size == (if offset + |data| <= size0 then size0 else offset + |data|)
    requires Content(p, disk1, ip, BlockCount(p, size0)) == Content(p, disk0, ip0, BlockCount(p, size0))
    requires var n := BlockCount(p, size);
             Written(Content(p, disk1, ip, n), Content(p, disk2, ip, n), 4 * p, offset, data, |data|)
    ensures Wrote(FileBytes(p, disk0, ip0, size0), FileBytes(p, disk2, ip, size), offset, data)
  {
    var m, n := BlockCount(p, size0), BlockCount(p, size);
    BlockCountMonotone(p, size0, size);
    BlockCountIs(p, size0);
    BlockCountIs(p, size);
    ContentPrefix(p, disk1, ip, m, n);
    ContentLength(p, disk1, ip, n);
    hide Content, BlockCount, ByteAt;
    var c0, c1, c2 := Content(p, disk0, ip0, m), Content(p, disk1, ip, n), Content(p, disk2, ip, n);
    forall x | 0 <= x < size
      ensures ByteAt(c2, 4 * p, x) == if offset <= x < offset + |data| then data[x - offset] else ByteAt(c1, 4 * p, x)
      ensures x < size0 ==> ByteAt(c1, 4 * p, x) == ByteAt(c0, 4 * p, x)
    {
      assert x < |c1| * (4 * p);
      if x < size0 {
        ByteOfPrefix(c1, m, 4 * p, x);
      }
    }
  }

  lemma SplicedBytes(p: nat, ip: seq<nat>, disk1: Disk, disk2: Disk, size: nat, offset: nat, data: seq<Byte>)
    requires p > 0 && offset + |data| <= size
    requires var n := BlockCount(p, size);
             Written(Content(p, disk1, ip, n), Content(p, disk2, ip, n), 4 * p, offset, data, |data|)
    ensures FileBytes(p, disk2, ip, size) == Splice(FileBytes(p, disk1, ip, size), offset, data)
  {
    BlockCountIs(p, size);
    ContentLength(p, disk1, ip, BlockCount(p, size));
    hide Content, BlockCount, ByteAt;
    var before, after := FileBytes(p, disk1, ip, size), FileBytes(p, disk2, ip, size);
    forall x | 0 <= x < size ensures after[x] == if offset <= x < offset + |data| then data[x - offset] else before[x] {
    }
  }

  /** The contents of every file but `ino` are untouched when `ino` grows. */
  lemma OthersGrown(p: nat, files: map<nat, File>, owner: map<nat, Owner>, disk: Disk, ino: nat, f': File,
                    owner': map<nat, Owner>, disk': Disk)
    requires p > 0 && ino in files
    requires Good(p, WordsOf(p, disk), files, owner) && Good(p, WordsOf(p, disk'), files[ino := f'], owner')
    requires Grown(owner, disk, owner', disk')
    ensures OthersSame(p, files, ino, disk, disk')
  {
    hide Good, WordsOf, Content, Grown, LiveSlots, MaxBlocks;
    forall j: nat, m: nat | j in files && j != ino && m <= MaxBlocks(p) && LiveSlots(p, m) <= files[j].live
      ensures Content(p, disk', files[j].ip, m) == Content(p, disk, files[j].ip, m)
    {
      ContentGrown(p, files, owner, disk, files[ino := f'], owner', disk', j, m);
    }
  }

  lemma OthersSameFile(p: nat, files: map<nat, File>, ino: nat, f': File, disk: Disk, disk': Disk)
    requires p > 0 && OthersSame(p, files[ino := f'], ino, disk, disk')
    ensures OthersSame(p, files, ino, disk, disk')
  {
    hide Content, LiveSlots, MaxBlocks;
    forall j: nat, m: nat | j in files && j != ino && m <= MaxBlocks(p) && LiveSlots(p, m) <= files[j].live
      ensures Content(p, disk', files[j].ip, m) == Content(p, disk, files[j].ip, m)
    {
      assert files[ino := f'][j] == files[j];
    }
  }

  /** The contents of every file are the same on both disks. */
  ghost predicate AllSame(p: nat, files: map<nat, File>, disk: Disk, disk': Disk)
    requires p > 0
  {
    forall j: nat, m: nat :: j in files && m <= MaxBlocks(p) && LiveSlots(p, m) <= files[j].live ==>
      Content(p, disk', files[j].ip, m) == Content(p, disk, files[j].ip, m)
  }

  lemma AllSameRestored(p: nat, files: map<nat, File>, owner: map<nat, Owner>, disk: Disk, disk': Disk)
    requires p > 0 && |disk'| == |disk|
    requires Good(p, WordsOf(p, disk), files, owner) && Good(p, WordsOf(p, disk'), files, owner)
    requires forall b :: b in owner && b < |disk| && !IsPointerBlock(owner, b) ==> disk'[b] == disk[b]
    ensures AllSame(p, files, disk, disk')
  {
    hide Good, WordsOf, Content, LiveSlots, MaxBlocks;
    forall j: nat, m: nat | j in files && m <= MaxBlocks(p) && LiveSlots(p, m) <= files[j].live
      ensures Content(p, disk', files[j].ip, m) == Content(p, disk, files[j].ip, m)
    {
      ContentKept(p, files, owner, disk, files, owner, disk', j, m);
    }
  }

  lemma CacheRestored(cache: map<nat, seq<Byte>>, disk: Disk, owner: map<nat, Owner>, disk': Disk)
    requires CacheClean(cache, disk, owner) && |disk'| == |disk|
    requires forall b :: b in owner && b < |disk| && !IsPointerBlock(owner, b) ==> disk'[b] == disk[b]
    ensures CacheClean(cache, disk', owner)
  {
  }

  /** `Dir_escribirArchivo`: writes `data` into the file from byte `offset` on, growing it if need be. */
  method WriteFile(vol: Volume, inode: Inode, offset: nat, data: seq<Byte>, ghost ino: nat, ghost files: map<nat, File>)
    returns (r: int)
    requires vol.p > 0 && inode.size < TWO32 && offset + |data| < TWO32
    requires Holds(vol, inode, ino, files, BlockCount(vol.p, inode.size))
    modifies vol`disk, vol`owner, vol`cache, vol.blocks, inode`block, inode`size
    ensures r == if offset + |data| > old(inode.size) &&
                    old(vol.blocks.totalFree) < BlocksTaken(vol.p, BlockCount(vol.p, old(inode.size)),
                                                            BlockCount(vol.p, offset + |data|))
                 then -1 else |data|
    ensures r != -1 ==> var n := BlockCount(vol.p, inode.size);
                        Holds(vol, inode, ino, files[ino := File(inode.block, LiveSlots(vol.p, n))], n)
    ensures r != -1 ==> inode.size < TWO32
    ensures offset + |data| <= old(inode.size) ==> inode.size == old(inode.size) && inode.block == old(inode.block)
    ensures r != -1 ==>
              Wrote(FileBytes(vol.p, old(vol.disk), old(inode.block), old(inode.size)),
                    FileBytes(vol.p, vol.disk, inode.block, inode.size), offset, data)
    ensures r != -1 && offset <= old(inode.size) ==>
              FileBytes(vol.p, vol.disk, inode.block, inode.size) ==
              Splice(FileBytes(vol.p, old(vol.disk), old(inode.block), old(inode.size)), offset, data)
    ensures r != -1 ==> offset + |data| <= inode.size
    ensures r != -1 ==>
              FileBytes(vol.p, vol.disk, inode.block, inode.size) ==
              Splice(HeldBytes(vol.p, old(vol.disk), vol.Words(), inode.block, inode.size), offset, data)
    ensures r != -1 && data != [] && !vol.forgets && RawWord(vol.Words(), 0, 0) == 0 &&
            CacheClean(vol.cache, vol.disk, vol.owner) ==>
              BeginsWith(FileBytes(vol.p, vol.disk, inode.block, inode.size), 4 * vol.p, offset, data[0])
    ensures r != -1 ==> OthersSame(vol.p, files, ino, old(vol.disk), vol.disk)
    ensures SameMeta(old(vol.owner), vol.owner) && Within(old(vol.owner), vol.owner)
    ensures r == -1 ==> inode.size == old(inode.size) && inode.block == old(inode.block)
    ensures r == -1 ==> Holds(vol, inode, ino, files, BlockCount(vol.p, inode.size)) && vol.owner == old(vol.owner)
    ensures r == -1 ==> vol.blocks.bitmap == old(vol.blocks.bitmap) && vol.blocks.groupFree == old(vol.blocks.groupFree)
    ensures r == -1 ==> vol.blocks.totalFree == old(vol.blocks.totalFree) && vol.cache == old(vol.cache)
    ensures r == -1 ==> AllSame(vol.p, files, old(vol.disk), vol.disk)
    ensures RawWord(vol.Words(), 0, 0) == old(RawWord(vol.Words(), 0, 0))
    ensures RawWord(vol.Words(), 0, 0) == 0 ==>
              Refilled(vol.p, old(vol.cache), vol.cache, vol.disk, vol.owner, ino,
                       Quot(offset, 4 * vol.p), Rem(offset, 4 * vol.p))
    ensures Rem(offset, 4 * vol.p) == 0 && RawWord(vol.Words(), 0, 0) == 0 &&
            CacheClean(old(vol.cache), old(vol.disk), old(vol.owner)) ==>
              CacheClean(vol.cache, vol.disk, vol.owner)
  {
    hide Refilled, Within, Holds, Tally, Good, Grown, WordsOf, Content, CacheClean, OthersSame, AllSame, FileBytes,
         Wrote, LiveSlots, MaxBlocks, RawWord, BlockCount, Quot, Rem,
         SamePointers, Settled, BlocksTaken, SameMeta, Splice, HeldAt, HeldBytes, EntryBegins, BeginsWith;
    SameMetaRefl(vol.owner);
    WithinRefl(vol.owner);
    ghost var p, disk0, owner0, size0, ip0 := vol.p, vol.disk, vol.owner, inode.size, inode.block;
    ghost var n0, now := BlockCount(p, size0), files;
    HoldsFacts(vol, inode, ino, files, n0);
    vol.Shape();
    BlockReach(p, size0);
    assert files[ino := File(inode.block, LiveSlots(p, n0))] == files;
    if offset + |data| > inode.size {
      var error := TruncateUp(vol, inode, offset + |data|, ino, files);
      if error == -1 {
        HoldsFacts(vol, inode, ino, files, n0);
        vol.Shape();
        FirstWordKept(p, disk0, vol.disk);
        RefilledNone(p, vol.cache, vol.disk, vol.owner, ino, Quot(offset, 4 * p), Rem(offset, 4 * p));
        AllSameRestored(p, files, owner0, disk0, vol.disk);
        if CacheClean(vol.cache, disk0, owner0) {
          CacheRestored(vol.cache, disk0, owner0, vol.disk);
        }
        return -1;
      }
      now := files[ino := File(inode.block, LiveSlots(p, BlockCount(p, inode.size)))];
      GrowthKeeps(vol, inode, ino, files, now, disk0, owner0, size0);
    } else {
      OthersSameRefl(p, files, ino, disk0);
      ContentHeld(p, disk0, inode.block, n0);
    }
    ghost var disk1, n := vol.disk, BlockCount(p, inode.size);
    BlockReach(p, inode.size);
    Overwrite(vol, inode, offset, data, ino, now);
    FinishWrite(p, files, now, ino, ip0, disk0, size0, inode.block, disk1, vol.disk, inode.size, offset, data);
    FinishHeld(p, now, ino, inode.block, disk0, disk1, vol.disk, inode.size, offset, data);
    if offset <= size0 {
      WroteIsSplice(FileBytes(p, disk0, ip0, size0), FileBytes(p, vol.disk, inode.block, inode.size), offset, data);
    }
    if data != [] && !vol.forgets && RawWord(vol.Words(), 0, 0) == 0 && CacheClean(vol.cache, vol.disk, vol.owner) {
      FirstByteCached(vol, inode, ino, now, offset, data);
    }
    return |data|;
  }

  /** After growing: bytes, other files, cache and the first word are as before. */
  lemma GrowthKeeps(vol: Volume, inode: Inode, ino: nat, files: map<nat, File>, now: map<nat, File>, disk0: Disk,
                    owner0: map<nat, Owner>, size0: nat)
    requires vol.p > 0 && Formatted(vol.p, disk0) && |vol.disk| == |disk0| && ino in files
    requires BlockCount(vol.p, size0) <= MaxBlocks(vol.p)
    requires files[ino].live == LiveSlots(vol.p, BlockCount(vol.p, size0))
    requires Good(vol.p, WordsOf(vol.p, disk0), files, owner0) && Grown(owner0, disk0, vol.owner, vol.disk)
    requires now == files[ino := File(inode.block, LiveSlots(vol.p, BlockCount(vol.p, inode.size)))]
    requires Holds(vol, inode, ino, now, BlockCount(vol.p, inode.size))
    requires |disk0| > 0 ==> vol.disk[0] == disk0[0]
    ensures OthersSame(vol.p, files, ino, disk0, vol.disk)
    ensures var n0 := BlockCount(vol.p, size0);
            Content(vol.p, vol.disk, inode.block, n0) == Content(vol.p, disk0, files[ino].ip, n0)
    ensures var n := BlockCount(vol.p, inode.size);
            n <= MaxBlocks(vol.p) ==>
              Content(vol.p, vol.disk, inode.block, n) == HeldAt(vol.p, disk0, vol.Words(), inode.block, n)
    ensures RawWord(vol.Words(), 0, 0) == RawWord(WordsOf(vol.p, disk0), 0, 0) && SameMeta(owner0, vol.owner)
    ensures Within(owner0, vol.owner)
    ensures DataKept(owner0, disk0, vol.owner, vol.disk, {ino})
    ensures SlotsKept(owner0, disk0, vol.owner, vol.disk, ino, now[ino].live)
    ensures CacheClean(vol.cache, disk0, owner0) ==> CacheClean(vol.cache, vol.disk, vol.owner)
  {
    hide Holds, Tally, Good, Grown, WordsOf, Content, OthersSame, LiveSlots, MaxBlocks, RawWord, BlockCount,
         CacheClean, DataKept, SlotsKept, HeldAt;
    var p := vol.p;
    var n := BlockCount(p, inode.size);
    GrownKeepsData(owner0, disk0, vol.owner, vol.disk, {ino}, ino, now[ino].live);
    HoldsFacts(vol, inode, ino, now, BlockCount(p, inode.size));
    vol.Shape();
    OthersGrown(p, files, owner0, disk0, ino, now[ino], vol.owner, vol.disk);
    GrownMeta(owner0, disk0, vol.owner, vol.disk);
    ContentGrown(p, files, owner0, disk0, now, vol.owner, vol.disk, ino, BlockCount(p, size0));
    FirstWordKept(p, disk0, vol.disk);
    if CacheClean(vol.cache, disk0, owner0) {
      CacheGrown(vol.cache, disk0, owner0, vol.disk, vol.owner);
    }
    if n <= MaxBlocks(p) {
      GrownData(owner0, disk0, vol.owner, vol.disk);
      ContentFound(p, now, vol.owner, disk0, vol.disk, ino, n);
    }
  }

  lemma GrownData(owner: map<nat, Owner>, disk: Disk, owner': map<nat, Owner>, disk': Disk)
    requires Grown(owner, disk, owner', disk')
    ensures |disk'| == |disk|
    ensures forall b :: b in owner' && b < |disk| && !IsPointerBlock(owner', b) ==> disk'[b] == disk[b]
  {
  }

  lemma ShrunkData(owner: map<nat, Owner>, disk: Disk, owner': map<nat, Owner>, disk': Disk)
    requires Shrunk(owner, disk, owner', disk')
    ensures |disk'| == |disk|
    ensures forall b :: b in owner' && b < |disk| && !IsPointerBlock(owner', b) ==> disk'[b] == disk[b]
  {
  }

  lemma GrownMeta(owner: map<nat, Owner>, disk: Disk, owner': map<nat, Owner>, disk': Disk)
    requires Grown(owner, disk, owner', disk')
    ensures SameMeta(owner, owner') && Within(owner, owner')
  {
  }

  lemma FinishWrite(p: nat, files: map<nat, File>, now: map<nat, File>,
                    ino: nat, ip0: seq<nat>, disk0: Disk, size0: nat,
                    ip: seq<nat>, disk1: Disk, disk2: Disk, size: nat, offset: nat, data: seq<Byte>)
    requires p > 0 && size == (if offset + |data| <= size0 then size0 else offset + |data|)
    requires ino in now && now == files[ino := now[ino]]
    requires Content(p, disk1, ip, BlockCount(p, size0)) == Content(p, disk0, ip0, BlockCount(p, size0))
    requires OthersSame(p, files, ino, disk0, disk1)
    requires var n := BlockCount(p, size); Progress(p, now, ino, n, ip, disk1, disk2, Content(p, disk1, ip, n),
                                                    offset, data, |data|)
    ensures OthersSame(p, files, ino, disk0, disk2)
    ensures Wrote(FileBytes(p, disk0, ip0, size0), FileBytes(p, disk2, ip, size), offset, data)
  {
    hide Content, OthersSame, BlockCount, Written, Wrote, FileBytes;
    OthersSameFile(p, files, ino, now[ino], disk1, disk2);
    OthersSameTrans(p, files, ino, disk0, disk1, disk2);
    WroteBytes(p, ip0, disk0, size0, ip, disk1, disk2, size, offset, data);
  }

  lemma FinishHeld(p: nat, now: map<nat, File>, ino: nat, ip: seq<nat>, disk0: Disk, disk1: Disk, disk2: Disk,
                   size: nat, offset: nat, data: seq<Byte>)
    requires p > 0 && offset + |data| <= size && BlockCount(p, size) <= MaxBlocks(p)
    requires var n := BlockCount(p, size);
             && Progress(p, now, ino, n, ip, disk1, disk2, Content(p, disk1, ip, n), offset, data, |data|)
             && Content(p, disk1, ip, n) == HeldAt(p, disk0, WordsOf(p, disk1), ip, n)
    ensures FileBytes(p, disk2, ip, size) == Splice(HeldBytes(p, disk0, WordsOf(p, disk2), ip, size), offset, data)
  {
    hide Content, OthersSame, BlockCount, Written, FileBytes, HeldBytes, HeldAt, Splice, WordsOf, SamePointers,
         MaxBlocks;
    HeldSame(p, disk0, WordsOf(p, disk1), WordsOf(p, disk2), ip, BlockCount(p, size));
    BytesHeld(p, disk0, disk1, WordsOf(p, disk2), ip, size);
    SplicedBytes(p, ip, disk1, disk2, size, offset, data);
  }

  /** How many blocks a read of `size` bytes fetches: enough for the size, whatever the offset. */
  lemma RowsFit(bs: nat, q: nat, i: nat, m: nat, n: nat, offset: nat, size: nat, fileSize: nat)
    requires q * bs <= offset && offset + size <= fileSize <= n * bs && i < m && m * bs < size + bs
    ensures q + i < n
  {
    MulMonotone(i + 1, m, bs);
    assert (i + 1) * bs == i * bs + bs && (q + i) * bs == q * bs + i * bs;
    if q + i >= n {
      MulMonotone(n, q + i, bs);
    }
  }

  lemma BlocksFetched(p: nat, fileSize: nat, offset: nat, size: nat, i: nat)
    requires p > 0 && offset + size <= fileSize && i < BlockCount(p, size)
    ensures Quot(offset, 4 * p) + i < BlockCount(p, fileSize)
  {
    hide BlockCount, Quot, Rem;
    OffsetBlock(p, fileSize, offset);
    BlockCountIs(p, size);
    BlockCountIs(p, fileSize);
    RowsFit(4 * p, Quot(offset, 4 * p), i, BlockCount(p, size), BlockCount(p, fileSize), offset, size, fileSize);
  }

  /** The first `i` blocks from block `from` on are in the buffer; the rest of it is as it was. */
  ghost predicate Fetched(blocks: seq<seq<Byte>>, from: nat, i: nat, bs: nat, junk: seq<Byte>, buffer: seq<Byte>) {
    && bs > 0 && |buffer| == |junk| && from + i <= |blocks| && Start(bs, i) <= |junk|
    && (forall x :: 0 <= x < Start(bs, i) ==> buffer[x] == ByteAt(blocks, bs, Start(bs, from) + x))
    && (forall x :: Start(bs, i) <= x < |junk| ==> buffer[x] == junk[x])
  }

  lemma StartNext(bs: nat, i: nat)
    ensures Start(bs, i + 1) == Start(bs, i) + bs
  {
  }

  lemma StartSum(bs: nat, k: nat, i: nat)
    ensures Start(bs, k + i) == Start(bs, k) + Start(bs, i)
  {
  }

  lemma FetchedStep(blocks: seq<seq<Byte>>, from: nat, i: nat, bs: nat, junk: seq<Byte>, buffer: seq<Byte>)
    requires Fetched(blocks, from, i, bs, junk, buffer) && Blocked(blocks, bs)
    requires from + i < |blocks| && Start(bs, i) + bs <= |junk|
    ensures Fetched(blocks, from, i + 1, bs, junk, Patch(buffer, Start(bs, i), blocks[from + i]))
  {
    hide Start, ByteAt;
    var buffer' := Patch(buffer, Start(bs, i), blocks[from + i]);
    StartNext(bs, i);
    StartSum(bs, from, i);
    forall x | 0 <= x < Start(bs, i + 1) ensures buffer'[x] == ByteAt(blocks, bs, Start(bs, from) + x) {
      if x >= Start(bs, i) {
        ByteInBlock(blocks, bs, from + i, x - Start(bs, i));
      }
    }
  }

  lemma ByteInBlock(blocks: seq<seq<Byte>>, bs: nat, k: nat, r: nat)
    requires bs > 0 && Blocked(blocks, bs) && k < |blocks| && r < bs
    ensures ByteAt(blocks, bs, Start(bs, k) + r) == blocks[k][r]
  {
    DivMod(bs, k, r);
  }

  /** Cached blocks have the block size, except a copy of block 0, which the program may cache wrongly. */
  predicate CacheSized(cache: map<nat, seq<Byte>>, bs: nat) {
    forall b :: b in cache && b != 0 ==> |cache[b]| == bs
  }

  lemma CleanIsSized(p: nat, cache: map<nat, seq<Byte>>, disk: Disk, owner: map<nat, Owner>)
    requires CacheClean(cache, disk, owner) && Formatted(p, disk)
    ensures CacheSized(cache, 4 * p)
  {
  }

  /** The cache has forgotten blocks, or has been filled from the disk, and nothing else. */
  ghost predicate CacheFilled(cache: map<nat, seq<Byte>>, cache': map<nat, seq<Byte>>, disk: Disk, forgets: bool) {
    && (forall b :: b in cache' ==>
          if b in cache then cache'[b] == cache[b] || cache'[b] == BlockAt(disk, b) else cache'[b] == BlockAt(disk, b))
    && (!forgets ==> forall b :: b in cache ==> b in cache' && cache'[b] == cache[b])
  }

  /** The block that the program finds for block `k` of a file. */
  lemma BlockFound(p: nat, disk: Disk, owner: map<nat, Owner>, files: map<nat, File>, i: nat, n: nat, k: nat)
    requires p > 0 && n <= MaxBlocks(p) && k < n && Formatted(p, disk) && |disk| == |WordsOf(p, disk)|
    requires Good(p, WordsOf(p, disk), files, owner) && i in files && files[i].live == LiveSlots(p, n)
    ensures |files[i].ip| == 15
    ensures var b := BlockNumber(p, files[i].ip, WordsOf(p, disk), k);
            && 0 < b < |disk| && |disk[b]| == 4 * p && BlockAt(disk, b) == disk[b]
            && b in owner && owner[b].Of? && owner[b].ino == i && Height(owner[b].slot) == 0
            && |Content(p, disk, files[i].ip, n)| == n && Content(p, disk, files[i].ip, n)[k] == disk[b]
  {
    hide Good, WordsOf, BlockNumber, DataSlot, LiveSlots, MaxBlocks;
    StoreFacts(p, disk, owner, files, i, n, k, 0, []);
    BlockNumberInFile(p, WordsOf(p, disk), owner, files, i, n, k);
  }

  /** Reads block `k` of the file through the cache, filling the cache on a miss. */
  method FetchBlock(vol: Volume, inode: Inode, k: nat, ghost ino: nat, ghost files: map<nat, File>, ghost n: nat)
    returns (blk: seq<Byte>)
    requires vol.p > 0 && Holds(vol, inode, ino, files, n) && n <= MaxBlocks(vol.p) && k < n
    requires CacheSized(vol.cache, 4 * vol.p)
    modifies vol`cache
    ensures CacheSized(vol.cache, 4 * vol.p) && Holds(vol, inode, ino, files, n) && |inode.block| == 15
    ensures CacheClean(old(vol.cache), vol.disk, vol.owner) ==> CacheClean(vol.cache, vol.disk, vol.owner)
    ensures var b, now := BlockNumber(vol.p, inode.block, vol.Words(), k), Content(vol.p, vol.disk, inode.block, n)[k];
            && |blk| == 4 * vol.p && now == BlockAt(vol.disk, b)
            && (blk == now || (b in old(vol.cache) && blk == old(vol.cache)[b]))
            && (!vol.forgets && b in old(vol.cache) ==> blk == old(vol.cache)[b])
            && (!vol.forgets ==> b in vol.cache)
            && (CacheClean(old(vol.cache), vol.disk, vol.owner) ==> blk == now)
    ensures CacheMore(old(vol.cache), vol.cache, vol.owner, ino)
    ensures CacheFilled(old(vol.cache), vol.cache, vol.disk, vol.forgets)
  {
    hide Holds, Tally, Good, WordsOf, BlockNumber, DataSlot, LiveSlots, MaxBlocks, CacheMore, Content;
    ghost var cache := vol.cache;
    HoldsFacts(vol, inode, ino, files, n);
    vol.Shape();
    BlockFound(vol.p, vol.disk, vol.owner, files, ino, n, k);
    var b := BlockNumber(vol.p, inode.block, vol.Words(), k);
    var hit, found := vol.CacheGet(b);
    if hit {
      blk := found;
    } else {
      blk := vol.disk[b];
      vol.CachePut(b, blk);
    }
    PutMore(cache, vol.cache, vol.owner, b, ino);
  }

  /** What a read gives: bytes of the file as far as the fetched blocks go, and then what was in the buffer. */
  ghost function ReadResult(p: nat, bytes: seq<int>, junk: seq<int>, offset: nat, size: nat): seq<int>
    requires p > 0 && offset + size <= |bytes| && |junk| == size + 8 * p
  {
    var off, limit := Rem(offset, 4 * p), Start(4 * p, BlockCount(p, size));
    seq(size, x requires 0 <= x < size => if off + x < limit then bytes[offset + x] else junk[off + x])
  }

  /** The first `size` bytes of a file given by its blocks. */
  function BytesIn(blocks: seq<seq<Byte>>, bs: nat, size: nat): (bytes: seq<int>)
    requires bs > 0
    ensures |bytes| == size
  {
    seq(size, x requires 0 <= x => ByteAt(blocks, bs, x))
  }

  /** Each block is the file's, or what was cached under its number, and always that if the cache does
      not forget and has one of the blocks that are fetched. */
  ghost predicate SeenThrough(p: nat, disk: Disk, w: Words, ip: seq<nat>, cache: map<nat, seq<Byte>>, forgets: bool,
                              seen: seq<seq<Byte>>, from: nat, to: nat)
    requires p > 0 && |ip| == 15
  {
    && to <= |seen|
    && (forall k :: 0 <= k < |seen| ==>
          var b := BlockNumber(p, ip, w, k);
          seen[k] == BlockAt(disk, b) || (b in cache && seen[k] == cache[b]))
    && (!forgets ==> forall k :: from <= k < to ==>
          var b := BlockNumber(p, ip, w, k); b in cache ==> seen[k] == cache[b])
  }

  /** The blocks of the file from number `from` on and before `to` are cached. */
  ghost predicate CachedTo(p: nat, w: Words, ip: seq<nat>, cache: map<nat, seq<Byte>>, from: nat, to: nat)
    requires p > 0 && |ip| == 15
  {
    forall k :: from <= k < to ==> BlockNumber(p, ip, w, k) in cache
  }

  lemma CachedNone(p: nat, w: Words, ip: seq<nat>, cache: map<nat, seq<Byte>>, from: nat)
    requires p > 0 && |ip| == 15
    ensures CachedTo(p, w, ip, cache, from, from)
  {
  }

  lemma CachedMore(p: nat, disk: Disk, w: Words, ip: seq<nat>, cache: map<nat, seq<Byte>>, cache': map<nat, seq<Byte>>,
                   from: nat, to: nat)
    requires p > 0 && |ip| == 15 && CachedTo(p, w, ip, cache, from, to) && CacheFilled(cache, cache', disk, false)
    requires BlockNumber(p, ip, w, to) in cache'
    ensures CachedTo(p, w, ip, cache', from, to + 1)
  {
    hide BlockNumber;
  }

  /** `Dir_leerArchivo`: fetches as many blocks as `size` bytes fill, starting at the block of `offset`,
      and takes `size` bytes out of them.  `junk` is what the buffer held before, and `seen` are the
      blocks of the file as they were fetched. */
  method ReadFile(vol: Volume, inode: Inode, offset: nat, size: nat, junk: seq<Byte>, ghost ino: nat,
                  ghost files: map<nat, File>)
    returns (bytes: seq<Byte>, ghost seen: seq<seq<Byte>>)
    requires vol.p > 0 && inode.size < TWO32 && offset + size <= inode.size && |junk| == size + 8 * vol.p
    requires Holds(vol, inode, ino, files, BlockCount(vol.p, inode.size))
    requires CacheSized(vol.cache, 4 * vol.p)
    modifies vol`cache
    ensures CacheSized(vol.cache, 4 * vol.p) && CacheMore(old(vol.cache), vol.cache, vol.owner, ino)
    ensures CacheFilled(old(vol.cache), vol.cache, vol.disk, vol.forgets)
    ensures |seen| == BlockCount(vol.p, inode.size) && |inode.block| == 15
    ensures var from := Quot(offset, 4 * vol.p);
            SeenThrough(vol.p, vol.disk, vol.Words(), inode.block, old(vol.cache), vol.forgets, seen,
                        from, from + BlockCount(vol.p, size))
            && (!vol.forgets ==> CachedTo(vol.p, vol.Words(), inode.block, vol.cache,
                                          from, from + BlockCount(vol.p, size)))
    ensures bytes == ReadResult(vol.p, BytesIn(seen, 4 * vol.p, inode.size), junk, offset, size)
    ensures CacheClean(old(vol.cache), vol.disk, vol.owner) ==>
              && CacheClean(vol.cache, vol.disk, vol.owner)
              && BytesIn(seen, 4 * vol.p, inode.size) == FileBytes(vol.p, vol.disk, inode.block, inode.size)
  {
    hide Holds, Tally, Good, WordsOf, Content, CacheClean, MaxBlocks, LiveSlots, BlockCount, Quot, Rem, Start, ByteAt,
         Fetched, ReadResult, CacheMore, BlockNumber, CacheSized, CacheFilled, SeenThrough, CachedTo;
    CacheMoreRefl(vol.cache, vol.owner, ino);
    CacheFilledRefl(vol.cache, vol.disk, vol.forgets);
    ghost var p, n, cache := vol.p, BlockCount(vol.p, inode.size), vol.cache;
    ghost var c := Content(p, vol.disk, inode.block, n);
    var bs := 4 * vol.p;
    HoldsFacts(vol, inode, ino, files, n);
    BlockReach(p, inode.size);
    vol.Shape();
    IpLength(p, vol.Words(), vol.owner, files, ino);
    ContentBlocked(p, vol.disk, vol.owner, files, ino, n);
    ContentLength(p, vol.disk, inode.block, n);
    OffsetStart(p, inode.size, offset);
    CountStart(p, size);
    var from := Quot(offset, bs);
    var off := Rem(offset, bs);
    var count := BlockCount(vol.p, size);
    var buffer := junk;
    seen := c;
    SeenNone(p, vol.disk, vol.owner, files, ino, n, cache, vol.forgets, from);
    FetchedNone(c, from, bs, junk);
    CachedNone(p, vol.Words(), inode.block, vol.cache, from);
    var i := 0;
    while i < count
      invariant 0 <= i <= count && |buffer| == |junk|
      invariant Holds(vol, inode, ino, files, n) && CacheSized(vol.cache, bs)
      invariant CacheMore(old(vol.cache), vol.cache, vol.owner, ino)
      invariant CacheFilled(cache, vol.cache, vol.disk, vol.forgets)
      invariant |seen| == n && Blocked(seen, bs) && Fetched(seen, from, i, bs, junk, buffer)
      invariant SeenThrough(p, vol.disk, vol.Words(), inode.block, cache, vol.forgets, seen, from, from + i)
      invariant !vol.forgets ==> CachedTo(p, vol.Words(), inode.block, vol.cache, from, from + i)
      invariant CacheClean(cache, vol.disk, vol.owner) ==> CacheClean(vol.cache, vol.disk, vol.owner) && seen == c
    {
      BlocksFetched(p, inode.size, offset, size, i);
      ghost var cache1 := vol.cache;
      var blk := FetchBlock(vol, inode, from + i, ino, files, n);
      CacheMoreTrans(old(vol.cache), cache1, vol.cache, vol.owner, ino);
      CacheFilledTrans(cache, cache1, vol.cache, vol.disk, vol.forgets);
      SeenMore(p, vol.disk, vol.Words(), inode.block, cache, cache1, vol.forgets, seen, from, i, blk);
      if !vol.forgets {
        CachedMore(p, vol.disk, vol.Words(), inode.block, cache1, vol.cache, from, from + i);
      }
      StartBound(p, size, i);
      FetchedSame(seen, from, i, bs, junk, buffer, blk);
      seen := seen[from + i := blk];
      FetchedStep(seen, from, i, bs, junk, buffer);
      buffer := Patch(buffer, Start(bs, i), blk);
      i := i + 1;
    }
    bytes := buffer[off..off + size];
    ReadBytes(p, seen, inode.size, offset, size, junk, buffer);
  }

  lemma CacheFilledRefl(cache: map<nat, seq<Byte>>, disk: Disk, forgets: bool)
    ensures CacheFilled(cache, cache, disk, forgets)
  {
  }

  lemma CacheFilledTrans(cache0: map<nat, seq<Byte>>, cache1: map<nat, seq<Byte>>, cache2: map<nat, seq<Byte>>,
                         disk: Disk, forgets: bool)
    requires CacheFilled(cache0, cache1, disk, forgets) && CacheFilled(cache1, cache2, disk, forgets)
    ensures CacheFilled(cache0, cache2, disk, forgets)
  {
  }

  lemma SeenNone(p: nat, disk: Disk, owner: map<nat, Owner>, files: map<nat, File>, i: nat, n: nat,
                 cache: map<nat, seq<Byte>>, forgets: bool, from: nat)
    requires p > 0 && n <= MaxBlocks(p) && Formatted(p, disk) && from <= n
    requires Good(p, WordsOf(p, disk), files, owner) && i in files && files[i].live == LiveSlots(p, n)
    ensures |files[i].ip| == 15
    ensures SeenThrough(p, disk, WordsOf(p, disk), files[i].ip, cache, forgets, Content(p, disk, files[i].ip, n),
                        from, from)
  {
    hide Good, WordsOf, BlockNumber, DataSlot, LiveSlots, MaxBlocks;
    IpLength(p, WordsOf(p, disk), owner, files, i);
    forall k | 0 <= k < n
      ensures Content(p, disk, files[i].ip, n)[k] == BlockAt(disk, BlockNumber(p, files[i].ip, WordsOf(p, disk), k)) {
      BlockNumberInFile(p, WordsOf(p, disk), owner, files, i, n, k);
    }
  }

  lemma SeenMore(p: nat, disk: Disk, w: Words, ip: seq<nat>, cache: map<nat, seq<Byte>>, cache1: map<nat, seq<Byte>>,
                 forgets: bool, seen: seq<seq<Byte>>, from: nat, i: nat, blk: seq<Byte>)
    requires p > 0 && |ip| == 15 && from + i < |seen| && CacheFilled(cache, cache1, disk, forgets)
    requires SeenThrough(p, disk, w, ip, cache, forgets, seen, from, from + i)
    requires var b := BlockNumber(p, ip, w, from + i);
             && (blk == BlockAt(disk, b) || (b in cache1 && blk == cache1[b]))
             && (!forgets && b in cache1 ==> blk == cache1[b])
    ensures SeenThrough(p, disk, w, ip, cache, forgets, seen[from + i := blk], from, from + i + 1)
  {
    hide BlockNumber;
  }

  /** Blocks that have not been fetched yet do not matter. */
  lemma FetchedSame(blocks: seq<seq<Byte>>, from: nat, i: nat, bs: nat, junk: seq<Byte>, buffer: seq<Byte>,
                    blk: seq<Byte>)
    requires Fetched(blocks, from, i, bs, junk, buffer) && from + i < |blocks| && |blk| == bs
    ensures Fetched(blocks[from + i := blk], from, i, bs, junk, buffer)
  {
    StartSum(bs, from, i);
    forall y | 0 <= y < Start(bs, from + i) ensures ByteAt(blocks[from + i := blk], bs, y) == ByteAt(blocks, bs, y) {
      DivBound(y, bs, from + i);
    }
  }

  lemma CountStart(p: nat, size: nat)
    requires p > 0
    ensures size <= Start(4 * p, BlockCount(p, size)) < size + 4 * p
  {
    BlockCountIs(p, size);
  }

  lemma StartBound(p: nat, size: nat, i: nat)
    requires p > 0 && i < BlockCount(p, size)
    ensures Start(4 * p, i) + 4 * p <= Start(4 * p, BlockCount(p, size)) < size + 4 * p
  {
    BlockCountIs(p, size);
    MulMonotone(i + 1, BlockCount(p, size), 4 * p);
  }

  lemma FetchedNone(blocks: seq<seq<Byte>>, from: nat, bs: nat, junk: seq<Byte>)
    requires bs > 0 && from <= |blocks|
    ensures Fetched(blocks, from, 0, bs, junk, junk)
  {
  }

  lemma ReadBytes(p: nat, blocks: seq<seq<Byte>>, fileSize: nat, offset: nat,
                  size: nat, junk: seq<Byte>, buffer: seq<Byte>)
    requires p > 0 && offset + size <= fileSize && |junk| == size + 8 * p
    requires Fetched(blocks, Quot(offset, 4 * p), BlockCount(p, size), 4 * p, junk, buffer)
    ensures |buffer| == |junk| && Rem(offset, 4 * p) + size <= |buffer|
    ensures buffer[Rem(offset, 4 * p)..Rem(offset, 4 * p) + size] ==
            ReadResult(p, BytesIn(blocks, 4 * p, fileSize), junk, offset, size)
  {
    hide BlockCount, Quot, Rem, Start, ByteAt;
    OffsetStart(p, fileSize, offset);
    var off, limit := Rem(offset, 4 * p), Start(4 * p, BlockCount(p, size));
    var part := buffer[off..off + size];
    forall x | 0 <= x < size
      ensures part[x] == if off + x < limit then BytesIn(blocks, 4 * p, fileSize)[offset + x] else junk[off + x]
    {
      assert Start(4 * p, Quot(offset, 4 * p)) + (off + x) == offset + x;
    }
  }

  /** A read gives the bytes of the file, whatever the buffer held before, exactly when the part of the
      first block before the offset and the bytes asked for fit in the blocks that are fetched. */
  lemma ReadExact(p: nat, bytes: seq<int>, offset: nat, size: nat)
    requires p > 0 && offset + size <= |bytes|
    ensures (size == 0 || Rem(offset, 4 * p) + size <= Start(4 * p, BlockCount(p, size))) <==>
            (forall junk: seq<int> :: |junk| == size + 8 * p ==>
               ReadResult(p, bytes, junk, offset, size) == bytes[offset..offset + size])
  {
    hide BlockCount, Quot, Rem, Start;
    var off, limit := Rem(offset, 4 * p), Start(4 * p, BlockCount(p, size));
    if size > 0 && off + size > limit {
      var x := size - 1;
      var wrong := bytes[offset + x] + 1;
      var junk := seq(size + 8 * p, _ => wrong);
      assert ReadResult(p, bytes, junk, offset, size)[x] != bytes[offset..offset + size][x];
    }
  }

  /** The contents of every file but `ino` are untouched when `ino` shrinks. */
  lemma OthersShrunk(p: nat, files: map<nat, File>, owner: map<nat, Owner>, disk: Disk, ino: nat, f': File,
                     owner': map<nat, Owner>, disk': Disk)
    requires p > 0 && ino in files
    requires Good(p, WordsOf(p, disk), files, owner) && Good(p, WordsOf(p, disk'), files[ino := f'], owner')
    requires Shrunk(owner, disk, owner', disk')
    ensures OthersSame(p, files, ino, disk, disk')
  {
    hide Good, WordsOf, Content, Shrunk, LiveSlots, MaxBlocks;
    forall j: nat, m: nat | j in files && j != ino && m <= MaxBlocks(p) && LiveSlots(p, m) <= files[j].live
      ensures Content(p, disk', files[j].ip, m) == Content(p, disk, files[j].ip, m)
    {
      ContentShrunk(p, files, owner, disk, files[ino := f'], owner', disk', j, m);
    }
  }

  /** The file has a new size, and the bytes below both sizes are as they were. */
  ghost predicate Resized(old_: seq<int>, new_: seq<int>, newSize: nat) {
    |new_| == newSize && forall x :: 0 <= x < newSize && x < |old_| ==> new_[x] == old_[x]
  }

  lemma ResizedBytes(p: nat, disk: Disk, ip: seq<nat>, size: nat, disk': Disk, ip': seq<nat>, size': nat)
    requires p > 0
    requires var m := BlockCount(p, if size < size' then size else size');
             Content(p, disk', ip', m) == Content(p, disk, ip, m)
    ensures Resized(FileBytes(p, disk, ip, size), FileBytes(p, disk', ip', size'), size')
  {
    var least := if size < size' then size else size';
    var m, n, n' := BlockCount(p, least), BlockCount(p, size), BlockCount(p, size');
    BlockCountMonotone(p, least, size);
    BlockCountMonotone(p, least, size');
    BlockCountIs(p, least);
    ContentPrefix(p, disk, ip, m, n);
    ContentPrefix(p, disk', ip', m, n');
    ContentLength(p, disk, ip, n);
    ContentLength(p, disk', ip', n');
    hide Content, BlockCount, ByteAt;
    forall x | 0 <= x < least
      ensures ByteAt(Content(p, disk', ip', n'), 4 * p, x) == ByteAt(Content(p, disk, ip, n), 4 * p, x)
    {
      ByteOfPrefix(Content(p, disk, ip, n), m, 4 * p, x);
      ByteOfPrefix(Content(p, disk', ip', n'), m, 4 * p, x);
    }
  }

  /** Which blocks were taken or given back, and what was written to the disk, between the two sizes. */
  ghost predicate Sized(p: nat, size: nat, newSize: nat, owner: map<nat, Owner>, disk: Disk, free: nat,
                        owner': map<nat, Owner>, disk': Disk, free': nat)
    requires p > 0
  {
    var n, n' := BlockCount(p, size), BlockCount(p, newSize);
    if size < newSize then Grown(owner, disk, owner', disk') && free' == free - BlocksTaken(p, n, n')
    else Shrunk(owner, disk, owner', disk') && free' == free + BlocksTaken(p, n', n)
  }

  lemma SizedSame(p: nat, size: nat, owner: map<nat, Owner>, disk: Disk, free: nat)
    requires p > 0
    ensures Sized(p, size, size, owner, disk, free, owner, disk, free)
  {
    hide BlockCount, Grown;
    TakenAtFirst(p, BlockCount(p, size));
  }

  /** The work of a truncate request (`procesarTruncate` in rfs/Rfs.c): up or down to a given size. */
  method Resize(vol: Volume, inode: Inode, newSize: nat, ghost ino: nat, ghost files: map<nat, File>) returns (r: int)
    requires vol.p > 0 && inode.size < TWO32 && newSize < TWO32
    requires Holds(vol, inode, ino, files, BlockCount(vol.p, inode.size))
    modifies vol`disk, vol`owner, vol.blocks, inode`block, inode`size
    ensures r == if old(vol.blocks.totalFree) < BlocksTaken(vol.p, BlockCount(vol.p, old(inode.size)),
                                                            BlockCount(vol.p, newSize))
                 then -1 else 0
    ensures inode.size == if r == 0 then newSize else old(inode.size)
    ensures var n := BlockCount(vol.p, inode.size);
            Holds(vol, inode, ino, files[ino := File(inode.block, LiveSlots(vol.p, n))], n)
    ensures Resized(FileBytes(vol.p, old(vol.disk), old(inode.block), old(inode.size)),
                    FileBytes(vol.p, vol.disk, inode.block, inode.size), inode.size)
    ensures r == 0 ==> FileBytes(vol.p, vol.disk, inode.block, inode.size) ==
                       HeldBytes(vol.p, old(vol.disk), vol.Words(), inode.block, inode.size)
    ensures OthersSame(vol.p, files, ino, old(vol.disk), vol.disk) && SameMeta(old(vol.owner), vol.owner)
    ensures DataKept(old(vol.owner), old(vol.disk), vol.owner, vol.disk, {ino})
    ensures SlotsKept(old(vol.owner), old(vol.disk), vol.owner, vol.disk, ino,
                      LiveSlots(vol.p, BlockCount(vol.p, inode.size)))
    ensures newSize <= old(inode.size) ==> Within(vol.owner, old(vol.owner))
    ensures r == 0 ==> Sized(vol.p, old(inode.size), newSize, old(vol.owner), old(vol.disk), old(vol.blocks.totalFree),
                             vol.owner, vol.disk, vol.blocks.totalFree)
    ensures r == -1 ==> inode.block == old(inode.block) && vol.owner == old(vol.owner)
    ensures r == -1 ==> vol.blocks.bitmap == old(vol.blocks.bitmap)
    ensures r == -1 ==> vol.blocks.groupFree == old(vol.blocks.groupFree)
    ensures r == -1 ==> vol.blocks.totalFree == old(vol.blocks.totalFree)
    ensures Widths(vol.blocks.bitmap) == old(Widths(vol.blocks.bitmap))
    ensures |vol.disk| == |old(vol.disk)| && (|vol.disk| > 0 ==> vol.disk[0] == old(vol.disk)[0])
  {
    hide Holds, Tally, Good, Grown, Shrunk, WordsOf, Content, OthersSame, AllSame, FileBytes, LiveSlots, MaxBlocks,
         RawWord, BlockCount, SamePointers, Settled, BlocksTaken, Resized, CacheClean,
         Widths, SameMeta, DataKept, SlotsKept, Within, HeldAt, HeldBytes;
    SameMetaRefl(vol.owner);
    WithinRefl(vol.owner);
    DataKeptRefl(vol.owner, vol.disk, {ino});
    ghost var live := LiveSlots(vol.p, BlockCount(vol.p, inode.size));
    SlotsKeptRefl(vol.owner, vol.disk, ino, live);
    ghost var p, disk0, owner0, size0, ip0 := vol.p, vol.disk, vol.owner, inode.size, inode.block;
    ghost var n0 := BlockCount(p, size0);
    HoldsFacts(vol, inode, ino, files, n0);
    vol.Shape();
    BlockReach(p, size0);
    assert files[ino := File(inode.block, LiveSlots(p, n0))] == files;
    BlockCountMonotone(p, if size0 < newSize then size0 else newSize, size0);
    NoneTaken(p, size0, newSize);
    r := 0;
    if newSize > inode.size {
      r := TruncateUp(vol, inode, newSize, ino, files);
      if r == -1 {
        HoldsFacts(vol, inode, ino, files, n0);
        RestoredKeepsData(owner0, disk0, vol.disk, {ino}, ino, live);
        AllSameRestored(p, files, owner0, disk0, vol.disk);
        AllSameUse(p, files, disk0, vol.disk, ino, n0);
      } else {
        GrowthKeeps(vol, inode, ino, files, files[ino := File(inode.block, LiveSlots(p, BlockCount(p, newSize)))],
                    disk0, owner0, size0);
        BlockReach(p, newSize);
        BytesHeld(p, disk0, vol.disk, vol.Words(), inode.block, newSize);
      }
    } else if newSize < inode.size {
      TruncateDown(vol, inode, newSize, ino, files);
      ghost var n := BlockCount(p, newSize);
      ghost var now := files[ino := File(inode.block, LiveSlots(p, n))];
      HoldsFacts(vol, inode, ino, now, n);
      OthersShrunk(p, files, owner0, disk0, ino, now[ino], vol.owner, vol.disk);
      FirstBlockShrunk(p, files, owner0, disk0, vol.owner, vol.disk);
      ShrunkLength(owner0, disk0, vol.owner, vol.disk);
      ShrunkKeepsData(p, files, owner0, disk0, ino, now[ino], vol.owner, vol.disk);
      ContentShrunk(p, files, owner0, disk0, now, vol.owner, vol.disk, ino, n);
      ShrunkData(owner0, disk0, vol.owner, vol.disk);
      ContentFound(p, now, vol.owner, disk0, vol.disk, ino, n);
      BytesHeld(p, disk0, vol.disk, vol.Words(), inode.block, newSize);
    } else {
      OthersSameRefl(p, files, ino, disk0);
      ContentHeld(p, disk0, inode.block, n0);
      BytesHeld(p, disk0, vol.disk, vol.Words(), inode.block, newSize);
      SizedSame(p, size0, owner0, disk0, vol.blocks.totalFree);
    }
    ResizedBytes(p, disk0, ip0, size0, vol.disk, inode.block, inode.size);
  }

  lemma WithinRefl(owner: map<nat, Owner>)
    ensures Within(owner, owner)
  {
  }

  lemma SlotsKeptRefl(owner: map<nat, Owner>, disk: Disk, i: nat, kept: iset<Slot>)
    ensures SlotsKept(owner, disk, owner, disk, i, kept)
  {
  }

  lemma RestoredKeepsData(owner: map<nat, Owner>, disk: Disk, disk': Disk, touched: set<nat>, i: nat, kept: iset<Slot>)
    requires |disk'| == |disk| && (|disk| > 0 ==> disk'[0] == disk[0])
    requires forall b :: b in owner && b < |disk| && !IsPointerBlock(owner, b) ==> disk'[b] == disk[b]
    ensures DataKept(owner, disk, owner, disk', touched) && SlotsKept(owner, disk, owner, disk', i, kept)
  {
  }

  lemma ShrunkLength(owner: map<nat, Owner>, disk: Disk, owner': map<nat, Owner>, disk': Disk)
    requires Shrunk(owner, disk, owner', disk')
    ensures |disk'| == |disk| && SameMeta(owner, owner') && Within(owner', owner)
  {
  }

  lemma NoneTaken(p: nat, size: nat, newSize: nat)
    requires p > 0
    ensures newSize <= size ==> BlocksTaken(p, BlockCount(p, size), BlockCount(p, newSize)) == 0
  {
    hide BlockCount;
    if newSize <= size {
      BlockCountMonotone(p, newSize, size);
    }
  }

  lemma AllSameUse(p: nat, files: map<nat, File>, disk: Disk, disk': Disk, ino: nat, n: nat)
    requires p > 0 && AllSame(p, files, disk, disk') && ino in files && n <= MaxBlocks(p)
    requires files[ino].live == LiveSlots(p, n)
    ensures OthersSame(p, files, ino, disk, disk')
    ensures Content(p, disk', files[ino].ip, n) == Content(p, disk, files[ino].ip, n)
  {
    hide Content, LiveSlots, MaxBlocks;
    assert LiveSlots(p, n) <= files[ino].live;
  }

  /** `WriteFile` for a caller that looks at every file: its effect, whether or not it succeeds. */
  method WriteOrRestore(vol: Volume, inode: Inode, offset: nat, data: seq<Byte>, ghost ino: nat,
                        ghost files: map<nat, File>)
    returns (r: int)
    requires vol.p > 0 && inode.size < TWO32 && offset + |data| < TWO32
    requires Holds(vol, inode, ino, files, BlockCount(vol.p, inode.size))
    modifies vol`disk, vol`owner, vol`cache, vol.blocks, inode`block, inode`size
    ensures r == if offset + |data| > old(inode.size) &&
                    old(vol.blocks.totalFree) < BlocksTaken(vol.p, BlockCount(vol.p, old(inode.size)),
                                                            BlockCount(vol.p, offset + |data|))
                 then -1 else |data|
    ensures inode.size < TWO32
    ensures var n := BlockCount(vol.p, inode.size);
            Holds(vol, inode, ino, files[ino := File(inode.block, LiveSlots(vol.p, n))], n)
    ensures OthersSame(vol.p, files, ino, old(vol.disk), vol.disk) && SameMeta(old(vol.owner), vol.owner)
    ensures Within(old(vol.owner), vol.owner)
    ensures r == -1 || offset + |data| <= old(inode.size) ==>
            inode.size == old(inode.size) && inode.block == old(inode.block)
    ensures var before, after := FileBytes(vol.p, old(vol.disk), old(inode.block), old(inode.size)),
                                 FileBytes(vol.p, vol.disk, inode.block, inode.size);
            if r == -1 then after == before else Wrote(before, after, offset, data)
    ensures r != -1 ==>
              && offset + |data| <= inode.size
              && FileBytes(vol.p, vol.disk, inode.block, inode.size) ==
                 Splice(HeldBytes(vol.p, old(vol.disk), vol.Words(), inode.block, inode.size), offset, data)
    ensures r != -1 && data != [] && !vol.forgets && RawWord(vol.Words(), 0, 0) == 0 &&
            CacheClean(vol.cache, vol.disk, vol.owner) ==>
              BeginsWith(FileBytes(vol.p, vol.disk, inode.block, inode.size), 4 * vol.p, offset, data[0])
    ensures RawWord(vol.Words(), 0, 0) == old(RawWord(vol.Words(), 0, 0))
    ensures RawWord(vol.Words(), 0, 0) == 0 ==>
              Refilled(vol.p, old(vol.cache), vol.cache, vol.disk, vol.owner, ino,
                       Quot(offset, 4 * vol.p), Rem(offset, 4 * vol.p))
    ensures Rem(offset, 4 * vol.p) == 0 && RawWord(vol.Words(), 0, 0) == 0 &&
            CacheClean(old(vol.cache), old(vol.disk), old(vol.owner)) ==>
              CacheClean(vol.cache, vol.disk, vol.owner)
  {
    hide Refilled, Within, Holds, WordsOf, Content, CacheClean, OthersSame, AllSame, FileBytes, Wrote, LiveSlots,
         MaxBlocks, RawWord, BlockCount, Quot, Rem, BlocksTaken, Tally, Good, Settled, SameMeta, Splice, HeldBytes,
         BeginsWith;
    ghost var p, disk, size, ip, n := vol.p, vol.disk, inode.size, inode.block, BlockCount(vol.p, inode.size);
    HoldsFacts(vol, inode, ino, files, n);
    BlockReach(p, size);
    assert files[ino := File(ip, LiveSlots(p, n))] == files;
    r := WriteFile(vol, inode, offset, data, ino, files);
    if r == -1 {
      AllSameUse(p, files, disk, vol.disk, ino, n);
      SameBytes(p, disk, vol.disk, ip, size);
    }
  }

  lemma SameBytes(p: nat, disk: Disk, disk': Disk, ip: seq<nat>, size: nat)
    requires p > 0 && Content(p, disk', ip, BlockCount(p, size)) == Content(p, disk, ip, BlockCount(p, size))
    ensures FileBytes(p, disk', ip, size) == FileBytes(p, disk, ip, size)
  {
    hide Content, BlockCount, ByteAt;
  }

  /** Reading a block back from where a write began, to refill the cache, gives that block on every
      disk exactly when the write began at the start of the block. */
  lemma CacheRefill(p: nat, b: nat, off: nat, size: nat, prev: seq<Byte>)
    requires p > 0 && off < 4 * p && b < size && |prev| == 4 * p
    ensures off == 0 <==>
            (forall disk: Disk :: Formatted(p, disk) && |disk| == size ==> ReadAcross(p, disk, b, off, prev) == disk[b])
  {
    if off > 0 {
      var blk: seq<Byte> := seq(4 * p, k => if k == 0 then 1 else 0);
      var disk: Disk := seq(size, _ => blk);
      assert Formatted(p, disk) && |disk| == size;
      assert ReadAcross(p, disk, b, off, prev)[0] == disk[b][off] == 0;
      assert disk[b][0] == 1;
    }
  }
}
