/** Changing the size of a file (`Inode_truncarArriba` and `Inode_truncarAbajo` in rfs/Inode.c). */
module Truncation {
  import opened Arithmetic
  import opened Bytes
  import opened BlockTree
  import opened Ownership
  import opened Allocation
  import opened Storage
  import opened InodeOps

  /** The number of blocks of a file of `size` bytes, in blocks of `4 * p` bytes. */
  function BlockCount(p: nat, size: nat): nat
    requires p > 0
  {
    Quot(size, 4 * p) + if Rem(size, 4 * p) > 0 then 1 else 0
  }

  /** `BlockCount` rounds up: the blocks are enough, and one less would not be. */
  lemma BlockCountIs(p: nat, size: nat)
    requires p > 0
    ensures size <= BlockCount(p, size) * (4 * p) < size + 4 * p
  {
    var bs := 4 * p;
    assert size == size / bs * bs + size % bs;
  }

  lemma BlockCountMonotone(p: nat, a: nat, b: nat)
    requires p > 0 && a <= b
    ensures BlockCount(p, a) <= BlockCount(p, b)
  {
    hide BlockCount;
    BlockCountIs(p, a);
    BlockCountIs(p, b);
    if BlockCount(p, a) > BlockCount(p, b) {
      MulMonotone(BlockCount(p, b) + 1, BlockCount(p, a), 4 * p);
    }
  }

  /** Every block of a file starts below its end. */
  lemma StartsBelow(p: nat, size: nat, k: nat)
    requires p > 0 && k < BlockCount(p, size)
    ensures k * (4 * p) < size
  {
    hide BlockCount;
    BlockCountIs(p, size);
    MulMonotone(k + 1, BlockCount(p, size), 4 * p);
  }

  lemma BlockCountExact(p: nat, k: nat)
    requires p > 0
    ensures BlockCount(p, k * (4 * p)) == k
  {
    DivMod(4 * p, k, 0);
  }

  /** For each block size and every 32-bit file size, every block of the file is within reach of the
      four levels, and the products that delimit the levels fit in 32 bits. */
  lemma AddressingTotal(p: nat, size: nat)
    requires (p == 256 || p == 512 || p == 1024) && size < TWO32
    ensures BlockCount(p, size) <= MaxBlocks(p)
    ensures p * p < TWO32 && p * p * p < TWO32
    ensures forall n :: 0 <= n < BlockCount(p, size) ==> WellFormed(p, DataSlot(p, n)) && Height(DataSlot(p, n)) == 0
    ensures forall m, n :: 0 <= m < n < BlockCount(p, size) ==> DataSlot(p, m) != DataSlot(p, n)
  {
    BlockReach(p, size);
    hide BlockCount, MaxBlocks;
    forall n | 0 <= n < BlockCount(p, size)
      ensures WellFormed(p, DataSlot(p, n)) && Height(DataSlot(p, n)) == 0 && First(p, DataSlot(p, n)) == n
    {
      DataSlotSound(p, n);
    }
    hide DataSlot;
  }

  lemma BlockReach(p: nat, size: nat)
    requires (p == 256 || p == 512 || p == 1024) && size < TWO32
    ensures BlockCount(p, size) <= MaxBlocks(p)
    ensures p * p < TWO32 && p * p * p < TWO32
  {
    if p == 256 {
      assert size / 1024 <= 0x40_0000;
    } else if p == 512 {
      assert size / 2048 <= 0x20_0000;
    } else {
      assert size / 4096 <= 0x10_0000;
    }
  }

  /** The blocks, data and pointer, that growing from `a` to `b` blocks takes. */
  function BlocksTaken(p: nat, a: nat, b: nat): nat
    requires p > 0
    decreases b
  {
    if b <= a then 0 else BlocksTaken(p, a, b - 1) + |NewSlots(p, b - 1)|
  }

  lemma TakenAtFirst(p: nat, a: nat)
    requires p > 0
    ensures BlocksTaken(p, a, a) == 0
  {
  }

  lemma TakenNext(p: nat, a: nat, b: nat)
    requires p > 0 && a <= b
    ensures BlocksTaken(p, a, b + 1) == BlocksTaken(p, a, b) + |NewSlots(p, b)|
  {
  }

  lemma {:induction false} BlocksTakenMonotone(p: nat, a: nat, b: nat, c: nat)
    requires p > 0 && b <= c
    ensures BlocksTaken(p, a, b) <= BlocksTaken(p, a, c)
    decreases c
  {
    if b < c {
      BlocksTakenMonotone(p, a, b, c - 1);
    }
  }

  lemma {:induction false} BlocksTakenSplit(p: nat, a: nat, b: nat)
    requires p > 0 && a < b
    ensures BlocksTaken(p, a, b) == |NewSlots(p, a)| + BlocksTaken(p, a + 1, b)
    decreases b
  {
    if a + 1 < b {
      BlocksTakenSplit(p, a, b - 1);
    }
  }

  lemma GrownTrans(owner0: map<nat, Owner>, disk0: Disk, owner1: map<nat, Owner>, disk1: Disk,
                   owner2: map<nat, Owner>, disk2: Disk)
    requires Grown(owner0, disk0, owner1, disk1) && Grown(owner1, disk1, owner2, disk2)
    ensures Grown(owner0, disk0, owner2, disk2)
  {
  }

  lemma GrownRefl(owner: map<nat, Owner>, disk: Disk)
    ensures Grown(owner, disk, owner, disk) && Shrunk(owner, disk, owner, disk)
  {
  }

  lemma ShrunkTrans(owner0: map<nat, Owner>, disk0: Disk, owner1: map<nat, Owner>, disk1: Disk,
                    owner2: map<nat, Owner>, disk2: Disk)
    requires Shrunk(owner0, disk0, owner1, disk1) && Shrunk(owner1, disk1, owner2, disk2)
    ensures Shrunk(owner0, disk0, owner2, disk2)
  {
    forall b | 0 <= b < |disk0| && !IsPointerBlock(owner0, b) ensures disk2[b] == disk0[b] {
      assert !IsPointerBlock(owner1, b);
    }
    forall b | 0 <= b < |disk0| ensures Blanked(disk0[b], disk2[b]) {
      assert Blanked(disk0[b], disk1[b]) && Blanked(disk1[b], disk2[b]);
    }
  }

  /** `Inode_truncarAbajo`: releases the blocks past the new end, last first. */
  method TruncateDown(vol: Volume, inode: Inode, newSize: nat, ghost ino: nat, ghost files: map<nat, File>)
    requires vol.p > 0 && newSize <= inode.size < TWO32
    requires Holds(vol, inode, ino, files, BlockCount(vol.p, inode.size))
    modifies vol`disk, vol`owner, vol.blocks, inode`block, inode`size
    ensures inode.size == newSize
    ensures var n := BlockCount(vol.p, newSize);
            Holds(vol, inode, ino, files[ino := File(inode.block, LiveSlots(vol.p, n))], n)
    ensures Shrunk(old(vol.owner), old(vol.disk), vol.owner, vol.disk)
    ensures Widths(vol.blocks.bitmap) == old(Widths(vol.blocks.bitmap))
    ensures vol.blocks.totalFree == old(vol.blocks.totalFree) +
                                    BlocksTaken(vol.p, BlockCount(vol.p, newSize), BlockCount(vol.p, old(inode.size)))
  {
    hide Holds, Tally, Good, Shrunk, LiveSlots, NewSlots, Widths, BlockCount, MaxBlocks;
    ghost var p, owner, disk, top := vol.p, vol.owner, vol.disk, BlockCount(vol.p, inode.size);
    HoldsFacts(vol, inode, ino, files, top);
    BlockReach(p, inode.size);
    BlockCountMonotone(p, newSize, inode.size);
    var count := BlockCount(vol.p, inode.size);
    var newCount := BlockCount(vol.p, newSize);
    GrownRefl(owner, disk);
    ghost var now := files;
    var i := count;
    while i > newCount
      invariant newCount <= i <= count && inode.size == old(inode.size)
      invariant now == files[ino := File(inode.block, LiveSlots(p, i))]
      invariant Holds(vol, inode, ino, now, i)
      invariant Shrunk(owner, disk, vol.owner, vol.disk)
      invariant Widths(vol.blocks.bitmap) == old(Widths(vol.blocks.bitmap))
      invariant vol.blocks.totalFree == old(vol.blocks.totalFree) + BlocksTaken(p, i, top)
    {
      ghost var owner1, disk1 := vol.owner, vol.disk;
      ReleaseBlock(vol, i - 1, inode, ino, now);
      ShrunkTrans(owner, disk, owner1, disk1, vol.owner, vol.disk);
      BlocksTakenSplit(p, i - 1, top);
      i := i - 1;
      now := now[ino := File(inode.block, LiveSlots(p, i))];
    }
    inode.size := newSize;
  }

  /** Same owners, same bitmaps and counters. */
  lemma SameOwnerSameBitmaps(space: Space, owner: map<nat, Owner>,
                             bitmap: seq<seq<bool>>, groupFree: seq<nat>, totalFree: nat,
                             bitmap': seq<seq<bool>>, groupFree': seq<nat>, totalFree': nat)
    requires Tally(space, bitmap, groupFree, totalFree, owner) && Tally(space, bitmap', groupFree', totalFree', owner)
    requires Widths(bitmap') == Widths(bitmap)
    ensures bitmap' == bitmap && groupFree' == groupFree && totalFree' == totalFree
  {
    forall n ensures Free(space, bitmap, n) <==> Free(space, bitmap', n) {
      assert Free(space, bitmap, n) ==> space.InRange(n) && n !in owner;
      assert Free(space, bitmap', n) ==> space.InRange(n) && n !in owner;
    }
    SameFreeSameBitmaps(space, bitmap, groupFree, totalFree, bitmap', groupFree', totalFree');
  }

  /** Block 0, which no file can own, is never written. */
  lemma FirstBlockGrown(p: nat, files: map<nat, File>, owner: map<nat, Owner>, disk: Disk,
                        files': map<nat, File>, owner': map<nat, Owner>, disk': Disk)
    requires Good(p, WordsOf(p, disk), files, owner) && Good(p, WordsOf(p, disk'), files', owner')
    requires Grown(owner, disk, owner', disk')
    ensures |disk| > 0 ==> disk'[0] == disk[0]
  {
  }

  lemma FirstBlockShrunk(p: nat, files: map<nat, File>, owner: map<nat, Owner>,
                         disk: Disk, owner': map<nat, Owner>, disk': Disk)
    requires Good(p, WordsOf(p, disk), files, owner) && Shrunk(owner, disk, owner', disk')
    ensures |disk| > 0 ==> disk'[0] == disk[0]
  {
  }

  /** Growing a file and shrinking it back gives every block, bit, counter and pointer back. */
  lemma BackAgain(p: nat, ino: nat, files: map<nat, File>, ip': seq<nat>, live1: File,
                  disk0: Disk, owner0: map<nat, Owner>, disk1: Disk, owner1: map<nat, Owner>,
                  disk2: Disk, owner2: map<nat, Owner>)
    requires ino in files
    requires Good(p, WordsOf(p, disk0), files, owner0) && Settled(owner0)
    requires Good(p, WordsOf(p, disk1), files[ino := live1], owner1)
    requires Good(p, WordsOf(p, disk2), files[ino := File(ip', files[ino].live)], owner2) && Settled(owner2)
    requires Grown(owner0, disk0, owner1, disk1) && Shrunk(owner1, disk1, owner2, disk2)
    ensures owner2 == owner0 && ip' == files[ino].ip
    ensures forall i :: i in files ==> SamePointers(p, files[i].ip, WordsOf(p, disk0), files[i].ip, WordsOf(p, disk2))
    ensures forall b :: b in owner0 && b < |disk0| && !IsPointerBlock(owner0, b) ==> disk2[b] == disk0[b]
    ensures |disk0| > 0 ==> disk2[0] == disk0[0]
  {
    FirstBlockGrown(p, files, owner0, disk0, files[ino := live1], owner1, disk1);
    FirstBlockShrunk(p, files[ino := live1], owner1, disk1, owner2, disk2);
    hide Good, WordsOf, SamePointers;
    var files2 := files[ino := File(ip', files[ino].live)];
    GrowShrinkRestores(p, WordsOf(p, disk0), files, owner0, WordsOf(p, disk1), files[ino := live1], owner1,
                       WordsOf(p, disk2), files2, owner2);
  }

  /** Cuts a file that has grown to `n` blocks back to its size, after a failure. */
  method UndoGrowth(vol: Volume, inode: Inode, n: nat, ghost ino: nat, ghost files: map<nat, File>,
                    ghost disk: Disk, ghost owner: map<nat, Owner>,
                    ghost bitmap: seq<seq<bool>>, ghost groupFree: seq<nat>, ghost totalFree: nat)
    requires vol.p > 0 && BlockCount(vol.p, inode.size) <= n && n * (4 * vol.p) < TWO32
    requires ino in files && files[ino].live == LiveSlots(vol.p, BlockCount(vol.p, inode.size))
    requires Holds(vol, inode, ino, files[ino := File(inode.block, LiveSlots(vol.p, n))], n)
    requires Good(vol.p, WordsOf(vol.p, disk), files, owner) && Settled(owner)
    requires Tally(vol.blocks.space, bitmap, groupFree, totalFree, owner)
    requires Grown(owner, disk, vol.owner, vol.disk) && Widths(vol.blocks.bitmap) == Widths(bitmap)
    modifies vol`disk, vol`owner, vol.blocks, inode`block, inode`size
    ensures inode.size == old(inode.size) && inode.block == files[ino].ip
    ensures Holds(vol, inode, ino, files, BlockCount(vol.p, inode.size))
    ensures vol.blocks.bitmap == bitmap && vol.blocks.groupFree == groupFree && vol.blocks.totalFree == totalFree
    ensures vol.owner == owner && |vol.disk| == |disk|
    ensures forall i :: i in files ==> SamePointers(vol.p, files[i].ip, WordsOf(vol.p, disk), files[i].ip, vol.Words())
    ensures forall b :: b in owner && b < |disk| && !IsPointerBlock(owner, b) ==> vol.disk[b] == disk[b]
    ensures |disk| > 0 ==> vol.disk[0] == disk[0]
  {
    hide Holds, Grown, Shrunk, LiveSlots, Widths, BlockCount, SamePointers, WordsOf, Good, Settled, Tally;
    ghost var p, now, disk1, owner1 := vol.p, files[ino := File(inode.block, LiveSlots(vol.p, n))], vol.disk, vol.owner;
    HoldsFacts(vol, inode, ino, now, n);
    var oldSize := inode.size;
    BlockCountIs(p, oldSize);
    MulMonotone(BlockCount(p, oldSize), n, 4 * p);
    BlockCountExact(p, n);
    inode.size := n * (4 * vol.p);
    TruncateDown(vol, inode, oldSize, ino, now);
    ghost var last := File(inode.block, files[ino].live);
    assert now[ino := last] == files[ino := last];
    HoldsFacts(vol, inode, ino, files[ino := last], BlockCount(p, oldSize));
    BackAgain(p, ino, files, inode.block, now[ino], disk, owner, disk1, owner1, vol.disk, vol.owner);
    assert files[ino := last] == files;
    SameOwnerSameBitmaps(vol.blocks.space, owner, bitmap, groupFree, totalFree,
                         vol.blocks.bitmap, vol.blocks.groupFree, vol.blocks.totalFree);
    GrownSize(owner, disk, owner1, disk1, vol.owner, vol.disk);
  }

  lemma GrownSize(owner0: map<nat, Owner>, disk0: Disk, owner1: map<nat, Owner>, disk1: Disk,
                  owner2: map<nat, Owner>, disk2: Disk)
    requires Grown(owner0, disk0, owner1, disk1) && Shrunk(owner1, disk1, owner2, disk2)
    ensures |disk2| == |disk0|
  {
  }

  /** `Inode_truncarArriba`: adds blocks up to the new end.  If the disk fills up on the way, the file
      is cut back to what it was, and everything is as before the call. */
  method TruncateUp(vol: Volume, inode: Inode, newSize: nat, ghost ino: nat, ghost files: map<nat, File>)
    returns (r: int)
    requires vol.p > 0 && inode.size <= newSize < TWO32
    requires Holds(vol, inode, ino, files, BlockCount(vol.p, inode.size))
    modifies vol`disk, vol`owner, vol.blocks, inode`block, inode`size
    ensures r == if old(vol.blocks.totalFree) < BlocksTaken(vol.p, BlockCount(vol.p, old(inode.size)),
                                                            BlockCount(vol.p, newSize))
                 then -1 else 0
    ensures r == 0 ==> inode.size == newSize
    ensures r == 0 ==> var n := BlockCount(vol.p, newSize);
                       Holds(vol, inode, ino, files[ino := File(inode.block, LiveSlots(vol.p, n))], n)
    ensures r == 0 ==> Grown(old(vol.owner), old(vol.disk), vol.owner, vol.disk)
    ensures r == 0 ==> vol.blocks.totalFree == old(vol.blocks.totalFree) -
                                               BlocksTaken(vol.p, BlockCount(vol.p, old(inode.size)),
                                                           BlockCount(vol.p, newSize))
    ensures r == -1 ==> inode.size == old(inode.size) && inode.block == old(inode.block)
    ensures r == -1 ==> Holds(vol, inode, ino, files, BlockCount(vol.p, inode.size))
    ensures r == -1 ==> vol.blocks.bitmap == old(vol.blocks.bitmap) && vol.blocks.groupFree == old(vol.blocks.groupFree)
    ensures r == -1 ==> vol.blocks.totalFree == old(vol.blocks.totalFree)
    ensures r == -1 ==> vol.owner == old(vol.owner) && |vol.disk| == |old(vol.disk)|
    ensures r == -1 ==> forall i :: i in files ==>
              SamePointers(vol.p, files[i].ip, old(vol.Words()), files[i].ip, vol.Words())
    ensures r == -1 ==> forall b :: b in vol.owner && b < |vol.disk| && !IsPointerBlock(vol.owner, b) ==>
              vol.disk[b] == old(vol.disk)[b]
    ensures |vol.disk| == |old(vol.disk)| && (|vol.disk| > 0 ==> vol.disk[0] == old(vol.disk)[0])
    ensures Widths(vol.blocks.bitmap) == old(Widths(vol.blocks.bitmap))
  {
    hide Holds, Grown, Shrunk, LiveSlots, NewSlots, Widths, BlockCount, MaxBlocks, BlocksTaken,
         SamePointers, WordsOf, Good, Settled, Tally;
    ghost var p, owner, disk, base := vol.p, vol.owner, vol.disk, BlockCount(vol.p, inode.size);
    HoldsFacts(vol, inode, ino, files, base);
    BlockReach(p, newSize);
    BlockCountMonotone(p, inode.size, newSize);
    TakenAtFirst(p, base);
    var count := BlockCount(vol.p, inode.size);
    var newCount := BlockCount(vol.p, newSize);
    GrownRefl(owner, disk);
    ghost var now := files;
    assert files[ino := File(inode.block, LiveSlots(p, base))] == files;
    var error := 0;
    var i := count;
    while i < newCount && error == 0
      invariant count <= i <= newCount && (error == 0 || error == -1)
      invariant error == -1 ==> i > count
      invariant inode.size == old(inode.size)
      invariant var n := if error == 0 then i else i - 1;
                && now == files[ino := File(inode.block, LiveSlots(p, n))]
                && Holds(vol, inode, ino, now, n)
                && vol.blocks.totalFree == old(vol.blocks.totalFree) - BlocksTaken(p, base, n)
      invariant error == -1 ==> vol.blocks.totalFree < |NewSlots(p, i - 1)|
      invariant Grown(owner, disk, vol.owner, vol.disk)
      invariant Widths(vol.blocks.bitmap) == old(Widths(vol.blocks.bitmap))
      decreases newCount - i, error + 1
    {
      ghost var owner1, disk1 := vol.owner, vol.disk;
      TakenNext(p, base, i);
      error := AssignBlock(vol, i, inode, ino, now);
      if error == 0 {
        GrownTrans(owner, disk, owner1, disk1, vol.owner, vol.disk);
        now := now[ino := File(inode.block, LiveSlots(p, i + 1))];
      }
      i := i + 1;
    }
    if error == -1 {
      BlocksTakenMonotone(p, base, i, newCount);
      StartsBelow(p, newSize, i - 1);
      TakenNext(p, base, i - 1);
      UndoGrowth(vol, inode, i - 1, ino, files, disk, owner, old(vol.blocks.bitmap), old(vol.blocks.groupFree),
                 old(vol.blocks.totalFree));
      return -1;
    }
    inode.size := newSize;
    HoldsFacts(vol, inode, ino, now, newCount);
    FirstBlockGrown(p, files, owner, disk, now, vol.owner, vol.disk);
    GrownLength(owner, disk, vol.owner, vol.disk);
    return 0;
  }

  lemma GrownLength(owner: map<nat, Owner>, disk: Disk, owner': map<nat, Owner>, disk': Disk)
    requires Grown(owner, disk, owner', disk')
    ensures |disk'| == |disk|
  {
  }

  /** Growing a file to any size and cutting it back restores bitmaps, counters, owners, pointers, size
      and every byte that any file had. */
  method GrowThenShrink(vol: Volume, inode: Inode, newSize: nat, ghost ino: nat, ghost files: map<nat, File>)
      returns (r: int)
    requires vol.p > 0 && inode.size <= newSize < TWO32
    requires Holds(vol, inode, ino, files, BlockCount(vol.p, inode.size))
    modifies vol`disk, vol`owner, vol.blocks, inode`block, inode`size
    ensures inode.size == old(inode.size) && inode.block == old(inode.block) && vol.owner == old(vol.owner)
    ensures vol.blocks.bitmap == old(vol.blocks.bitmap) && vol.blocks.groupFree == old(vol.blocks.groupFree)
    ensures vol.blocks.totalFree == old(vol.blocks.totalFree)
    ensures forall i :: i in files ==> SamePointers(vol.p, files[i].ip, old(vol.Words()), files[i].ip, vol.Words())
    ensures forall b :: b in vol.owner && b < |vol.disk| && !IsPointerBlock(vol.owner, b) ==>
            b < |old(vol.disk)| && vol.disk[b] == old(vol.disk)[b]
  {
    hide Holds, Grown, Shrunk, LiveSlots, Widths, BlockCount, SamePointers, WordsOf, Good, Settled, Tally, BlocksTaken;
    ghost var p, n, disk, owner := vol.p, BlockCount(vol.p, inode.size), vol.disk, vol.owner;
    ghost var bitmap, groupFree, totalFree := vol.blocks.bitmap, vol.blocks.groupFree, vol.blocks.totalFree;
    HoldsFacts(vol, inode, ino, files, n);
    var size := inode.size;
    r := TruncateUp(vol, inode, newSize, ino, files);
    if r == 0 {
      ghost var disk1, owner1, grown := vol.disk, vol.owner, File(inode.block, LiveSlots(p, BlockCount(p, newSize)));
      HoldsFacts(vol, inode, ino, files[ino := grown], BlockCount(p, newSize));
      TruncateDown(vol, inode, size, ino, files[ino := grown]);
      ghost var last := File(inode.block, files[ino].live);
      assert files[ino := grown][ino := last] == files[ino := last];
      HoldsFacts(vol, inode, ino, files[ino := last], n);
      BackAgain(p, ino, files, inode.block, grown, disk, owner, disk1, owner1, vol.disk, vol.owner);
      SameOwnerSameBitmaps(vol.blocks.space, owner, bitmap, groupFree, totalFree,
                           vol.blocks.bitmap, vol.blocks.groupFree, vol.blocks.totalFree);
      GrownSize(owner, disk, owner1, disk1, vol.owner, vol.disk);
    }
  }
}
