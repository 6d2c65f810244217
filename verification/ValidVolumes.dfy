/** Volumes that are valid, so that what is proved of valid states and of runs from them is about states
    that exist: a root directory that lists some files of up to twelve blocks, and nothing else. */
module ValidVolumes {
  import opened Arithmetic
  import opened Bytes
  import opened BlockTree
  import opened Ownership
  import opened Allocation
  import opened Storage
  import opened Truncation
  import opened FileContents
  import opened FileIO
  import opened DirRecords
  import opened Listings
  import opened Directory
  import opened Paths
  import opened DirTree
  import opened FileTable
  import opened States

  /** The number of the first block: the boot block of a 1 KiB volume is not counted. */
  function FirstBlock(p: nat): nat {
    if p == 256 then 1 else 0
  }

  /** The root directory's block, after the `reserved` ones. */
  function RootBlock(p: nat, reserved: nat): nat {
    FirstBlock(p) + reserved
  }

  /** The first inode that is not reserved. */
  const FIRST: nat := 11

  /** File `k` has the blocks from here on; what it does not use of its twelve is reserved. */
  function Base(root: nat, k: nat): nat {
    root + 1 + k * 12
  }

  /** How many blocks inode `i` has: one for the root directory, `counts[k]` for file `k`. */
  function Blocks(counts: seq<nat>, i: nat): nat {
    if i == ROOT then 1 else if FIRST <= i < FIRST + |counts| then counts[i - FIRST] else 0
  }

  function Where(root: nat, i: nat): nat {
    if i < FIRST then root else Base(root, i - FIRST)
  }

  function Pointers(base: nat, n: nat): (ip: seq<nat>)
    ensures |ip| == 15
  {
    seq(15, m requires 0 <= m => if m < n then base + m else 0)
  }

  function RecordOf(p: nat, root: nat, counts: seq<nat>, i: nat): Record {
    var mode := if i == ROOT then DIR_MODE else if FIRST <= i < FIRST + |counts| then FILE_MODE else 0;
    var n := Blocks(counts, i);
    Record(mode, if i == ROOT then 2 else if mode == 0 then 0 else 1, n * (4 * p), Pointers(Where(root, i), n))
  }

  function OwnerOf(root: nat, counts: seq<nat>, b: nat): Owner {
    if b < root then Meta
    else if b == root then Of(ROOT, Top(0))
    else
      var k, m := Quot(b - root - 1, 12), Rem(b - root - 1, 12);
      if k < |counts| && m < counts[k] then Of(FIRST + k, Top(m)) else Meta
  }

  /** One group of `units` units, of which the first `taken` are used. */
  function OneGroup(first: nat, units: nat, taken: nat): Bits
    requires taken <= units
  {
    Bits(Space(first, units, units, 1), [seq(units, k => k < taken)], [units - taken], units - taken)
  }

  /** The sizes fit the disk. */
  predicate Fits(p: nat, disk: Disk, reserved: nat, inodes: nat, counts: seq<nat>) {
    && ((p == 256 && |disk| <= 0x40_0000) || (p == 512 && |disk| <= 0x20_0000) || (p == 1024 && |disk| <= 0x10_0000))
    && Formatted(p, disk) && 0 < reserved && Base(RootBlock(p, reserved), |counts|) <= |disk|
    && FIRST + |counts| <= inodes + 1 < TWO32 && forall k :: 0 <= k < |counts| ==> counts[k] <= 12
  }

  ghost function VolumeState(p: nat, disk: Disk, reserved: nat, inodes: nat, counts: seq<nat>): State
    requires Fits(p, disk, reserved, inodes, counts)
  {
    var first, root := FirstBlock(p), RootBlock(p, reserved);
    State(p, disk,
          map b: nat | first <= b < Base(root, |counts|) :: OwnerOf(root, counts, b),
          OneGroup(first, |disk| - first, Base(root, |counts|) - first),
          OneGroup(1, inodes, 10 + |counts|),
          map i: nat | 1 <= i <= inodes :: RecordOf(p, root, counts, i),
          map[ROOT := Place(ROOT, 0)])
  }

  /** File `k` has a name of one letter. */
  function Letter(k: nat): Name
    requires k < 26
  {
    [97 + k]
  }

  function RootList(count: nat): seq<Entry>
    requires count <= 26
  {
    [Entry(DOT, ROOT), Entry(DOTDOT, ROOT)] + seq(count, k requires 0 <= k < count => Entry(Letter(k), FIRST + k))
  }

  // ----- the root directory's block -----

  /** The last record of the block is at `off`. */
  ghost predicate LastAt(blk: seq<Byte>, off: nat) {
    && Tiled(blk, 0) && Reaches(blk, 0, off) && RecordAt(blk, off) && off + LengthAt(blk, off) == |blk| < TWO16
    && NeedAt(blk, off) == 12
  }

  /** Splitting the last record adds an entry at the end. */
  lemma SplitLast(blk: seq<Byte>, off: nat, inode: nat, name: Name)
    requires LastAt(blk, off) && 1 <= |name| <= 4 && 0 < inode < TWO32 && off + 24 <= |blk|
    ensures HasRoom(blk, off, Round4(HEADER + |name|))
    ensures var blk' := Split(blk, off, inode, name);
            LastAt(blk', off + 12) && Entries(blk', 0) == Entries(blk, 0) + [Entry(name, inode)]
  {
    LastLength(blk, off);
    hide LastAt, RecordAt, LengthAt, NeedAt, EntryAt, Tiled, Entries, Reaches, Split, Agree, Word16, Word32;
    SplitRecords(blk, off, inode, name);
    NeedOf(Split(blk, off, inode, name), off + 12, Entry(name, inode));
    LastSplit(blk, Split(blk, off, inode, name), off, Entry(name, inode));
  }

  lemma LastLength(blk: seq<Byte>, off: nat)
    requires LastAt(blk, off)
    ensures off + LengthAt(blk, off) == |blk| < TWO16 && RecordAt(blk, off) && NeedAt(blk, off) == 12
  {
  }

  lemma LastSplit(blk: seq<Byte>, blk': seq<Byte>, off: nat, e: Entry)
    requires LastAt(blk, off) && |blk'| == |blk| && off + 24 <= |blk|
    requires Agree(blk, blk', 0, off)
    requires RecordAt(blk', off) && LengthAt(blk', off) == 12 && EntryAt(blk', off) == EntryAt(blk, off)
    requires RecordAt(blk', off + 12) && LengthAt(blk', off + 12) == LengthAt(blk, off) - 12
    requires EntryAt(blk', off + 12) == [e] && NeedAt(blk', off + 12) == 12
    ensures LastAt(blk', off + 12) && Entries(blk', 0) == Entries(blk, 0) + [e]
  {
    hide RecordAt, LengthAt, NeedAt, EntryAt, Tiled, Entries, Reaches, Agree;
    TiledAt(blk, off);
    AtEnd(blk);
    AgreeNone(blk, blk');
    SplitTail(blk, blk', off, 12, |blk|, e);
    PrefixSame(blk, blk', 0, off);
    WalkSame(blk, blk', 0, off);
    ReachesStep(blk', 0, off);
    assert EntriesTo(blk, 0, off) + (EntryAt(blk, off) + [e]) == EntriesTo(blk, 0, off) + EntryAt(blk, off) + [e];
  }

  lemma AtEnd(blk: seq<Byte>)
    ensures Tiled(blk, |blk|) && Entries(blk, |blk|) == []
  {
  }

  lemma AgreeNone(blk: seq<Byte>, blk': seq<Byte>)
    requires |blk'| == |blk|
    ensures Agree(blk, blk', |blk|, |blk|)
  {
  }

  lemma NeedOf(blk: seq<Byte>, off: nat, e: Entry)
    requires EntryAt(blk, off) == [e] && 1 <= |e.name| <= 4
    ensures RecordAt(blk, off) && NeedAt(blk, off) == 12
  {
    hide Word16, Word32;
    assert EntryAt(blk, off)[0].name == NameAt(blk, off);
  }

  /** There is a block with the listing for every block size. */
  lemma {:induction false} RootDirectory(bs: nat, count: nat) returns (blk: seq<Byte>)
    requires (bs == 1024 || bs == 2048 || bs == 4096) && count <= 26
    ensures |blk| == bs && LastAt(blk, 12 + 12 * count) && Entries(blk, 0) == RootList(count)
  {
    hide LastAt, Split, Entries, RecordAt, RootList, HasRoom, LengthAt, NeedAt, Letter, Round4;
    if count == 0 {
      blk := DotsOnly(bs);
    } else {
      var less := RootDirectory(bs, count - 1);
      RootListGrows(count);
      LastLength(less, 12 * count);
      SplitLast(less, 12 * count, FIRST + count - 1, Letter(count - 1));
      blk := Split(less, 12 * count, FIRST + count - 1, Letter(count - 1));
    }
  }

  lemma RootListGrows(count: nat)
    requires 0 < count <= 26
    ensures RootList(count) == RootList(count - 1) + [Entry(Letter(count - 1), FIRST + count - 1)]
    ensures |Letter(count - 1)| == 1
  {
  }

  lemma DotsOnly(bs: nat) returns (blk: seq<Byte>)
    requires bs == 1024 || bs == 2048 || bs == 4096
    ensures |blk| == bs && LastAt(blk, 12) && Entries(blk, 0) == RootList(0)
  {
    hide RecordAt, Split, Round4, Entries, LengthAt, NeedAt, EntryAt, Tiled, Reaches, Header, HasRoom;
    var one := Patch(Zeros(bs), 0, Header(ROOT, bs, 1, 0) + DOT);
    RoundsUp();
    SoleRecord(Zeros(bs), ROOT, DOT);
    ReachesSelf(one);
    NeedOf(one, 0, Entry(DOT, ROOT));
    SplitLast(one, 0, ROOT, DOTDOT);
    blk := Split(one, 0, ROOT, DOTDOT);
  }

  lemma RoundsUp()
    ensures Round4(HEADER + 1) == 12
  {
  }

  /** The inodes in use: ten reserved ones and those of the files. */
  function InUse(count: nat): set<nat> {
    if count == 0 then {1, 2, 3, 4, 5, 6, 7, 8, 9, 10} else InUse(count - 1) + {10 + count}
  }

  lemma {:induction false} InUseIs(count: nat, i: nat)
    ensures i in InUse(count) <==> 1 <= i < FIRST + count
  {
    if count > 0 {
      InUseIs(count - 1, i);
    }
  }

  lemma {:induction false} RootTree(count: nat)
    requires count <= 26
    ensures TreeOk(map[ROOT := RootList(count)], InUse(count), map[ROOT := Place(ROOT, 0)])
  {
    if count == 0 {
      RootOnly(InUse(0));
      assert RootList(0) == [Entry(DOT, ROOT), Entry(DOTDOT, ROOT)];
    } else {
      RootTree(count - 1);
      RootTreeGrows(count - 1);
    }
  }

  lemma RootTreeGrows(c: nat)
    requires c < 26 && TreeOk(map[ROOT := RootList(c)], InUse(c), map[ROOT := Place(ROOT, 0)])
    ensures TreeOk(map[ROOT := RootList(c + 1)], InUse(c + 1), map[ROOT := Place(ROOT, 0)])
  {
    hide TreeOk;
    InUseIs(c, FIRST + c);
    var list, list' := RootList(c), RootList(c + 1);
    assert InsertedAt(list, list', Entry(Letter(c), FIRST + c), |list|);
    assert map[ROOT := list][ROOT := list'] == map[ROOT := list'];
    TreeAddFile(map[ROOT := list], InUse(c), map[ROOT := Place(ROOT, 0)], ROOT, list', Letter(c), FIRST + c);
  }

  // ----- the volume -----

  lemma {:induction false} CountRun(units: nat, taken: nat)
    requires taken <= units
    ensures CountFree(seq(units, k => k < taken)) == units - taken
  {
    var bits := seq(units, k => k < taken);
    if units > taken {
      CountRun(units - 1, taken);
      assert bits[..units - 1] == seq(units - 1, k => k < taken);
    } else {
      CountFreeZero(bits);
    }
  }

  lemma GroupFits(first: nat, units: nat, taken: nat)
    requires 0 < units && taken <= units
    ensures var g := OneGroup(first, units, taken);
            && Covers(g.space, g.bitmap) && Counted(g.bitmap, g.groupFree, g.totalFree)
            && forall n: nat :: Free(g.space, g.bitmap, n) <==> first + taken <= n < first + units
  {
    var g := OneGroup(first, units, taken);
    CountRun(units, taken);
    assert g.groupFree[..0] == [];
    assert Sum(g.groupFree) == units - taken;
    forall n | first <= n < first + units ensures g.space.GroupOf(n) == 0 && g.space.BitOf(n) == n - first {
      DivMod(units, 0, n - first);
    }
  }

  /** Slots below an inode's last three pointers lead nowhere when these are zero. */
  lemma {:induction false} PointsNowhere(ip: seq<nat>, w: Words, s: Slot)
    requires |ip| == 15 && ip[12] == 0 && ip[13] == 0 && ip[14] == 0
    requires Height(s) >= 0 && (s.Sub? || s.index >= 12)
    ensures PtrAt(ip, w, s) == 0
  {
    if s.Sub? {
      PointsNowhere(ip, w, s.parent);
    }
  }

  /** A file of at most twelve blocks uses its first slots. */
  lemma {:induction false} DirectSlots(p: nat, s: Slot, n: nat)
    requires p > 0 && WellFormed(p, s) && n <= 12
    ensures s in LiveSlots(p, n) <==> s.Top? && s.index < n
    ensures s.Sub? ==> First(p, s) >= 12
  {
    if s.Sub? {
      MulMonotone(0, s.pos, Span(p, Height(s)));
      DirectSlots(p, s.parent, n);
    }
  }

  /** A file whose blocks are in a row is well placed. */
  lemma RowPlaced(p: nat, w: Words, owner: map<nat, Owner>, i: nat, base: nat, n: nat)
    requires p > 0 && n <= 12
    requires forall m :: 0 <= m < n ==> base + m in owner && owner[base + m] == Of(i, Top(m))
    ensures Placed(p, w, owner, i, File(Pointers(base, n), LiveSlots(p, n)))
  {
    forall s | WellFormed(p, s)
      ensures s in LiveSlots(p, n) <==> s.Top? && s.index < n
      ensures PtrAt(Pointers(base, n), w, s) == if s.Top? && s.index < n then base + s.index else 0
    {
      DirectSlots(p, s, n);
      HeightNonNegative(p, s);
      if s.Sub? || s.index >= 12 {
        PointsNowhere(Pointers(base, n), w, s);
      }
    }
  }

  /** Where the blocks of the files are. */
  lemma OwnerInRow(root: nat, counts: seq<nat>, k: nat, m: nat)
    requires k < |counts| && m < counts[k] <= 12
    ensures root < Base(root, k) + m < Base(root, |counts|)
    ensures OwnerOf(root, counts, Base(root, k) + m) == Of(FIRST + k, Top(m))
  {
    DivMod(12, k, m);
  }

  lemma OwnerBack(root: nat, counts: seq<nat>, b: nat)
    requires root < b < Base(root, |counts|) && OwnerOf(root, counts, b).Of?
    ensures var o := OwnerOf(root, counts, b);
            && FIRST <= o.ino < FIRST + |counts| && o.slot.Top? && o.slot.index < counts[o.ino - FIRST]
            && b == Base(root, o.ino - FIRST) + o.slot.index
  {
  }

  /** The owners and the records are as they should be. */
  ghost predicate LaidOut(s: State, root: nat, counts: seq<nat>) {
    && s.p > 0 && FirstBlock(s.p) <= root && (forall k :: 0 <= k < |counts| ==> counts[k] <= 12)
    && (forall b :: b in s.owner <==> FirstBlock(s.p) <= b < Base(root, |counts|))
    && (forall b :: b in s.owner ==> s.owner[b] == OwnerOf(root, counts, b))
    && (forall i :: i in s.table ==> s.table[i] == RecordOf(s.p, root, counts, i))
    && (forall i :: 1 <= i < FIRST + |counts| ==> i in s.table)
  }

  lemma FilePlaced(s: State, w: Words, root: nat, counts: seq<nat>, i: nat)
    requires LaidOut(s, root, counts) && i in s.table
    ensures Placed(s.p, w, s.owner, i, FilesOf(s.p, s.table)[i])
  {
    var n, base := Blocks(counts, i), Where(root, i);
    FilesEntry(s.p, s.table, i);
    BlockCountExact(s.p, n);
    forall m | 0 <= m < n ensures base + m in s.owner && s.owner[base + m] == Of(i, Top(m)) {
      if i != ROOT {
        OwnerInRow(root, counts, i - FIRST, m);
      }
    }
    hide LiveSlots, BlockCount;
    RowPlaced(s.p, w, s.owner, i, base, n);
  }

  lemma OwnedReached(s: State, w: Words, root: nat, counts: seq<nat>, b: nat)
    requires LaidOut(s, root, counts) && b in s.owner
    ensures !s.owner[b].Loose? && Reached(w, FilesOf(s.p, s.table), s.owner[b], b)
  {
    if s.owner[b].Of? {
      var i, slot := s.owner[b].ino, s.owner[b].slot;
      if b != root {
        OwnerBack(root, counts, b);
      }
      FilesEntry(s.p, s.table, i);
      BlockCountExact(s.p, Blocks(counts, i));
      hide LiveSlots, BlockCount;
      DirectSlots(s.p, slot, Blocks(counts, i));
    }
  }

  lemma VolumeFiles(s: State, w: Words, root: nat, counts: seq<nat>)
    requires LaidOut(s, root, counts) && 0 < root && Base(root, |counts|) <= |w|
    requires forall b :: 0 <= b < |w| ==> |w[b]| == s.p
    ensures Good(s.p, w, FilesOf(s.p, s.table), s.owner) && Settled(s.owner)
  {
    hide Placed, Reached, RecordOf, FilesOf;
    FilesKeys(s.p, s.table);
    forall i | i in s.table ensures Placed(s.p, w, s.owner, i, FilesOf(s.p, s.table)[i]) {
      FilePlaced(s, w, root, counts, i);
    }
    forall b | b in s.owner ensures !s.owner[b].Loose? && Reached(w, FilesOf(s.p, s.table), s.owner[b], b) {
      OwnedReached(s, w, root, counts, b);
    }
  }

  lemma FilesKeys(p: nat, table: Table)
    requires p > 0
    ensures FilesOf(p, table).Keys == table.Keys
  {
  }

  lemma VolumeLaidOut(p: nat, disk: Disk, reserved: nat, inodes: nat, counts: seq<nat>)
    requires Fits(p, disk, reserved, inodes, counts)
    ensures LaidOut(VolumeState(p, disk, reserved, inodes, counts), RootBlock(p, reserved), counts)
  {
    hide OneGroup, OwnerOf, RecordOf;
  }

  lemma VolumeParts(p: nat, disk: Disk, reserved: nat, inodes: nat, counts: seq<nat>)
    requires Fits(p, disk, reserved, inodes, counts)
    ensures var s, root := VolumeState(p, disk, reserved, inodes, counts), RootBlock(p, reserved);
            && s.p == p && s.disk == disk && s.place == map[ROOT := Place(ROOT, 0)]
            && FirstBlock(p) < root < Base(root, |counts|) <= |disk|
            && s.blocks == OneGroup(FirstBlock(p), |disk| - FirstBlock(p), Base(root, |counts|) - FirstBlock(p))
            && s.inodes == OneGroup(1, inodes, 10 + |counts|)
            && (forall b :: b in s.owner <==> FirstBlock(p) <= b < Base(root, |counts|))
            && (forall i :: i in s.table <==> 1 <= i <= inodes)
  {
    hide OneGroup, OwnerOf, RecordOf;
  }

  lemma VolumeBlocks(p: nat, disk: Disk, reserved: nat, inodes: nat, counts: seq<nat>)
    requires Fits(p, disk, reserved, inodes, counts)
    ensures var s := VolumeState(p, disk, reserved, inodes, counts);
            && Geometry(p, s.blocks.space, s.disk)
            && Tally(s.blocks.space, s.blocks.bitmap, s.blocks.groupFree, s.blocks.totalFree, s.owner)
            && (s.blocks.space.InRange(0) ==> 0 in s.owner)
            && s.blocks.totalFree == |disk| - Base(RootBlock(p, reserved), |counts|)
  {
    hide Covers, Counted, Free, VolumeState, Base, RootBlock, FirstBlock, Tally, Formatted;
    var first, base := FirstBlock(p), Base(RootBlock(p, reserved), |counts|);
    VolumeParts(p, disk, reserved, inodes, counts);
    GroupTally(first, |disk| - first, base - first, VolumeState(p, disk, reserved, inodes, counts).owner);
  }

  /** A group fits the blocks that have an owner. */
  lemma GroupTally(first: nat, units: nat, taken: nat, owner: map<nat, Owner>)
    requires 0 < units && taken <= units && forall b :: b in owner <==> first <= b < first + taken
    ensures var g := OneGroup(first, units, taken); Tally(g.space, g.bitmap, g.groupFree, g.totalFree, owner)
  {
    GroupFits(first, units, taken);
    hide Covers, Counted, Free;
  }

  lemma VolumeInodes(p: nat, disk: Disk, reserved: nat, inodes: nat, counts: seq<nat>)
    requires Fits(p, disk, reserved, inodes, counts)
    ensures var s := VolumeState(p, disk, reserved, inodes, counts);
            && Covers(s.inodes.space, s.inodes.bitmap)
            && Counted(s.inodes.bitmap, s.inodes.groupFree, s.inodes.totalFree)
            && Numbered(s.inodes.space, s.table.Keys)
            && (forall i :: i in s.table ==> 0 < i < TWO32) && Used(s) == InUse(|counts|)
  {
    hide Covers, Counted, Free, VolumeState, InUse;
    VolumeParts(p, disk, reserved, inodes, counts);
    GroupFits(1, inodes, 10 + |counts|);
    var s := VolumeState(p, disk, reserved, inodes, counts);
    forall i ensures i in Used(s) <==> i in InUse(|counts|) {
      InUseIs(|counts|, i);
    }
  }

  /** Any volume laid out like this is valid, whatever its reserved blocks, its files and its free blocks hold. */
  lemma VolumeIsValid(p: nat, disk: Disk, reserved: nat, inodes: nat, counts: seq<nat>)
    requires Fits(p, disk, reserved, inodes, counts) && |counts| <= 26
    requires var root := disk[RootBlock(p, reserved)]; Tiled(root, 0) && Entries(root, 0) == RootList(|counts|)
    ensures var s := VolumeState(p, disk, reserved, inodes, counts);
            Valid(s) && Directories(s) == map[ROOT := RootList(|counts|)]
  {
    hide Covers, Counted, Free, OwnerOf, RecordOf, LaidOut, Good, Tally, Sane, Used, Numbered, Directories, VolumeState,
         Geometry, OneGroup, RootList, Tiled, Entries, InUse, Settled, FilesOf;
    var s, root := VolumeState(p, disk, reserved, inodes, counts), RootBlock(p, reserved);
    VolumeLaidOut(p, disk, reserved, inodes, counts);
    VolumeBlocks(p, disk, reserved, inodes, counts);
    VolumeInodes(p, disk, reserved, inodes, counts);
    VolumeParts(p, disk, reserved, inodes, counts);
    VolumeTree(s, root, counts);
    WordsLength(p, disk);
    VolumeFiles(s, WordsOf(p, disk), root, counts);
  }

  lemma VolumeTree(s: State, root: nat, counts: seq<nat>)
    requires LaidOut(s, root, counts) && |counts| <= 26 && root < |s.disk| && s.p <= 1024
    requires Used(s) == InUse(|counts|) && (forall i :: i in s.table ==> 0 < i < TWO32)
    requires Tiled(s.disk[root], 0) && Entries(s.disk[root], 0) == RootList(|counts|)
    requires s.place == map[ROOT := Place(ROOT, 0)]
    ensures Sane(s.p, s.disk, s.table, Used(s), s.place) && Directories(s) == map[ROOT := RootList(|counts|)]
  {
    hide TreeOk, RootList, IsDirectory, InUse, RecordOf, LaidOut, Used, BlocksOf;
    RootTree(|counts|);
    RootListed(s, root, counts);
    RootRecords(s, root, counts);
    SaneRoot(s.p, s.disk, s.table, Used(s), s.place, RootList(|counts|));
  }

  lemma SaneRoot(p: nat, disk: Disk, table: Table, used: set<nat>, place: map<nat, Place>, list: seq<Entry>)
    requires p > 0 && used <= table.Keys && ROOT in used && ROOT in table
    requires forall i :: i in table ==>
               0 < i < TWO32 && table[i].size < TWO32 && (IsDirMode(table[i].mode) <==> i == ROOT)
    requires forall i :: i in table && i !in used ==> table[i].size == 0
    requires IsDirectory(p, disk, table[ROOT].block, table[ROOT].size)
    requires Listing(BlocksOf(p, disk, table[ROOT])) == list
    requires TreeOk(map[ROOT := list], used, place)
    ensures Sane(p, disk, table, used, place) && DirsOf(p, disk, table, used) == map[ROOT := list]
  {
    hide TreeOk, IsDirectory, Listing, BlocksOf, IsDirMode;
    assert DirsOf(p, disk, table, used) == map[ROOT := list];
  }

  /** The root directory is the only directory, and inodes that are not in use are empty. */
  lemma RootRecords(s: State, root: nat, counts: seq<nat>)
    requires LaidOut(s, root, counts) && s.p <= 1024
    ensures s.p > 0 && InUse(|counts|) <= s.table.Keys && ROOT in InUse(|counts|)
    ensures forall i :: i in s.table ==> s.table[i].size < TWO32 && (IsDirMode(s.table[i].mode) <==> i == ROOT)
    ensures forall i :: i in s.table && i !in InUse(|counts|) ==> s.table[i].size == 0
  {
    forall i: nat ensures i in InUse(|counts|) <==> 1 <= i < FIRST + |counts| {
      InUseIs(|counts|, i);
    }
    hide OwnerOf, InUse;
    forall i | i in s.table ensures s.table[i].size < TWO32 {
      assert Blocks(counts, i) <= 12;
      MulMonotone(Blocks(counts, i), 12, 4 * s.p);
    }
  }

  lemma RootListed(s: State, root: nat, counts: seq<nat>)
    requires LaidOut(s, root, counts) && root < |s.disk| && Tiled(s.disk[root], 0)
    ensures ROOT in s.table && IsDirectory(s.p, s.disk, s.table[ROOT].block, s.table[ROOT].size)
    ensures Listing(BlocksOf(s.p, s.disk, s.table[ROOT])) == Entries(s.disk[root], 0)
  {
    BlockCountExact(s.p, 1);
    DivMod(4 * s.p, 1, 0);
    hide Tiled, Entries, Listing, BlockCount, OwnerOf, Rem;
    assert Content(s.p, s.disk, s.table[ROOT].block, 1) == [s.disk[root]];
    ListingOne(s.disk[root]);
  }

  function BlankDisk(p: nat, size: nat): (disk: Disk)
    ensures Formatted(p, disk) && |disk| == size
  {
    seq(size, _ => Zeros(4 * p))
  }

  /** For every block size and number of free blocks there is a valid volume with nothing but a root directory. */
  lemma FreshVolume(p: nat, free: nat) returns (s: State)
    requires (p == 256 || p == 512 || p == 1024) && free <= 0xF_FFF0
    ensures Valid(s) && s.p == p && s.blocks.totalFree == free
    ensures Directories(s) == map[ROOT := [Entry(DOT, ROOT), Entry(DOTDOT, ROOT)]]
  {
    hide Valid, Tiled, Entries, VolumeState, Fits, Directories, Tally, Geometry, OneGroup;
    var disk := FreshDisk(p, free);
    VolumeIsValid(p, disk, 1, 16, []);
    VolumeBlocks(p, disk, 1, 16, []);
    VolumeParts(p, disk, 1, 16, []);
    assert RootList(0) == [Entry(DOT, ROOT), Entry(DOTDOT, ROOT)];
    s := VolumeState(p, disk, 1, 16, []);
  }

  lemma FreshDisk(p: nat, free: nat) returns (disk: Disk)
    requires (p == 256 || p == 512 || p == 1024) && free <= 0xF_FFF0
    ensures Fits(p, disk, 1, 16, []) && |disk| == FirstBlock(p) + 2 + free
    ensures var root := disk[RootBlock(p, 1)]; Tiled(root, 0) && Entries(root, 0) == RootList(0)
  {
    hide Tiled, Entries, RootList, Reaches, RecordAt, LengthAt, NeedAt;
    var blk := RootDirectory(4 * p, 0);
    disk := BlankDisk(p, FirstBlock(p) + 2 + free)[RootBlock(p, 1) := blk];
  }
}
