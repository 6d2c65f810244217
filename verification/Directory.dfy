/** Directories on disk (rfs/Dir.c): listing them, adding entries and deleting them. */
module Directory {
  import opened Arithmetic
  import opened Bytes
  import opened BlockTree
  import opened Ownership
  import opened Allocation
  import opened Storage
  import opened InodeOps
  import opened Truncation
  import opened FileContents
  import opened FileIO
  import opened DirRecords
  import opened Listings

  /** A directory's size is a whole number of blocks, all tiled by records. */
  ghost predicate IsDirectory(p: nat, disk: Disk, ip: seq<nat>, size: nat) {
    p > 0 && Rem(size, 4 * p) == 0 && AllTiled(Content(p, disk, ip, BlockCount(p, size)))
  }

  function ListingOf(p: nat, disk: Disk, ip: seq<nat>, size: nat): seq<Entry>
    requires p > 0
  {
    Listing(Content(p, disk, ip, BlockCount(p, size)))
  }

  /** The record holds the name's length in one byte, so a longer name is cut. */
  function ShortName(name: seq<Byte>): (short: seq<Byte>)
    ensures |short| < 256
  {
    name[..|name| % 256]
  }

  /** Where block `k` of a file is on disk. */
  method Locate(vol: Volume, inode: Inode, k: nat, ghost ino: nat, ghost files: map<nat, File>, ghost n: nat)
    returns (b: nat)
    requires vol.p > 0 && Holds(vol, inode, ino, files, n) && n <= MaxBlocks(vol.p) && k < n
    ensures 0 < b < |vol.disk| && vol.disk[b] == Content(vol.p, vol.disk, inode.block, n)[k]
    ensures |vol.disk[b]| == 4 * vol.p
    ensures |inode.block| == 15 && b == BlockNumber(vol.p, inode.block, vol.Words(), k)
  {
    hide Good, WordsOf, BlockNumber, DataSlot, LiveSlots, MaxBlocks, Volume.Consistent;
    HoldsFacts(vol, inode, ino, files, n);
    vol.Shape();
    BlockFound(vol.p, vol.disk, vol.owner, files, ino, n, k);
    b := BlockNumber(vol.p, inode.block, vol.Words(), k);
  }

  /** Writes bytes at position `off` of block `k` of the file. */
  method Store(vol: Volume, inode: Inode, k: nat, off: nat, data: seq<Byte>,
               ghost ino: nat, ghost files: map<nat, File>, ghost n: nat)
    requires vol.p > 0 && Holds(vol, inode, ino, files, n) && n <= MaxBlocks(vol.p) && k < n
    requires off + |data| <= 4 * vol.p && data != []
    modifies vol`disk
    ensures Holds(vol, inode, ino, files, n) && |vol.disk| == |old(vol.disk)|
    ensures var c := Content(vol.p, old(vol.disk), inode.block, n);
            |c[k]| == 4 * vol.p && Content(vol.p, vol.disk, inode.block, n) == c[k := Patch(c[k], off, data)]
    ensures OthersSame(vol.p, files, ino, old(vol.disk), vol.disk)
    ensures DataKept(vol.owner, old(vol.disk), vol.owner, vol.disk, {ino})
    ensures |vol.disk| > 0 && vol.disk[0] == old(vol.disk)[0]
  {
    hide Holds, Tally, Good, WordsOf, OthersSame, BlockNumber, DataSlot,
         LiveSlots, MaxBlocks, Volume.Consistent, Content;
    ghost var p, disk, owner := vol.p, vol.disk, vol.owner;
    var b := Locate(vol, inode, k, ino, files, n);
    HoldsFacts(vol, inode, ino, files, n);
    vol.Shape();
    StoreFacts(p, disk, owner, files, ino, n, k, off, data);
    vol.WriteBytes(b, off, data);
    HoldsAgain(vol, inode, ino, files, n);
    OneBlockWritten(owner, disk, vol.disk, b, ino);
  }

  lemma OneBlockWritten(owner: map<nat, Owner>, disk: Disk, disk': Disk, b: nat, ino: nat)
    requires |disk'| == |disk| && forall x :: 0 <= x < |disk| && x != b ==> disk'[x] == disk[x]
    requires b in owner && owner[b].Of? && owner[b].ino == ino && b != 0
    ensures DataKept(owner, disk, owner, disk', {ino})
  {
  }

  /** `Dir_listar`: the entries of all blocks. */
  method ListDirectory(vol: Volume, inode: Inode, ghost ino: nat, ghost files: map<nat, File>)
      returns (list: seq<Entry>)
    requires vol.p > 0 && inode.size < TWO32 && Holds(vol, inode, ino, files, BlockCount(vol.p, inode.size))
    requires IsDirectory(vol.p, vol.disk, inode.block, inode.size)
    ensures list == ListingOf(vol.p, vol.disk, inode.block, inode.size)
  {
    hide Holds, LiveSlots, MaxBlocks, BlockCount, Content, Tiled, Entries, Listing, BlockNumber;
    ghost var p, n := vol.p, BlockCount(vol.p, inode.size);
    ghost var c := Content(p, vol.disk, inode.block, n);
    HoldsFacts(vol, inode, ino, files, n);
    BlockReach(p, inode.size);
    ContentLength(p, vol.disk, inode.block, n);
    var count := BlockCount(vol.p, inode.size);
    list := [];
    ListingNone(c);
    var i := 0;
    while i < count
      invariant 0 <= i <= count && list == Listing(c[..i])
    {
      var b := Locate(vol, inode, i, ino, files, n);
      var entries := ListBlock(vol.disk[b]);
      ListingStep(c, i);
      list := list + entries;
      i := i + 1;
    }
    assert c[..n] == c;
  }

  lemma ListingNone(c: seq<seq<Byte>>)
    ensures Listing(c[..0]) == []
  {
  }

  lemma ListingStep(c: seq<seq<Byte>>, i: nat)
    requires i < |c|
    ensures Listing(c[..i + 1]) == Listing(c[..i]) + Entries(c[i], 0)
  {
    assert c[..i + 1][..i] == c[..i];
  }

  /** `Dir_cantDirectorios`: how many entries there are. */
  method CountEntries(vol: Volume, inode: Inode, ghost ino: nat, ghost files: map<nat, File>) returns (count: nat)
    requires vol.p > 0 && inode.size < TWO32 && Holds(vol, inode, ino, files, BlockCount(vol.p, inode.size))
    requires IsDirectory(vol.p, vol.disk, inode.block, inode.size)
    ensures count == |ListingOf(vol.p, vol.disk, inode.block, inode.size)|
  {
    var list := ListDirectory(vol, inode, ino, files);
    count := |list|;
  }

  /** No record of the first `upto` blocks has `need` bytes to spare. */
  predicate Full(blocks: seq<seq<Byte>>, upto: nat, need: nat) {
    forall j :: 0 <= j < upto && j < |blocks| ==> NoRoom(blocks[j], |blocks[j]|, need)
  }

  /** The record at `off` of block `k` is the first with `need` bytes to spare. */
  ghost predicate FirstFit(c: seq<seq<Byte>>, k: nat, off: nat, need: nat) {
    && k < |c| && Full(c, k, need) && Reaches(c[k], 0, off) && RecordAt(c[k], off)
    && HasRoom(c[k], off, need) && NoRoom(c[k], off, need)
  }

  /** The first record, in block order, with room for a new one. */
  method FindPlace(vol: Volume, inode: Inode, need: nat, ghost ino: nat, ghost files: map<nat, File>)
    returns (found: bool, k: nat, off: nat)
    requires vol.p > 0 && inode.size < TWO32 && Holds(vol, inode, ino, files, BlockCount(vol.p, inode.size))
    requires IsDirectory(vol.p, vol.disk, inode.block, inode.size)
    ensures var c := Content(vol.p, vol.disk, inode.block, BlockCount(vol.p, inode.size));
            && (found ==> FirstFit(c, k, off, need))
            && (!found ==> Full(c, |c|, need))
  {
    hide Holds, LiveSlots, MaxBlocks, BlockCount, Content, Tiled, BlockNumber, NoRoom, RecordAt, HasRoom, Reaches;
    ghost var p, n := vol.p, BlockCount(vol.p, inode.size);
    ghost var c := Content(p, vol.disk, inode.block, n);
    HoldsFacts(vol, inode, ino, files, n);
    BlockReach(p, inode.size);
    ContentLength(p, vol.disk, inode.block, n);
    var count := BlockCount(vol.p, inode.size);
    found, k, off := false, 0, 0;
    var i := 0;
    while i < count && !found
      invariant 0 <= i <= count
      invariant found ==> i > 0 && k == i - 1 && Reaches(c[k], 0, off) && RecordAt(c[k], off)
      invariant found ==> HasRoom(c[k], off, need) && NoRoom(c[k], off, need)
      invariant Full(c, if found then k else i, need)
    {
      var b := Locate(vol, inode, i, ino, files, n);
      found, off := FindRoom(vol.disk[b], need);
      k := i;
      i := i + 1;
    }
  }

  /** What an operation on directory `ino` promises: a directory again, other files untouched. */
  twostate predicate Updated(vol: Volume, inode: Inode, ino: nat, files: map<nat, File>)
    requires vol.p > 0
    reads vol, vol.blocks, inode
  {
    && Holds(vol, inode, ino, files[ino := File(inode.block, LiveSlots(vol.p, BlockCount(vol.p, inode.size)))],
             BlockCount(vol.p, inode.size))
    && IsDirectory(vol.p, vol.disk, inode.block, inode.size)
    && OthersSame(vol.p, files, ino, old(vol.disk), vol.disk)
  }

  /** Splits a new record off the one at `off` in block `k`. */
  method SplitRecord(vol: Volume, inode: Inode, k: nat, off: nat, name: seq<Byte>, target: nat,
                     ghost ino: nat, ghost files: map<nat, File>, ghost n: nat)
    requires vol.p > 0 && Holds(vol, inode, ino, files, n) && n <= MaxBlocks(vol.p) && k < n
    requires |name| < 256 && 0 < target < TWO32
    requires var blk := Content(vol.p, vol.disk, inode.block, n)[k];
             |blk| < TWO16 && RecordAt(blk, off) && HasRoom(blk, off, Round4(HEADER + |name|))
    modifies vol`disk
    ensures Holds(vol, inode, ino, files, n)
    ensures var c := Content(vol.p, old(vol.disk), inode.block, n);
            Content(vol.p, vol.disk, inode.block, n) == c[k := Split(c[k], off, target, name)]
    ensures OthersSame(vol.p, files, ino, old(vol.disk), vol.disk)
    ensures DataKept(vol.owner, old(vol.disk), vol.owner, vol.disk, {ino})
    ensures |vol.disk| == |old(vol.disk)| > 0 && vol.disk[0] == old(vol.disk)[0]
  {
    hide Holds, OthersSame, MaxBlocks, Word16, Word32, Round4, Content, DataKept;
    ghost var p, disk, c := vol.p, vol.disk, Content(vol.p, vol.disk, inode.block, n);
    ContentLength(p, disk, inode.block, n);
    var b := Locate(vol, inode, k, ino, files, n);
    var blk := vol.disk[b];
    var rest := LengthAt(blk, off) - NeedAt(blk, off);
    var next := off + NeedAt(blk, off);
    var header := Header(InodeAt(blk, off), NeedAt(blk, off), blk[off + 6], blk[off + 7]);
    var entry := Header(target, rest, |name|, 0) + name;
    Store(vol, inode, k, off, header, ino, files, n);
    ghost var disk1 := vol.disk;
    Store(vol, inode, k, next, entry, ino, files, n);
    OthersSameTrans(p, files, ino, disk, disk1, vol.disk);
    DataKeptAgain(vol.owner, disk, vol.owner, disk1, vol.owner, vol.disk, ino);
    SplitTwice(c, k, off, target, name);
  }

  lemma DataKeptAgain(owner0: map<nat, Owner>, disk0: Disk, owner1: map<nat, Owner>, disk1: Disk,
                      owner2: map<nat, Owner>, disk2: Disk, ino: nat)
    requires DataKept(owner0, disk0, owner1, disk1, {ino}) && DataKept(owner1, disk1, owner2, disk2, {ino})
    ensures DataKept(owner0, disk0, owner2, disk2, {ino})
  {
    DataKeptTrans(owner0, disk0, owner1, disk1, {ino}, owner2, disk2, {ino});
    assert {ino} + {ino} == {ino};
  }

  /** A split is the two writes that shorten the old record and add the new one. */
  lemma SplitTwice(c: seq<seq<Byte>>, k: nat, off: nat, target: nat, name: seq<Byte>)
    requires k < |c| && |c[k]| < TWO16 && RecordAt(c[k], off) && HasRoom(c[k], off, Round4(HEADER + |name|))
    requires |name| < 256 && target < TWO32
    ensures var blk := c[k]; var need: nat := NeedAt(blk, off); var rest: nat := LengthAt(blk, off) - need;
            var shorter := Patch(blk, off, Header(InodeAt(blk, off), need, blk[off + 6], blk[off + 7]));
            c[k := shorter][k := Patch(shorter, off + need, Header(target, rest, |name|, 0) + name)]
            == c[k := Split(blk, off, target, name)]
  {
    hide Word16, Word32, Round4;
  }

  /** Adds a block to the directory that holds one record. */
  method AppendBlock(vol: Volume, inode: Inode, name: seq<Byte>, target: nat, ghost ino: nat,
                     ghost files: map<nat, File>)
    requires vol.p > 0 && inode.size + 4 * vol.p < TWO32 && Rem(inode.size, 4 * vol.p) == 0
    requires Holds(vol, inode, ino, files, BlockCount(vol.p, inode.size))
    requires |name| < 256 && 0 < target < TWO32
    requires vol.blocks.totalFree >= |NewSlots(vol.p, BlockCount(vol.p, inode.size))|
    modifies vol`disk, vol`owner, vol.blocks, inode`block, inode`size
    ensures inode.size == old(inode.size) + 4 * vol.p && Rem(inode.size, 4 * vol.p) == 0
    ensures Holds(vol, inode, ino, files[ino := File(inode.block, LiveSlots(vol.p, BlockCount(vol.p, inode.size)))],
                  BlockCount(vol.p, inode.size))
    ensures OthersSame(vol.p, files, ino, old(vol.disk), vol.disk) && SameMeta(old(vol.owner), vol.owner)
    ensures DataKept(old(vol.owner), old(vol.disk), vol.owner, vol.disk, {ino})
    ensures var c, c' := Content(vol.p, old(vol.disk), old(inode.block), BlockCount(vol.p, old(inode.size))),
                         Content(vol.p, vol.disk, inode.block, BlockCount(vol.p, inode.size));
            && |c'| == |c| + 1 && c'[..|c|] == c
            && Tiled(c'[|c|], 0) && Entries(c'[|c|], 0) == [Entry(name, target)] && Sole(c'[|c|], Entry(name, target))
            && OneLong(c'[|c|], name, target)
    ensures vol.blocks.totalFree == old(vol.blocks.totalFree) - |NewSlots(vol.p, BlockCount(vol.p, old(inode.size)))|
    ensures Widths(vol.blocks.bitmap) == old(Widths(vol.blocks.bitmap))
    ensures |vol.disk| == |old(vol.disk)| > 0 && vol.disk[0] == old(vol.disk)[0]
  {
    hide Holds, Tally, Good, Grown, WordsOf, Content, OthersSame, LiveSlots, MaxBlocks, NewSlots, RawWord, BlockCount,
         Quot, Rem, SamePointers, Settled, Header, Tiled, Entries, Sole, CacheClean, Widths, SameMeta, DataKept,
         HeldAt, Patch, SlotsKept, Within;
    ghost var p, disk0, owner0, size0, ip0 := vol.p, vol.disk, vol.owner, inode.size, inode.block;
    ghost var n := BlockCount(p, size0);
    HoldsFacts(vol, inode, ino, files, n);
    vol.Shape();
    BlockReach(p, size0 + 4 * p);
    OneMore(p, size0);
    var r := TruncateUp(vol, inode, inode.size + 4 * vol.p, ino, files);
    ghost var disk1, now := vol.disk, files[ino := File(inode.block, LiveSlots(p, n + 1))];
    GrowthKeeps(vol, inode, ino, files, now, disk0, owner0, size0);
    ContentLength(p, disk0, ip0, n);
    ContentLength(p, disk1, inode.block, n + 1);
    ContentPrefix(p, disk1, inode.block, n, n + 1);
    ghost var c, c1 := Content(p, disk0, ip0, n), Content(p, disk1, inode.block, n + 1);
    var record := Header(target, 4 * vol.p, |name|, 0) + name;
    Store(vol, inode, BlockCount(vol.p, inode.size) - 1, 0, record, ino, now, n + 1);
    SoleRecord(c1[n], target, name);
    LongRecord(c1[n], target, name);
    DataKeptAgain(owner0, disk0, vol.owner, disk1, vol.owner, vol.disk, ino);
    OthersSameFile(p, files, ino, now[ino], disk1, vol.disk);
    OthersSameTrans(p, files, ino, disk0, disk1, vol.disk);
  }

  lemma LongRecord(blk: seq<Byte>, target: nat, name: seq<Byte>)
    requires |name| < 256 && target < TWO32 && 8 + |name| <= |blk| < TWO16
    ensures OneLong(Patch(blk, 0, Header(target, |blk|, |name|, 0) + name), name, target)
  {
    hide Header;
    HeaderBytes(target, |blk|, |name|, 0);
    var blk', r := Patch(blk, 0, Header(target, |blk|, |name|, 0) + name), Header(target, |blk|, |name|, 0) + name;
    assert blk'[..8 + |name|] == r;
  }

  /** One more block, in a file of whole blocks. */
  lemma OneMore(p: nat, size: nat)
    requires p > 0 && Rem(size, 4 * p) == 0
    ensures BlockCount(p, size + 4 * p) == BlockCount(p, size) + 1 && Rem(size + 4 * p, 4 * p) == 0
    ensures BlocksTaken(p, BlockCount(p, size), BlockCount(p, size) + 1) == |NewSlots(p, BlockCount(p, size))|
  {
    hide NewSlots, Quot, Rem, MaxBlocks;
    NextMultiple(size, 4 * p);
  }

  /** The bytes that a new record needs. */
  function Need(name: seq<Byte>): nat {
    Round4(HEADER + |ShortName(name)|)
  }

  predicate MustGrow(p: nat, disk: Disk, ip: seq<nat>, size: nat, name: seq<Byte>)
    requires p > 0
  {
    Full(Content(p, disk, ip, BlockCount(p, size)), BlockCount(p, size), Need(name))
  }

  /** The new record is split off the first one with room for it. */
  ghost predicate SplitOff(c: seq<seq<Byte>>, c': seq<seq<Byte>>, name: seq<Byte>, target: nat) {
    exists k: nat, off: nat :: FirstFit(c, k, off, Need(name)) && SplitAt(c, c', k, off, name, target)
  }

  ghost predicate SplitAt(c: seq<seq<Byte>>, c': seq<seq<Byte>>, k: nat, off: nat, name: seq<Byte>, target: nat) {
    && k < |c| && RecordAt(c[k], off) && |c[k]| < TWO16 && target < TWO32 && HasRoom(c[k], off, Need(name))
    && c' == c[k := Split(c[k], off, target, ShortName(name))]
  }

  /** The new record has a new block to itself. */
  ghost predicate Appended(c: seq<seq<Byte>>, c': seq<seq<Byte>>, name: seq<Byte>, target: nat) {
    |c'| == |c| + 1 && c'[..|c|] == c && Sole(c'[|c|], Entry(ShortName(name), target))
  }

  /** A record of block `k` has room for a name of `length` bytes behind its own. */
  predicate Fits(c: seq<seq<Byte>>, k: nat, off: nat, length: nat) {
    k < |c| && FitsAt(c[k], off, length)
  }

  /** The record at `off` of block `k` is the first one, of all blocks, that has that room. */
  ghost predicate FitsFirst(c: seq<seq<Byte>>, k: nat, off: nat, length: nat) {
    && Fits(c, k, off, length) && (forall x: nat :: x < off ==> !Fits(c, k, x, length))
    && (forall j: nat, x: nat :: j < k ==> !Fits(c, j, x, length))
  }

  lemma FirstFitFits(c: seq<seq<Byte>>, k: nat, off: nat, length: nat)
    requires AllTiled(c) && FirstFit(c, k, off, Round4(HEADER + length))
    ensures FitsFirst(c, k, off, length)
  {
    hide Reaches, RecordAt, HasRoom, Tiled, Round4, FitsAt;
    FitsIs(c[k], off, length);
    forall x: nat | x < off ensures !Fits(c, k, x, length) {
      FitsIs(c[k], x, length);
    }
    forall j: nat, x: nat | j < k ensures !Fits(c, j, x, length) {
      FullFitsNot(c, k, j, x, length);
    }
  }

  lemma FullFitsNot(c: seq<seq<Byte>>, upto: nat, j: nat, x: nat, length: nat)
    requires AllTiled(c) && Full(c, upto, Round4(HEADER + length)) && j < upto
    ensures !Fits(c, j, x, length)
  {
    hide Reaches, RecordAt, HasRoom, Tiled, Round4;
    if Fits(c, j, x, length) {
      FitsIs(c[j], x, length);
    }
  }

  /** A directory must grow for a name if and only if no record has room for it. */
  lemma GrowsWhenFull(p: nat, disk: Disk, ip: seq<nat>, size: nat, name: seq<Byte>)
    requires IsDirectory(p, disk, ip, size)
    ensures var c := Content(p, disk, ip, BlockCount(p, size));
            MustGrow(p, disk, ip, size, name) <==> forall k: nat, off: nat :: !Fits(c, k, off, |name| % 256)
  {
    hide Reaches, RecordAt, HasRoom, Tiled, Round4, FitsAt, Content, BlockCount, Rem;
    var c, length := Content(p, disk, ip, BlockCount(p, size)), |name| % 256;
    ContentLength(p, disk, ip, BlockCount(p, size));
    if MustGrow(p, disk, ip, size, name) {
      forall k: nat, off: nat ensures !Fits(c, k, off, length) {
        if k < |c| {
          FullFitsNot(c, |c|, k, off, length);
        }
      }
    } else {
      var j :| 0 <= j < |c| && !NoRoom(c[j], |c[j]|, Need(name));
      var x: nat :| x < |c[j]| && Reaches(c[j], 0, x) && RecordAt(c[j], x) && HasRoom(c[j], x, Need(name));
      FitsIs(c[j], x, length);
      assert Fits(c, j, x, length);
    }
  }

  /** Some record has room for a name of `length` bytes behind its own. */
  ghost predicate HasPlace(c: seq<seq<Byte>>, length: nat) {
    exists k: nat, off: nat :: Fits(c, k, off, length)
  }

  /** The record at `off` has been cut to what its name needs, in bytes 4 and 5, and the rest is a new record. */
  ghost predicate CutInTwo(blk: seq<Byte>, blk': seq<Byte>, off: nat, name: seq<Byte>, target: nat) {
    && off + 8 <= |blk| && |name| < 256
    && var lo: int, hi: int, own: int := blk[off + 4], blk[off + 5], blk[off + 6];
       var need: nat := (8 + own + 3) / 4 * 4;
       && need + 8 + |name| <= lo + 256 * hi && off + lo + 256 * hi <= |blk|
       && blk' == Patch(Patch(blk, off + 4, Little(need, 2)), off + need,
                        Little(target, 4) + Little(lo + 256 * hi - need, 2) + [|name|, 0] + name)
  }

  /** The block begins with a record as long as the block. */
  ghost predicate OneLong(blk: seq<Byte>, name: seq<Byte>, target: nat) {
    && |name| < 256 && 8 + |name| <= |blk|
    && blk[..8 + |name|] == Little(target, 4) + Little(|blk|, 2) + [|name|, 0] + name
  }

  /** An entry has been added: behind the first record with room for it, or, only if there is none, in one block
      more. */
  ghost predicate EntryPut(c: seq<seq<Byte>>, c': seq<seq<Byte>>, name: seq<Byte>, target: nat) {
    var short := name[..|name| % 256];
    if HasPlace(c, |short|)
    then exists k: nat, off: nat :: FitsFirst(c, k, off, |short|) && Changed(c, c', k, off, short, target)
    else |c'| == |c| + 1 && c'[..|c|] == c && OneLong(c'[|c|], short, target)
  }

  ghost predicate Changed(c: seq<seq<Byte>>, c': seq<seq<Byte>>, k: nat, off: nat, name: seq<Byte>, target: nat) {
    k < |c| == |c'| && CutInTwo(c[k], c'[k], off, name, target) && c' == c[k := c'[k]]
  }

  lemma PutSplit(c: seq<seq<Byte>>, c': seq<seq<Byte>>, k: nat, off: nat, name: seq<Byte>, target: nat)
    requires AllTiled(c) && FirstFit(c, k, off, Need(name)) && SplitAt(c, c', k, off, name, target)
    ensures HasPlace(c, |name| % 256) && EntryPut(c, c', name, target)
  {
    hide Reaches, RecordAt, HasRoom, Tiled, Round4, FitsAt, NoRoom, Split, CutInTwo, FitsFirst, Full;
    var short := ShortName(name);
    FirstFitFits(c, k, off, |short|);
    FirstIsPlace(c, k, off, |short|);
    SplitCuts(c[k], off, short, target);
    assert Changed(c, c', k, off, short, target);
  }

  lemma FirstIsPlace(c: seq<seq<Byte>>, k: nat, off: nat, length: nat)
    requires FitsFirst(c, k, off, length)
    ensures HasPlace(c, length)
  {
  }

  lemma SplitCuts(blk: seq<Byte>, off: nat, name: seq<Byte>, target: nat)
    requires RecordAt(blk, off) && |name| < 256 && target < TWO32 && |blk| < TWO16
    requires HasRoom(blk, off, Round4(HEADER + |name|))
    ensures CutInTwo(blk, Split(blk, off, target, name), off, name, target)
  {
    hide RecordAt, Round4, Split, NeedAt, LengthAt;
    RecordEnds(blk, off);
    SplitBytes(blk, off, target, name);
  }

  lemma PutAppended(c: seq<seq<Byte>>, c': seq<seq<Byte>>, name: seq<Byte>, target: nat)
    requires AllTiled(c) && Full(c, |c|, Need(name))
    requires |c'| == |c| + 1 && c'[..|c|] == c && OneLong(c'[|c|], ShortName(name), target)
    ensures !HasPlace(c, |name| % 256) && EntryPut(c, c', name, target)
  {
    hide Tiled, Round4, FitsAt, OneLong, Full;
    forall k: nat, off: nat ensures !Fits(c, k, off, |ShortName(name)|) {
      if k < |c| {
        FullFitsNot(c, |c|, k, off, |ShortName(name)|);
      }
    }
  }

  /** A directory that had no blocks, after adding two entries. */
  lemma FreshDirectory(p: nat, c: seq<seq<Byte>>, c': seq<seq<Byte>>, name: seq<Byte>,
                       target: nat, name': seq<Byte>, target': nat)
    requires Appended([], c, name, target) && 1024 <= |c[0]| < TWO16
    ensures !Full(c, 1, Need(name'))
    ensures 0 < target' < TWO32 && SplitOff(c, c', name', target') ==>
              Listing(c') == [Entry(ShortName(name), target), Entry(ShortName(name'), target')]
  {
    hide RecordAt, Split, Round4, Entries, Listing, Sole, Reaches, NoRoom, HasRoom;
    var e, blk := Entry(ShortName(name), target), c[0];
    SoleRoom(blk, e, Need(name'));
    RecordEnds(blk, 0);
    assert Reaches(blk, 0, 0) by { ReachesSelf(blk); }
    assert c == [blk];
    NotFull(c, 0, 0, Need(name'));
    if 0 < target' < TWO32 && SplitOff(c, c', name', target') {
      var k: nat, off: nat :| FirstFit(c, k, off, Need(name')) && SplitAt(c, c', k, off, name', target');
      SoleSplit(blk, off, e, target', ShortName(name'));
      assert c' == [Split(blk, 0, target', ShortName(name'))];
      ListingOne(c'[0]);
    }
  }

  lemma ReachesSelf(blk: seq<Byte>)
    ensures Reaches(blk, 0, 0)
  {
  }

  /** `Dir_crearNuevaEntrada`: adds an entry, in the first record with room to spare or else in a new
      block.  The program does not look at the result of growing, so there must be space for it. */
  method AddEntry(vol: Volume, inode: Inode, name: seq<Byte>, target: nat, ghost ino: nat, ghost files: map<nat, File>)
    returns (r: int)
    requires vol.p > 0 && inode.size + 4 * vol.p < TWO32 && 0 < target < TWO32
    requires Holds(vol, inode, ino, files, BlockCount(vol.p, inode.size))
    requires IsDirectory(vol.p, vol.disk, inode.block, inode.size)
    requires MustGrow(vol.p, vol.disk, inode.block, inode.size, name) ==>
               vol.blocks.totalFree >= |NewSlots(vol.p, BlockCount(vol.p, inode.size))|
    modifies vol`disk, vol`owner, vol.blocks, inode`block, inode`size
    ensures r == if inode.mode == 0 then -1 else 0
    ensures r == -1 ==> vol.disk == old(vol.disk) && vol.owner == old(vol.owner)
    ensures r == -1 ==> inode.block == old(inode.block) && inode.size == old(inode.size)
    ensures r == -1 ==> vol.blocks.bitmap == old(vol.blocks.bitmap) && vol.blocks.groupFree == old(vol.blocks.groupFree)
    ensures r == -1 ==> vol.blocks.totalFree == old(vol.blocks.totalFree)
    ensures r == 0 ==> Updated(vol, inode, ino, files) && SameMeta(old(vol.owner), vol.owner)
    ensures r == 0 ==> DataKept(old(vol.owner), old(vol.disk), vol.owner, vol.disk, {ino})
    ensures r == 0 ==> Inserted(ListingOf(vol.p, old(vol.disk), old(inode.block), old(inode.size)),
                                ListingOf(vol.p, vol.disk, inode.block, inode.size), Entry(ShortName(name), target))
    ensures r == 0 ==> var c, c' := Content(vol.p, old(vol.disk), old(inode.block), BlockCount(vol.p, old(inode.size))),
                                    Content(vol.p, vol.disk, inode.block, BlockCount(vol.p, inode.size));
                       if MustGrow(vol.p, old(vol.disk), old(inode.block), old(inode.size), name) then
                         Appended(c, c', name, target)
                       else SplitOff(c, c', name, target)
    ensures r == 0 ==> var grow := MustGrow(vol.p, old(vol.disk), old(inode.block), old(inode.size), name);
                       && inode.size == old(inode.size) + (if grow then 4 * vol.p else 0)
                       && vol.blocks.totalFree == old(vol.blocks.totalFree) -
                          (if grow then |NewSlots(vol.p, BlockCount(vol.p, old(inode.size)))| else 0)
    ensures r == 0 ==> var c, c' := Content(vol.p, old(vol.disk), old(inode.block), BlockCount(vol.p, old(inode.size))),
                                    Content(vol.p, vol.disk, inode.block, BlockCount(vol.p, inode.size));
                       && EntryPut(c, c', name, target)
                       && inode.size == old(inode.size) + (if HasPlace(c, |name| % 256) then 0 else 4 * vol.p)
    ensures Widths(vol.blocks.bitmap) == old(Widths(vol.blocks.bitmap))
    ensures |vol.disk| == |old(vol.disk)| && (|vol.disk| > 0 ==> vol.disk[0] == old(vol.disk)[0])
  {
    hide Holds, Content, OthersSame, LiveSlots, MaxBlocks, NewSlots, BlockCount, Quot, Rem, Tiled, Entries, Listing,
         Full, Inserted, NoRoom, Widths, Round4, Split, Reaches, RecordAt, HasRoom, Sole, SameMeta, DataKept,
         EntryPut, HasPlace, OneLong;
    SameMetaRefl(vol.owner);
    ghost var p, disk, size, ip, n := vol.p, vol.disk, inode.size, inode.block, BlockCount(vol.p, inode.size);
    var short := ShortName(name);
    if inode.mode == 0 {
      return -1;
    }
    HoldsFacts(vol, inode, ino, files, n);
    BlockReach(p, size);
    DirectoryBlocks(vol, inode, ino, files);
    ghost var c := Content(p, disk, ip, n);
    var found, k, off := FindPlace(vol, inode, Need(name), ino, files);
    if found {
      NotFull(c, k, off, Need(name));
      SplitRecord(vol, inode, k, off, short, target, ino, files, n);
      SplitListing(c, k, off, target, short);
      assert SplitAt(c, c[k := Split(c[k], off, target, short)], k, off, name, target);
      PutSplit(c, c[k := Split(c[k], off, target, short)], k, off, name, target);
      FilesSame(vol, inode, ino, files, n);
    } else {
      AppendBlock(vol, inode, short, target, ino, files);
      AppendListing(c, Content(p, vol.disk, inode.block, BlockCount(p, inode.size)), Entry(short, target));
      PutAppended(c, Content(p, vol.disk, inode.block, BlockCount(p, inode.size)), name, target);
    }
    return 0;
  }

  lemma FilesSame(vol: Volume, inode: Inode, ino: nat, files: map<nat, File>, n: nat)
    requires Holds(vol, inode, ino, files, n)
    ensures files[ino := File(inode.block, LiveSlots(vol.p, n))] == files
  {
  }

  lemma DirectoryBlocks(vol: Volume, inode: Inode, ino: nat, files: map<nat, File>)
    requires vol.p > 0 && inode.size < TWO32 && Holds(vol, inode, ino, files, BlockCount(vol.p, inode.size))
    ensures var c := Content(vol.p, vol.disk, inode.block, BlockCount(vol.p, inode.size));
            |c| == BlockCount(vol.p, inode.size) && forall k :: 0 <= k < |c| ==> |c[k]| == 4 * vol.p < TWO16
  {
    hide BlockCount, Content, Good, Tally, LiveSlots, MaxBlocks;
    var n := BlockCount(vol.p, inode.size);
    HoldsFacts(vol, inode, ino, files, n);
    BlockReach(vol.p, inode.size);
    vol.Shape();
    ContentLength(vol.p, vol.disk, inode.block, n);
    ContentBlocked(vol.p, vol.disk, vol.owner, files, ino, n);
  }

  lemma NotFull(c: seq<seq<Byte>>, k: nat, off: nat, need: nat)
    requires k < |c| && Reaches(c[k], 0, off) && RecordAt(c[k], off) && HasRoom(c[k], off, need)
    ensures !Full(c, |c|, need)
  {
    hide RecordAt, Reaches, HasRoom;
    RecordEnds(c[k], off);
    assert !NoRoom(c[k], |c[k]|, need);
  }

  lemma SplitListing(c: seq<seq<Byte>>, k: nat, off: nat, target: nat, name: seq<Byte>)
    requires k < |c| && |c[k]| < TWO16 && AllTiled(c) && Reaches(c[k], 0, off) && RecordAt(c[k], off)
    requires |name| < 256 && 0 < target < TWO32 && HasRoom(c[k], off, Round4(HEADER + |name|))
    ensures var c' := c[k := Split(c[k], off, target, name)];
            AllTiled(c') && Inserted(Listing(c), Listing(c'), Entry(name, target))
  {
    hide RecordAt, Reaches, Split, Tiled, Entries, Listing, Inserted, Round4;
    SplitAdds(c[k], off, target, name);
    ListingInserted(c, k, Split(c[k], off, target, name), Entry(name, target));
  }

  lemma AppendListing(c: seq<seq<Byte>>, c': seq<seq<Byte>>, e: Entry)
    requires AllTiled(c) && |c'| == |c| + 1 && c'[..|c|] == c && Tiled(c'[|c|], 0) && Entries(c'[|c|], 0) == [e]
    ensures AllTiled(c') && Inserted(Listing(c), Listing(c'), e)
  {
    hide Tiled, Entries, Listing, Inserted;
    assert c' == c + [c'[|c|]];
    assert forall k :: 0 <= k < |c| ==> c'[k] == c'[..|c|][k];
    ListingExtended(c, c'[|c|], e);
  }

  /** No entry of the first `upto` blocks has this inode. */
  ghost predicate NotListed(c: seq<seq<Byte>>, upto: nat, inode: nat) {
    upto <= |c| && NoInode(Listing(c[..upto]), inode)
  }

  lemma NotListedStep(c: seq<seq<Byte>>, upto: nat, inode: nat)
    requires NotListed(c, upto, inode) && upto < |c| && NoInode(Entries(c[upto], 0), inode)
    ensures NotListed(c, upto + 1, inode)
  {
    hide Listing, Entries;
    ListingStep(c, upto);
  }

  lemma NotListedStart(c: seq<seq<Byte>>, inode: nat)
    ensures NotListed(c, 0, inode)
  {
    ListingNone(c);
  }

  lemma NotListedEnd(c: seq<seq<Byte>>, inode: nat)
    requires NotListed(c, |c|, inode)
    ensures NoInode(Listing(c), inode)
  {
    assert c[..|c|] == c;
  }

  /** A record with the inode found, and the record before it in its block. */
  ghost predicate FoundAt(blk: seq<Byte>, inode: nat, off: nat, prev: nat) {
    && Reaches(blk, 0, off) && RecordAt(blk, off)
    && InodeAt(blk, off) == inode && NoInode(EntriesTo(blk, 0, off), inode)
    && if off == 0 then prev == 0
       else Reaches(blk, 0, prev) && RecordAt(blk, prev) && prev + LengthAt(blk, prev) == off
  }

  /** Finds the first record of the directory with this inode (the loops of `Dir_borrarEntrada`). */
  method FindRecord(vol: Volume, inode: Inode, target: nat, ghost ino: nat, ghost files: map<nat, File>)
    returns (found: bool, k: nat, off: nat, prev: nat)
    requires vol.p > 0 && inode.size < TWO32 && Holds(vol, inode, ino, files, BlockCount(vol.p, inode.size))
    requires IsDirectory(vol.p, vol.disk, inode.block, inode.size) && target != 0
    ensures var c := Content(vol.p, vol.disk, inode.block, BlockCount(vol.p, inode.size));
            && (found ==> k < |c| && NotListed(c, k, target) && FoundAt(c[k], target, off, prev))
            && (!found ==> NoInode(Listing(c), target))
  {
    hide Holds, LiveSlots, MaxBlocks, BlockCount, Content, Tiled, BlockNumber, NotListed, NoInode;
    ghost var p, n := vol.p, BlockCount(vol.p, inode.size);
    ghost var c := Content(p, vol.disk, inode.block, n);
    HoldsFacts(vol, inode, ino, files, n);
    BlockReach(p, inode.size);
    ContentLength(p, vol.disk, inode.block, n);
    NotListedStart(c, target);
    var count := BlockCount(vol.p, inode.size);
    found, k, off, prev := false, 0, 0, 0;
    var i := 0;
    while i < count && !found
      invariant 0 <= i <= count
      invariant found ==> i > 0 && k == i - 1 && FoundAt(c[k], target, off, prev)
      invariant NotListed(c, if found then k else i, target)
    {
      var b := Locate(vol, inode, i, ino, files, n);
      k := i;
      found, off, prev := FindInode(vol.disk[b], target);
      if !found {
        NotListedStep(c, i, target);
      }
      i := i + 1;
    }
    if !found {
      NotListedEnd(c, target);
    }
  }

  /** The block after the record found in it is deleted: the first record of a block is marked, any
      other is merged into the one before it. */
  function Deleted(blk: seq<Byte>, off: nat, prev: nat): (blk': seq<Byte>)
    requires RecordAt(blk, off) && |blk| < TWO16
    requires off != 0 ==> RecordAt(blk, prev) && prev + LengthAt(blk, prev) == off
    ensures |blk'| == |blk|
  {
    if off == 0 then Kill(blk, 0) else Merge(blk, prev)
  }

  lemma DeletedRemoves(blk: seq<Byte>, inode: nat, off: nat, prev: nat)
    requires Tiled(blk, 0) && |blk| < TWO16 && FoundAt(blk, inode, off, prev) && inode != 0
    ensures Tiled(Deleted(blk, off, prev), 0)
    ensures Entries(Deleted(blk, off, prev), 0) == WithoutFirst(Entries(blk, 0), inode)
  {
    hide Tiled, RecordAt, LengthAt, Entries, WithoutFirst, Merge, Kill, Reaches, InodeAt, EntriesTo, NoInode;
    if off == 0 {
      KillRemoves(blk);
    } else {
      MergeRemoves(blk, prev, inode);
    }
  }

  lemma FoundListed(blk: seq<Byte>, inode: nat, off: nat, prev: nat)
    requires Tiled(blk, 0) && FoundAt(blk, inode, off, prev) && inode != 0
    ensures !NoInode(Entries(blk, 0), inode)
  {
    var e := Entry(NameAt(blk, off), inode);
    assert EntryAt(blk, off) == [e];
    hide Tiled, RecordAt, LengthAt, Entries, Reaches, EntryAt, EntriesTo, InodeAt;
    TiledAt(blk, off);
    assert Entries(blk, 0)[|EntriesTo(blk, 0, off)|] == e;
  }

  lemma FoundInListing(c: seq<seq<Byte>>, k: nat, inode: nat, off: nat, prev: nat)
    requires k < |c| && AllTiled(c) && FoundAt(c[k], inode, off, prev) && inode != 0
    ensures !NoInode(Listing(c), inode)
  {
    hide Tiled, Entries, FoundAt, Listing;
    FoundListed(c[k], inode, off, prev);
    assert c[k := c[k]] == c;
    ListingAround(c, k, c[k]);
    var e :| 0 <= e < |Entries(c[k], 0)| && Entries(c[k], 0)[e].inode == inode;
    assert Listing(c)[|Listing(c[..k])| + e] == Entries(c[k], 0)[e];
  }

  lemma DeletedListing(c: seq<seq<Byte>>, k: nat, inode: nat, off: nat, prev: nat)
    requires k < |c| && |c[k]| < TWO16 && AllTiled(c) && NotListed(c, k, inode) && FoundAt(c[k], inode, off, prev)
    requires inode != 0
    ensures var c' := c[k := Deleted(c[k], off, prev)];
            AllTiled(c') && Listing(c') == WithoutFirst(Listing(c), inode)
  {
    hide Tiled, RecordAt, LengthAt, Entries, WithoutFirst, Deleted, Reaches, InodeAt, EntriesTo, Listing, NoInode;
    FoundListed(c[k], inode, off, prev);
    DeletedRemoves(c[k], inode, off, prev);
    ListingRemoved(c, k, Deleted(c[k], off, prev), inode);
  }

  /** The record at `off` has been deleted: the first one of its block has inode 0, any other has its length added
      to that of the record before it, in bytes 4 and 5. */
  ghost predicate RecordGone(blk: seq<Byte>, blk': seq<Byte>, off: nat, prev: nat) {
    if off == 0 then 4 <= |blk| && blk' == Patch(blk, 0, [0, 0, 0, 0])
    else
      && prev + 6 <= off && off + 6 <= |blk|
      && var lo: int, hi: int, lo': int, hi': int := blk[prev + 4], blk[prev + 5], blk[off + 4], blk[off + 5];
         blk' == Patch(blk, prev + 4, Little(lo + 256 * hi + lo' + 256 * hi', 2))
  }

  /** The first record with the inode has been deleted. */
  ghost predicate DeletedAt(c: seq<seq<Byte>>, c': seq<seq<Byte>>, k: nat, off: nat, prev: nat, inode: nat) {
    && k < |c| == |c'| && NotListed(c, k, inode) && FoundAt(c[k], inode, off, prev)
    && RecordGone(c[k], c'[k], off, prev) && c' == c[k := c'[k]]
  }

  lemma DeletedGone(blk: seq<Byte>, inode: nat, off: nat, prev: nat)
    requires FoundAt(blk, inode, off, prev) && |blk| < TWO16
    ensures RecordGone(blk, Deleted(blk, off, prev), off, prev)
  {
    hide RecordAt, LengthAt, EntriesTo, Reaches, InodeAt, NoInode, Merge, Kill, RecordGone;
    if off == 0 {
      FirstGone(blk);
    } else {
      LaterGone(blk, off, prev);
    }
  }

  lemma FirstGone(blk: seq<Byte>)
    requires RecordAt(blk, 0)
    ensures RecordGone(blk, Kill(blk, 0), 0, 0)
  {
    hide RecordAt, Kill;
    KillBytes(blk, 0);
  }

  lemma LaterGone(blk: seq<Byte>, off: nat, prev: nat)
    requires RecordAt(blk, off) && RecordAt(blk, prev) && prev + LengthAt(blk, prev) == off && |blk| < TWO16
    ensures RecordGone(blk, Merge(blk, prev), off, prev)
  {
    hide RecordAt, LengthAt, Merge, Patch, NeedAt, NameAt, InodeAt, Little;
    RecordEnds(blk, off);
    RecordBytes(blk, off);
    RecordEnds(blk, prev);
    RecordBytes(blk, prev);
    MergeBytes(blk, prev);
  }

  /** `Dir_borrarEntrada`: deletes the first entry with this inode. */
  method RemoveEntry(vol: Volume, inode: Inode, target: nat, ghost ino: nat, ghost files: map<nat, File>)
      returns (r: int)
    requires vol.p > 0 && inode.size < TWO32 && target != 0
    requires Holds(vol, inode, ino, files, BlockCount(vol.p, inode.size))
    requires IsDirectory(vol.p, vol.disk, inode.block, inode.size)
    modifies vol`disk
    ensures r == if inode.mode == 0 then -1 else 0
    ensures r == -1 ==> vol.disk == old(vol.disk)
    ensures Holds(vol, inode, ino, files, BlockCount(vol.p, inode.size))
    ensures IsDirectory(vol.p, vol.disk, inode.block, inode.size)
    ensures OthersSame(vol.p, files, ino, old(vol.disk), vol.disk)
    ensures DataKept(vol.owner, old(vol.disk), vol.owner, vol.disk, {ino})
    ensures r == 0 ==> ListingOf(vol.p, vol.disk, inode.block, inode.size) ==
                       WithoutFirst(ListingOf(vol.p, old(vol.disk), inode.block, inode.size), target)
    ensures r == 0 ==> var c, c' := Content(vol.p, old(vol.disk), inode.block, BlockCount(vol.p, inode.size)),
                                    Content(vol.p, vol.disk, inode.block, BlockCount(vol.p, inode.size));
                       if NoInode(Listing(c), target) then vol.disk == old(vol.disk)
                       else exists k: nat, off: nat, prev: nat :: DeletedAt(c, c', k, off, prev, target)
    ensures |vol.disk| == |old(vol.disk)| && (|vol.disk| > 0 ==> vol.disk[0] == old(vol.disk)[0])
  {
    hide Holds, Content, OthersSame, LiveSlots, MaxBlocks, BlockCount, Tiled, Entries, Listing, Reaches, RecordAt,
         InodeAt, LengthAt, EntriesTo, WithoutFirst, NoInode, Header, NotListed, DataKept, RecordGone;
    DataKeptRefl(vol.owner, vol.disk, {ino});
    ghost var p, disk, n := vol.p, vol.disk, BlockCount(vol.p, inode.size);
    OthersSameRefl(p, files, ino, disk);
    if inode.mode == 0 {
      return -1;
    }
    HoldsFacts(vol, inode, ino, files, n);
    BlockReach(p, inode.size);
    DirectoryBlocks(vol, inode, ino, files);
    ghost var c := Content(p, disk, inode.block, n);
    var found, k, off, prev := FindRecord(vol, inode, target, ino, files);
    if found {
      var b := Locate(vol, inode, k, ino, files, n);
      var header := DeletingHeader(vol.disk[b], off, prev);
      DeletedListing(c, k, target, off, prev);
      DeletingHeaderIs(c[k], off, prev);
      DeletedGone(c[k], target, off, prev);
      FoundInListing(c, k, target, off, prev);
      Store(vol, inode, k, prev, header, ino, files, n);
      assert DeletedAt(c, c[k := Deleted(c[k], off, prev)], k, off, prev, target);
    } else {
      WithoutNone(Listing(c), target);
    }
    return 0;
  }

  /** The header that deletes a record: inode 0 in the first one of a block, else the sum of the lengths. */
  function DeletingHeader(blk: seq<Byte>, off: nat, prev: nat): (h: seq<Byte>)
    requires RecordAt(blk, off) && |blk| < TWO16
    requires if off == 0 then prev == 0 else RecordAt(blk, prev) && prev + LengthAt(blk, prev) == off
    ensures |h| == HEADER
  {
    if off == 0 then KillHeader(blk, 0) else MergeHeader(blk, prev)
  }

  lemma DeletingHeaderIs(blk: seq<Byte>, off: nat, prev: nat)
    requires RecordAt(blk, off) && |blk| < TWO16
    requires if off == 0 then prev == 0 else RecordAt(blk, prev) && prev + LengthAt(blk, prev) == off
    ensures prev + HEADER <= |blk|
    ensures Deleted(blk, off, prev) == Patch(blk, prev, DeletingHeader(blk, off, prev))
  {
    RecordEnds(blk, prev);
    hide RecordAt, Patch, LengthAt, KillHeader, MergeHeader;
  }

  /** Adding an entry with an inode that is not listed and deleting it again restores the listing, even
      when a block was added for it. */
  method AddThenRemove(vol: Volume, inode: Inode, name: seq<Byte>, target: nat, ghost ino: nat,
                       ghost files: map<nat, File>)
    requires vol.p > 0 && inode.mode != 0 && inode.size + 4 * vol.p < TWO32 && 0 < target < TWO32
    requires Holds(vol, inode, ino, files, BlockCount(vol.p, inode.size))
    requires IsDirectory(vol.p, vol.disk, inode.block, inode.size)
    requires MustGrow(vol.p, vol.disk, inode.block, inode.size, name) ==>
               vol.blocks.totalFree >= |NewSlots(vol.p, BlockCount(vol.p, inode.size))|
    requires NoInode(ListingOf(vol.p, vol.disk, inode.block, inode.size), target)
    modifies vol`disk, vol`owner, vol.blocks, inode`block, inode`size
    ensures ListingOf(vol.p, vol.disk, inode.block, inode.size) ==
            ListingOf(vol.p, old(vol.disk), old(inode.block), old(inode.size))
    ensures IsDirectory(vol.p, vol.disk, inode.block, inode.size)
  {
    hide Holds, IsDirectory, ListingOf, Inserted, MustGrow, Appended, SplitOff, Content, BlockCount, NewSlots,
         OthersSame, LiveSlots, Widths, ShortName, SameMeta, WithoutFirst, NoInode, DataKept;
    ghost var before := ListingOf(vol.p, vol.disk, inode.block, inode.size);
    var r := AddEntry(vol, inode, name, target, ino, files);
    ghost var between := ListingOf(vol.p, vol.disk, inode.block, inode.size);
    r := RemoveEntry(vol, inode, target, ino,
                     files[ino := File(inode.block, LiveSlots(vol.p, BlockCount(vol.p, inode.size)))]);
    InsertThenRemove(before, between, Entry(ShortName(name), target));
  }
}
