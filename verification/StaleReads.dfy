/** A read of the wrong bytes: a file is read, cut to nothing and given its blocks back, while another file
    has used one of them for pointers.  The cache still has what the block held first. */
module StaleReads {
  import opened Arithmetic
  import opened Bytes
  import opened BlockTree
  import opened Ownership
  import opened Allocation
  import opened Storage
  import opened InodeOps
  import opened Truncation
  import opened FileContents
  import opened FileIO
  import opened Paths
  import opened FileTable
  import opened States
  import opened FileSystem
  import opened Runs
  import opened CachedRuns
  import opened DirRecords
  import opened DirTree
  import opened ValidVolumes

  /** The block holds something after its first word. */
  predicate Telling(blk: seq<Byte>) {
    exists x :: 4 <= x < |blk| && blk[x] != 0
  }

  /** Two files of 2 and 12 blocks on a volume without a free block. */
  ghost predicate TwoFiles(s: State, i: nat, j: nat) {
    && Valid(s) && s.blocks.totalFree == 0 && i != j && i in s.table && j in s.table
    && s.table[i].size == 2 * (4 * s.p) && s.table[j].size == 12 * (4 * s.p)
  }

  /** Only file `i` has a new size, of whole blocks. */
  ghost predicate Cut(s: State, t: State, i: nat, blocks: nat) {
    && s.p > 0 && i in s.table && i in t.table && FileTruncated(s, t, i, blocks * (4 * s.p), 0)
    && OneFile(s, t, i) && Valid(s) && Valid(t) && t.blocks.space == s.blocks.space
  }

  lemma CutFacts(s: State, t: State, i: nat, blocks: nat)
    requires Cut(s, t, i, blocks)
    ensures s.p > 0 && t.p == s.p && i in s.table && i in t.table && t.table == s.table[i := t.table[i]]
    ensures BlockCount(t.p, t.table[i].size) == blocks && t.table[i].size == blocks * (4 * s.p)
    ensures Sized(s.p, s.table[i].size, blocks * (4 * s.p), s.owner, s.disk, s.blocks.totalFree,
                  t.owner, t.disk, t.blocks.totalFree)
    ensures |t.disk| == |s.disk| && Formatted(t.p, t.disk)
  {
    hide Mounted, Elsewhere, SameMeta, BlockCount, BlocksTaken, Resized, FileBytes, HeldBytes, WordsOf, Valid, Sized,
         Within, SlotsKept;
    OneFileUsed(s, t, i);
    DiskFormatted(t);
    BlockCountExact(s.p, blocks);
  }

  /** What a file has given back is nobody's. */
  lemma GivesBack(s: State, t: State, i: nat, blocks: nat, b: nat, slot: Slot)
    requires Cut(s, t, i, blocks) && blocks * (4 * s.p) <= s.table[i].size
    requires b in s.owner && s.owner[b] == Of(i, slot) && slot !in LiveSlots(s.p, blocks)
    ensures b !in t.owner
  {
    CutFacts(s, t, i, blocks);
    hide Valid, OneFile, FileTruncated, BlockCount, LiveSlots, BlocksTaken;
    if b in t.owner {
      OwnerInUse(t, b);
    }
  }

  /** When a file has taken the last free blocks, whatever was nobody's is its own, at new slots. */
  lemma TakesAll(s: State, t: State, i: nat, blocks: nat, b: nat)
    requires Cut(s, t, i, blocks) && s.table[i].size < blocks * (4 * s.p) && t.blocks.totalFree == 0
    requires s.blocks.space.InRange(b) && b !in s.owner
    ensures b in t.owner && t.owner[b].Of? && t.owner[b].ino == i
    ensures t.owner[b].slot in LiveSlots(s.p, blocks)
    ensures t.owner[b].slot !in LiveSlots(s.p, BlockCount(s.p, s.table[i].size))
  {
    CutFacts(s, t, i, blocks);
    AllOwned(t, b);
    hide Valid, OneFile, FileTruncated, BlockCount, LiveSlots, BlocksTaken, WordsOf, Good, FilesOf;
    Belongs(s, t);
    OwnerInUse(t, b);
    var x, slot := t.owner[b].ino, t.owner[b].slot;
    if x in s.table && slot in LiveSlots(s.p, BlockCount(s.p, s.table[x].size)) {
      FilesEntry(s.p, s.table, x);
      StillOwned(s.p, WordsOf(t.p, t.disk), FilesOf(t.p, t.table), t.owner,
                 WordsOf(s.p, s.disk), FilesOf(s.p, s.table), s.owner, b);
    }
  }

  lemma Belongs(s: State, t: State)
    requires Valid(s) && Valid(t)
    ensures Good(s.p, WordsOf(s.p, s.disk), FilesOf(s.p, s.table), s.owner)
    ensures Good(t.p, WordsOf(t.p, t.disk), FilesOf(t.p, t.table), t.owner) && Settled(t.owner)
  {
  }

  lemma AllOwned(s: State, b: nat)
    requires Valid(s) && s.blocks.totalFree == 0 && s.blocks.space.InRange(b)
    ensures b in s.owner
  {
    hide Good, Treed;
    SumZero(s.blocks.groupFree);
    if Free(s.blocks.space, s.blocks.bitmap, b) {
      CountFreeZero(s.blocks.bitmap[s.blocks.space.GroupOf(b)]);
    }
  }

  /** How many blocks the growing takes. */
  lemma TakenHere(p: nat)
    requires p > 0
    ensures BlocksTaken(p, 0, 2) == 2 && BlocksTaken(p, 12, 13) == 2
  {
    assert BlocksTaken(p, 0, 0) == 0 && BlocksTaken(p, 12, 12) == 0;
    assert NewSlots(p, 0) == [Top(0)] && NewSlots(p, 1) == [Top(1)];
    assert DataSlot(p, 12) == Sub(Top(12), 0) && NewSlots(p, 12) == [Top(12), Sub(Top(12), 0)];
    assert BlocksTaken(p, 0, 2) == BlocksTaken(p, 0, 1) + 1;
  }

  /** The slots of a file of two blocks, and those that a thirteenth block brings. */
  lemma SlotsHere(p: nat, slot: Slot)
    requires p > 0
    ensures slot in LiveSlots(p, 2) <==> slot == Top(0) || slot == Top(1)
    ensures slot in LiveSlots(p, 13) && slot !in LiveSlots(p, 12) <==> slot == Top(12) || slot == Sub(Top(12), 0)
    ensures slot !in LiveSlots(p, 0)
  {
    assert NewSlots(p, 0) == [Top(0)] && NewSlots(p, 1) == [Top(1)];
    assert DataSlot(p, 12) == Sub(Top(12), 0) && NewSlots(p, 12) == [Top(12), Sub(Top(12), 0)];
    LiveGrows(p, 0);
    LiveGrows(p, 1);
    LiveGrows(p, 12);
  }

  /** A block with nothing but zeros after its first word. */
  predicate Quiet(blk: seq<Byte>) {
    forall x :: 4 <= x < |blk| ==> blk[x] == 0
  }

  lemma QuietWords(blk: seq<Byte>, p: nat)
    requires |blk| == 4 * p && forall k :: 1 <= k < p ==> BlockWords(blk, p)[k] == 0
    ensures Quiet(blk)
  {
    forall x | 4 <= x < |blk| ensures blk[x] == 0 {
      var k := x / 4;
      assert BlockWords(blk, p)[k] == 0;
      assert x == 4 * k || x == 4 * k + 1 || x == 4 * k + 2 || x == 4 * k + 3;
    }
  }

  lemma OnePointer(p: nat, w: Words, f: File, b: nat, k: nat)
    requires p > 0 && WellShaped(p, w, f) && f.live == LiveSlots(p, 13) && 1 <= k < p
    requires PtrAt(f.ip, w, Top(12)) == b && 0 < b < |w| && |w[b]| == p
    ensures w[b][k] == 0
  {
    assert Height(Top(12)) == 1 && Height(Sub(Top(12), k)) == 0 && Span(p, 0) == 1;
    assert First(p, Sub(Top(12), k)) == 12 + k * 1;
    assert PtrAt(f.ip, w, Sub(Top(12), k)) == w[b][k];
  }

  /** The pointer block of a file of thirteen blocks holds one pointer. */
  lemma PointerBlockQuiet(s: State, j: nat, b: nat)
    requires Valid(s) && j in s.table && BlockCount(s.p, s.table[j].size) == 13
    requires b in s.owner && s.owner[b] == Of(j, Top(12)) && b < |s.disk|
    ensures Quiet(s.disk[b])
  {
    DiskFormatted(s);
    OwnerInUse(s, b);
    NotMeta(s);
    FilesEntry(s.p, s.table, j);
    FileShape(s, j);
    hide Valid, BlockCount, FilesOf, WellShaped, PtrAt, LiveSlots, Used;
    var w := WordsOf(s.p, s.disk);
    forall k | 1 <= k < s.p ensures BlockWords(s.disk[b], s.p)[k] == 0 {
      OnePointer(s.p, w, FilesOf(s.p, s.table)[j], b, k);
    }
    QuietWords(s.disk[b], s.p);
  }

  lemma FileShape(s: State, j: nat)
    requires Valid(s) && j in s.table
    ensures j in FilesOf(s.p, s.table) && WellShaped(s.p, WordsOf(s.p, s.disk), FilesOf(s.p, s.table)[j])
  {
    FilesEntry(s.p, s.table, j);
    Belongs(s, s);
    hide FilesOf, WellShaped;
    assert Placed(s.p, WordsOf(s.p, s.disk), s.owner, j, FilesOf(s.p, s.table)[j]);
  }

  /** How many blocks are free after growing, or after cutting. */
  lemma FreeAfter(s: State, t: State, i: nat, blocks: nat)
    requires Cut(s, t, i, blocks)
    ensures var n := BlockCount(s.p, s.table[i].size);
            t.blocks.totalFree == if s.table[i].size < blocks * (4 * s.p)
                                  then s.blocks.totalFree - BlocksTaken(s.p, n, blocks)
                                  else s.blocks.totalFree + BlocksTaken(s.p, blocks, n)
  {
    hide OneFile, FileTruncated, Valid, BlockCount, BlocksTaken, Sized, Formatted;
    CutFacts(s, t, i, blocks);
    BlockCountExact(s.p, blocks);
    SizedFree(s.p, s.table[i].size, blocks * (4 * s.p), s.owner, s.disk, s.blocks.totalFree,
              t.owner, t.disk, t.blocks.totalFree);
  }

  lemma SizedFree(p: nat, size: nat, newSize: nat, owner: map<nat, Owner>, disk: Disk, free: nat,
                  owner': map<nat, Owner>, disk': Disk, free': nat)
    requires p > 0 && Sized(p, size, newSize, owner, disk, free, owner', disk', free')
    ensures var n, n' := BlockCount(p, size), BlockCount(p, newSize);
            free' == if size < newSize then free - BlocksTaken(p, n, n') else free + BlocksTaken(p, n', n)
  {
  }

  /** The first two blocks of the first file. */
  lemma OwnBlock(s: State, i: nat, j: nat, k: nat) returns (b: nat)
    requires TwoFiles(s, i, j) && k < 2
    ensures |s.table[i].block| == 15 && b == s.table[i].block[k]
    ensures b in s.owner && s.owner[b] == Of(i, Top(k)) && s.blocks.space.InRange(b)
  {
    BlockCountExact(s.p, 2);
    FileBlock(s, i, k);
    b := s.table[i].block[k];
    OwnedInRange(s, b);
  }

  lemma OwnedInRange(s: State, b: nat)
    requires Valid(s) && b in s.owner
    ensures s.blocks.space.InRange(b) && b < |s.disk|
  {
    hide Good, Treed, Free, Covers, Counted;
  }

  lemma SameOwnerSameBlock(s: State, b: nat, c: nat)
    requires Valid(s) && b in s.owner && c in s.owner && s.owner[b].Of? && s.owner[c] == s.owner[b]
    ensures b == c
  {
    OwnerInUse(s, b);
    OwnerInUse(s, c);
  }

  /** Both sizes of the two files in turn: the first is cut to nothing, the second grows by one block. */
  ghost predicate Swapped(s: State, t: State, u: State, i: nat, j: nat) {
    TwoFiles(s, i, j) && Cut(s, t, i, 0) && Cut(t, u, j, 13)
  }

  lemma FreeSwapped(s: State, t: State, u: State, i: nat, j: nat)
    requires Swapped(s, t, u, i, j)
    ensures t.blocks.totalFree == 2 && u.blocks.totalFree == 0
    ensures s.p > 0 && BlockCount(s.p, t.table[j].size) == 12
  {
    hide OneFile, FileTruncated, Valid, BlockCount, BlocksTaken, Sized, Grown, Formatted;
    CutFacts(s, t, i, 0);
    CutFacts(t, u, j, 13);
    TakenHere(s.p);
    BlockCountExact(s.p, 2);
    BlockCountExact(s.p, 12);
    FreeAfter(s, t, i, 0);
    FreeAfter(t, u, j, 13);
  }

  /** A block of the first file goes to the second one, for its new block or for the pointer to it. */
  lemma OneMoved(s: State, t: State, u: State, i: nat, j: nat, k: nat, b: nat)
    requires Swapped(s, t, u, i, j) && k < 2
    requires b in s.owner && s.owner[b] == Of(i, Top(k)) && s.blocks.space.InRange(b)
    ensures b in u.owner && (u.owner[b] == Of(j, Top(12)) || u.owner[b] == Of(j, Sub(Top(12), 0)))
  {
    FreeSwapped(s, t, u, i, j);
    CutFacts(s, t, i, 0);
    SlotsHere(s.p, Top(k));
    hide BlockCount, LiveSlots;
    GivesBack(s, t, i, 0, b, Top(k));
    TakesAll(t, u, j, 13, b);
    SlotsHere(s.p, u.owner[b].slot);
  }

  /** One of the two blocks becomes a block of pointers. */
  lemma Swallowed(s: State, t: State, u: State, i: nat, j: nat) returns (b: nat, k: nat)
    requires Swapped(s, t, u, i, j)
    ensures k < 2 && b in s.owner && s.owner[b] == Of(i, Top(k))
    ensures |s.table[i].block| == 15 && b == s.table[i].block[k]
    ensures b in u.owner && u.owner[b] == Of(j, Top(12)) && b < |u.disk|
  {
    var b0 := OwnBlock(s, i, j, 0);
    var b1 := OwnBlock(s, i, j, 1);
    OneMoved(s, t, u, i, j, 0, b0);
    OneMoved(s, t, u, i, j, 1, b1);
    hide TwoFiles, Cut;
    b, k := b0, 0;
    if u.owner[b0] != Of(j, Top(12)) {
      b, k := b1, 1;
      if u.owner[b1] == u.owner[b0] {
        SameOwnerSameBlock(u, b0, b1);
      }
    }
    OwnedInRange(u, b);
  }

  /** Block `m` of file `i` is now what its block `k` was, and holds nothing after its first word. */
  ghost predicate Emptied(s: State, t: State, i: nat, k: nat, m: nat) {
    && s.p > 0 && t.p == s.p && i in s.table && i in t.table && t.table[i].size == 8 * s.p && k < 2 && m < 2
    && |s.table[i].block| == 15 && |t.table[i].block| == 15 && t.table[i].block[m] == s.table[i].block[k]
    && t.table[i].block[m] < |t.disk| && |t.disk[t.table[i].block[m]]| == 4 * s.p && Quiet(t.disk[t.table[i].block[m]])
  }

  /** The second file is cut again and the first grows back: it has the block that was one of pointers, as the
      pointers left it. */
  lemma GivenAgain(s: State, t: State, u: State, v: State, w: State, i: nat, j: nat) returns (k: nat, m: nat)
    requires Swapped(s, t, u, i, j) && Cut(u, v, j, 12) && Cut(v, w, i, 2)
    ensures Emptied(s, w, i, k, m)
  {
    hide OneFile, FileTruncated, Valid, Sized, BlockCount, Quiet;
    var b;
    b, k := Swallowed(s, t, u, i, j);
    CutFacts(s, t, i, 0);
    CutFacts(t, u, j, 13);
    CutFacts(u, v, j, 12);
    CutFacts(v, w, i, 2);
    PointerBlockQuiet(u, j, b);
    m := Regained(s, t, u, v, w, i, j, b);
  }

  lemma Regained(s: State, t: State, u: State, v: State, w: State, i: nat, j: nat, b: nat) returns (m: nat)
    requires Swapped(s, t, u, i, j) && Cut(u, v, j, 12) && Cut(v, w, i, 2)
    requires b in u.owner && u.owner[b] == Of(j, Top(12)) && b < |u.disk| && Quiet(u.disk[b])
    ensures i in w.table && |w.table[i].block| == 15 && m < 2 && w.table[i].block[m] == b
    ensures b < |w.disk| && Quiet(w.disk[b])
  {
    hide OneFile, FileTruncated, Valid, BlockCount, BlocksTaken, LiveSlots, Formatted, Quiet;
    FreeSwapped(s, t, u, i, j);
    FreeLater(s, t, u, v, w, i, j);
    CutFacts(s, t, i, 0);
    CutFacts(t, u, j, 13);
    CutFacts(u, v, j, 12);
    CutFacts(v, w, i, 2);
    SlotsHere(s.p, Top(12));
    OwnedInRange(u, b);
    GivesBack(u, v, j, 12, b, Top(12));
    TakesAll(v, w, i, 2, b);
    SlotsHere(s.p, w.owner[b].slot);
    OwnerInUse(w, b);
    m := w.owner[b].slot.index;
    StaysQuiet(u.disk[b], v.disk[b]);
  }

  lemma StaysQuiet(blk: seq<Byte>, blk': seq<Byte>)
    requires Quiet(blk) && Blanked(blk, blk')
    ensures Quiet(blk')
  {
  }

  lemma FreeLater(s: State, t: State, u: State, v: State, w: State, i: nat, j: nat)
    requires Swapped(s, t, u, i, j) && Cut(u, v, j, 12) && Cut(v, w, i, 2)
    ensures v.blocks.totalFree == 2 && w.blocks.totalFree == 0
    ensures v.table[i].size == 0 && BlockCount(s.p, 0) == 0
  {
    hide OneFile, FileTruncated, Valid, BlockCount, BlocksTaken, Sized, Grown, Formatted;
    FreeSwapped(s, t, u, i, j);
    CutFacts(s, t, i, 0);
    CutFacts(t, u, j, 13);
    CutFacts(u, v, j, 12);
    TakenHere(s.p);
    BlockCountExact(s.p, 0);
    FreeAfter(u, v, j, 12);
    FreeAfter(v, w, i, 2);
  }

  /** Something after the first word was cached, and the disk has nothing there: the read shows it. */
  lemma WrongBytes(p: nat, disk: Disk, r: Record, cache: Cache, cache': Cache, junk: seq<Byte>,
                   seen: seq<seq<Byte>>, bytes: seq<Byte>, m: nat)
    requires p > 0 && r.size == 2 * (4 * p) && |r.block| == 15 && m < 2
    requires ReadThrough(p, disk, r, cache, cache', false, 0, 8 * p, junk, seen, bytes)
    requires var b := r.block[m];
             && b in cache && |cache[b]| == 4 * p && Telling(cache[b])
             && b < |disk| && |disk[b]| == 4 * p && Quiet(disk[b])
    ensures |bytes| == 8 * p && bytes != BytesOf(p, disk, r)
  {
    hide ReadThrough, FileBytes;
    var b := r.block[m];
    var x :| 4 <= x < |cache[b]| && cache[b][x] != 0;
    ByteRead(p, disk, r, cache, cache', junk, seen, bytes, m, x);
    ByteHeld(p, disk, r, m, x);
  }

  lemma ByteHeld(p: nat, disk: Disk, r: Record, m: nat, x: nat)
    requires p > 0 && r.size == 8 * p && |r.block| == 15 && m < 2 && x < 4 * p
    requires r.block[m] < |disk| && |disk[r.block[m]]| == 4 * p
    ensures BytesOf(p, disk, r)[m * (4 * p) + x] == disk[r.block[m]][x]
  {
    hide BlockCount, Quot, Rem;
    var bs, y := 4 * p, m * (4 * p) + x;
    BlockCountExact(p, 2);
    DivMod(bs, m, x);
    assert BytesOf(p, disk, r)[y] == ByteAt(Content(p, disk, r.block, 2), bs, y) == disk[r.block[m]][x];
  }

  /** A byte of a block that is cached is read as it is cached. */
  lemma ByteRead(p: nat, disk: Disk, r: Record, cache: Cache, cache': Cache, junk: seq<Byte>,
                 seen: seq<seq<Byte>>, bytes: seq<Byte>, m: nat, x: nat)
    requires p > 0 && r.size == 8 * p && |r.block| == 15 && m < 2 && x < 4 * p
    requires ReadThrough(p, disk, r, cache, cache', false, 0, 8 * p, junk, seen, bytes)
    requires r.block[m] in cache && |cache[r.block[m]]| == 4 * p
    ensures |bytes| == 8 * p && bytes[m * (4 * p) + x] == cache[r.block[m]][x]
  {
    var bs, b := 4 * p, r.block[m];
    BlockCountExact(p, 2);
    DivMod(bs, 0, 0);
    DivMod(bs, m, x);
    hide BlockCount, Quot, Rem;
    assert BlockNumber(p, r.block, WordsOf(p, disk), m) == b && seen[m] == cache[b];
    assert bytes[m * bs + x] == BytesIn(seen, bs, 8 * p)[m * bs + x] == ByteAt(seen, bs, m * bs + x);
  }

  /** What a truncate request does, when there are enough free blocks. */
  lemma ToCut(s: State, t: State, path: seq<Byte>, blocks: nat, r: int)
    requires s.p > 0 && Target(s, path) in s.table && Truncated(s, t, path, blocks * (4 * s.p), r)
    requires s.blocks.totalFree >= BlocksTaken(s.p, BlockCount(s.p, s.table[Target(s, path)].size), blocks)
    requires t.blocks.space == s.blocks.space && Valid(s) && Valid(t)
    ensures Cut(s, t, Target(s, path), blocks) && Directories(t) == Directories(s)
  {
    hide Valid, OneFile, Directories, Tokens, Resolve, Used, BlocksTaken, BlockCount, Resized, FileBytes, HeldBytes,
         WordsOf, DataKept, SlotsKept, Within, Sized;
    BlockCountExact(s.p, blocks);
    TargetListed(s, path);
    Listed(s, t, Target(s, path));
  }

  lemma Listed(s: State, t: State, i: nat)
    requires OneFile(s, t, i)
    ensures i in t.table
  {
    hide Mounted, Elsewhere;
  }

  /** The requests between the two reads, in a volume with `p` words in a block. */
  function Requests(p: nat, file: seq<Byte>, other: seq<Byte>): seq<Request> {
    var bs := 4 * p;
    [TruncateRequest(file, 0 * bs), TruncateRequest(other, 13 * bs),
     TruncateRequest(other, 12 * bs), TruncateRequest(file, 2 * bs)]
  }

  /** The paths lead to two files of 2 and 12 blocks on a full volume, and both blocks of the first hold
      something after their first words. */
  ghost predicate StaleStart(s: State, file: seq<Byte>, other: seq<Byte>) {
    && CanTouch(s, file) && CanTouch(s, other) && TwoFiles(s, Target(s, file), Target(s, other))
    && var blocks := BlocksOf(s.p, s.disk, s.table[Target(s, file)]);
       |blocks| == 2 && Telling(blocks[0]) && Telling(blocks[1])
  }

  /** One truncate request of the run, for a file at its place in the table. */
  method CutTo(fs: FileSystem, path: seq<Byte>, blocks: nat)
    requires fs.Apart() && Valid(fs.Now()) && CanTouch(fs.Now(), path) && Target(fs.Now(), path) in fs.table
    requires fs.vol.p > 0 && blocks * (4 * fs.vol.p) < TWO32
    requires fs.vol.blocks.totalFree >=
             BlocksTaken(fs.vol.p, BlockCount(fs.vol.p, fs.table[Target(fs.Now(), path)].size), blocks)
    modifies fs`table, fs.vol`disk, fs.vol`owner, fs.vol.blocks
    ensures Valid(fs.Now()) && Cut(old(fs.Now()), fs.Now(), Target(old(fs.Now()), path), blocks)
    ensures Directories(fs.Now()) == Directories(old(fs.Now()))
    ensures StepOf(old(fs.Now()), fs.Now(), TruncateRequest(path, blocks * (4 * fs.vol.p)))
  {
    hide Valid, CanTouch, Truncated, Directories, Tokens, Resolve, Used, BlocksTaken, BlockCount, Cut;
    ghost var s := fs.Now();
    var r := fs.Truncate(path, blocks * (4 * fs.vol.p));
    ToCut(s, fs.Now(), path, blocks, r);
  }

  lemma SameTargets(s: State, t: State)
    requires s.p > 0 && t.p == s.p && Directories(t) == Directories(s)
    ensures forall path :: Target(t, path) == Target(s, path) && CanTouch(t, path) == CanTouch(s, path)
  {
    hide Directories, Tokens, Resolve, ThroughDirs;
  }

  lemma StartCache(s: State, cache: Cache)
    requires Valid(s) && CacheRight(s, cache)
    ensures CacheSized(cache, 4 * s.p) && CacheClean(cache, s.disk, s.owner)
  {
    hide Valid, Directories, CacheClean, CacheRight, CacheSized;
    DiskFormatted(s);
    RightIsClean(s, cache);
    CleanIsSized(s.p, cache, s.disk, s.owner);
  }

  lemma StartFacts(s: State, file: seq<Byte>, other: seq<Byte>)
    requires StaleStart(s, file, other)
    ensures (s.p == 256 || s.p == 512 || s.p == 1024) && Valid(s)
    ensures Target(s, file) in s.table && Target(s, other) in s.table && Target(s, file) != Target(s, other)
    ensures s.table[Target(s, file)].size == 8 * s.p
    ensures BlocksTaken(s.p, BlockCount(s.p, 8 * s.p), 0) == 0 && s.blocks.totalFree == 0
  {
    hide CanTouch, Directories, Tokens, Resolve, BlockCount, BlocksOf, Telling, Valid;
    WordSizes(s);
  }

  lemma WordSizes(s: State)
    requires Valid(s)
    ensures s.p == 256 || s.p == 512 || s.p == 1024
  {
  }

  /** After the first read both blocks are cached, as they are. */
  lemma FirstRead(s: State, i: nat, cache: Cache, cache': Cache, junk: seq<Byte>, seen: seq<seq<Byte>>,
                  bytes: seq<Byte>, k: nat)
    requires Valid(s) && i in s.table && s.table[i].size == 8 * s.p && k < 2
    requires ReadThrough(s.p, s.disk, s.table[i], cache, cache', false, 0, 8 * s.p, junk, seen, bytes)
    requires CacheClean(cache', s.disk, s.owner)
    requires var blocks := BlocksOf(s.p, s.disk, s.table[i]);
             |blocks| == 2 && Telling(blocks[0]) && Telling(blocks[1])
    ensures |s.table[i].block| == 15
    ensures var b := s.table[i].block[k]; b in cache' && |cache'[b]| == 4 * s.p && Telling(cache'[b])
  {
    hide Valid, BlockCount, Quot, SeenThrough, Telling, WordsOf, ReadResult, BytesIn;
    WordSizes(s);
    BlockCountExact(s.p, 2);
    DiskFormatted(s);
    FileBlock(s, i, k);
    NoQuotient(s.p);
    var b := s.table[i].block[k];
    assert BlockNumber(s.p, s.table[i].block, WordsOf(s.p, s.disk), k) == b;
    assert BlocksOf(s.p, s.disk, s.table[i])[k] == s.disk[b];
  }

  lemma NoQuotient(p: nat)
    requires p > 0
    ensures Quot(0, 4 * p) == 0
  {
  }

  lemma FirstCut(s: State, t: State, i: nat, j: nat)
    requires TwoFiles(s, i, j) && Cut(s, t, i, 0)
    ensures s.p > 0 && t.p == s.p && j in t.table
    ensures t.blocks.totalFree >= BlocksTaken(t.p, BlockCount(t.p, t.table[j].size), 13)
  {
    hide OneFile, FileTruncated, Valid, BlockCount, BlocksTaken, Sized, Formatted;
    CutFacts(s, t, i, 0);
    BlockCountExact(s.p, 2);
    BlockCountExact(s.p, 12);
    FreeAfter(s, t, i, 0);
    TakenHere(s.p);
  }

  lemma SecondCut(s: State, t: State, u: State, i: nat, j: nat)
    requires Swapped(s, t, u, i, j)
    ensures s.p > 0 && u.p == s.p && j in u.table
    ensures u.blocks.totalFree >= BlocksTaken(u.p, BlockCount(u.p, u.table[j].size), 12)
  {
    hide OneFile, FileTruncated, Valid, BlockCount, Sized, Formatted, TwoFiles;
    CutFacts(s, t, i, 0);
    CutFacts(t, u, j, 13);
  }

  lemma ThirdCut(s: State, t: State, u: State, v: State, i: nat, j: nat)
    requires Swapped(s, t, u, i, j) && Cut(u, v, j, 12)
    ensures s.p > 0 && v.p == s.p && i in v.table
    ensures v.blocks.totalFree >= BlocksTaken(v.p, BlockCount(v.p, v.table[i].size), 2)
  {
    hide OneFile, FileTruncated, Valid, BlockCount, BlocksTaken, Sized, Formatted;
    FreeSwapped(s, t, u, i, j);
    CutFacts(s, t, i, 0);
    CutFacts(t, u, j, 13);
    CutFacts(u, v, j, 12);
    FreeAfter(u, v, j, 12);
    TakenHere(s.p);
  }

  lemma RunOfFour(s: State, t: State, u: State, v: State, w: State, p: nat, file: seq<Byte>, other: seq<Byte>)
    requires Valid(s) && Valid(t) && Valid(u) && Valid(v) && Valid(w)
    requires var q := Requests(p, file, other);
             StepOf(s, t, q[0]) && StepOf(t, u, q[1]) && StepOf(u, v, q[2]) && StepOf(v, w, q[3])
    ensures IsRun([s, t, u, v, w], Requests(p, file, other))
  {
    hide Valid, StepOf, IsRun;
    var q := Requests(p, file, other);
    RunStart(s);
    RunLonger([s], [], t, q[0]);
    assert [s] + [t] == [s, t] && [] + [q[0]] == [q[0]];
    RunLonger([s, t], [q[0]], u, q[1]);
    assert [s, t] + [u] == [s, t, u] && [q[0]] + [q[1]] == [q[0], q[1]];
    RunLonger([s, t, u], [q[0], q[1]], v, q[2]);
    assert [s, t, u] + [v] == [s, t, u, v] && [q[0], q[1]] + [q[2]] == [q[0], q[1], q[2]];
    RunLonger([s, t, u, v], [q[0], q[1], q[2]], w, q[3]);
    assert [s, t, u, v] + [w] == [s, t, u, v, w] && [q[0], q[1], q[2]] + [q[3]] == q;
  }

  /** The first file is cut to nothing, the other one takes its blocks and gives them back, and the first grows to
      its old size. */
  method CutAndGrow(fs: FileSystem, file: seq<Byte>, other: seq<Byte>)
      returns (ghost trace: seq<State>, ghost k: nat, ghost m: nat)
    requires fs.Apart() && StaleStart(fs.Now(), file, other)
    modifies fs`table, fs.vol`disk, fs.vol`owner, fs.vol.blocks
    ensures Valid(fs.Now()) && IsRun(trace, Requests(fs.vol.p, file, other))
    ensures trace[0] == old(fs.Now()) && trace[4] == fs.Now()
    ensures Target(fs.Now(), file) == Target(old(fs.Now()), file) && CanTouch(fs.Now(), file)
    ensures Emptied(old(fs.Now()), fs.Now(), Target(fs.Now(), file), k, m)
  {
    hide Valid, CanTouch, Directories, Tokens, Resolve, Used, BlocksTaken, BlockCount, Cut, StepOf, IsRun, Telling,
         BlocksOf, TwoFiles, Emptied;
    ghost var s := fs.Now();
    StartFacts(s, file, other);
    ghost var i, j := Target(s, file), Target(s, other);
    CutTo(fs, file, 0);
    ghost var t := fs.Now();
    SameTargets(s, t);
    FirstCut(s, t, i, j);
    CutTo(fs, other, 13);
    ghost var u := fs.Now();
    SameTargets(t, u);
    SecondCut(s, t, u, i, j);
    CutTo(fs, other, 12);
    ghost var v := fs.Now();
    SameTargets(u, v);
    ThirdCut(s, t, u, v, i, j);
    CutTo(fs, file, 2);
    ghost var w := fs.Now();
    SameTargets(v, w);
    RunOfFour(s, t, u, v, w, fs.vol.p, file, other);
    trace := [s, t, u, v, w];
    k, m := GivenAgain(s, t, u, v, w, i, j);
  }

  /** All of a file of two blocks fits in the blocks that are fetched. */
  lemma TwoBlocksFit(p: nat, r: Record)
    requires p > 0 && r.size == 8 * p
    ensures ReadFits(p, 0, ReadSize(r, 0, 8 * p))
  {
    BlockCountExact(p, 2);
    hide BlockCount;
    assert Start(4 * p, 2) == 8 * p && Rem(0, 4 * p) == 0;
  }

  /** A file is read, and read again after four requests that cut it and let it grow to its old size; `cache` is
      what the first read leaves in the cache, and what the second one finds there.  The first read gives the
      file's bytes, the second one bytes that the file does not have. */
  method StaleRead(fs: FileSystem, file: seq<Byte>, other: seq<Byte>, junk: seq<Byte>)
      returns (first: seq<Byte>, bytes: seq<Byte>, ghost trace: seq<State>, ghost cache: Cache)
    requires fs.Apart() && !fs.vol.forgets && CacheRight(fs.Now(), fs.vol.cache)
    requires StaleStart(fs.Now(), file, other) && |junk| == 16 * fs.vol.p
    modifies fs`table, fs.vol`disk, fs.vol`owner, fs.vol`cache, fs.vol.blocks
    ensures Valid(fs.Now()) && IsRun(trace, Requests(fs.vol.p, file, other))
    ensures trace[0] == old(fs.Now()) && trace[4] == fs.Now()
    ensures ReadCached(trace[0], old(fs.vol.cache), cache, false, file, 0, 8 * fs.vol.p, junk, first)
    ensures ReadCached(trace[4], cache, fs.vol.cache, false, file, 0, 8 * fs.vol.p, junk, bytes)
    ensures Target(trace[0], file) in trace[0].table && Target(trace[4], file) in trace[4].table
    ensures ReadRight(fs.vol.p, trace[0].disk, trace[0].table[Target(trace[0], file)], 0, 8 * fs.vol.p, first)
    ensures trace[4].table[Target(trace[4], file)].size == 8 * fs.vol.p == |bytes|
    ensures bytes != BytesOf(fs.vol.p, trace[4].disk, trace[4].table[Target(trace[4], file)])
  {
    hide Valid, CanTouch, Directories, Tokens, Resolve, Used, BlocksTaken, BlockCount, CacheClean, ReadRight,
         CacheMore, IsRun, ReadThrough, ReadDone, ReadFits, Telling, BlocksOf, FileBytes, CacheSized, TwoFiles, Quiet;
    ghost var s, cache0 := fs.Now(), fs.vol.cache;
    StartFacts(s, file, other);
    ghost var i := Target(s, file);
    StartCache(s, fs.vol.cache);
    TargetListed(s, file);
    var size := 8 * fs.vol.p;
    var found;
    ghost var seen, k, m := [], 0, 0;
    found, first, seen := fs.Read(file, 0, size, junk);
    cache := fs.vol.cache;
    FirstRead(s, i, cache0, cache, junk, seen, first, 0);
    FirstRead(s, i, cache0, cache, junk, seen, first, 1);
    TwoBlocksFit(s.p, s.table[i]);
    ReadIsRight(s.p, s.disk, s.table[i], 0, size, junk, first);
    trace, k, m := CutAndGrow(fs, file, other);
    ghost var t := fs.Now();
    found, bytes, seen := fs.Read(file, 0, size, junk);
    WrongBytes(t.p, t.disk, t.table[i], cache, fs.vol.cache, junk, seen, bytes, m);
  }

  // ----- there are such volumes -----

  const A: seq<Byte> := [SLASH, 97]
  const B: seq<Byte> := [SLASH, 98]

  lemma OneName(letter: Byte)
    requires letter != SLASH
    ensures Tokens([SLASH, letter]) == [[letter]]
  {
    var path: seq<Byte> := [SLASH, letter];
    assert path[1..] == [letter] && NextSlash([letter], 0) == 1;
    assert [letter][..1] == [letter] && [letter][1..] == [];
    assert Tokens([letter]) == [[letter]] + Tokens([]);
  }

  /** Where the two names in the root directory lead. */
  lemma InRoot(s: State, k: nat, path: seq<Byte>)
    requires Valid(s) && s.p > 0 && k < 2 && path == [SLASH] + Letter(k)
    requires Directories(s) == map[ROOT := RootList(2)]
    ensures Target(s, path) == FIRST + k && CanTouch(s, path)
  {
    hide Valid, Directories, Tokens;
    OneName(97 + k);
    var dirs, names := Directories(s), [Letter(k)];
    assert path == [SLASH, 97 + k] && Tokens(path) == names;
    assert RootList(2) == [Entry(DOT, ROOT), Entry(DOTDOT, ROOT), Entry(Letter(0), FIRST), Entry(Letter(1), FIRST + 1)];
    NamesLead(RootList(2));
    assert names[..0] == [] && names[1..] == [] && ListOf(dirs, ROOT) == RootList(2);
    assert Lookup(RootList(2), Letter(k)) == FIRST + k;
    assert Resolve(dirs, [], FIRST + k) == FIRST + k && Resolve(dirs, [], ROOT) == ROOT;
    assert Resolve(dirs, names, ROOT) == FIRST + k;
  }

  lemma NamesLead(list: seq<Entry>)
    requires list == [Entry(DOT, ROOT), Entry(DOTDOT, ROOT), Entry(Letter(0), FIRST), Entry(Letter(1), FIRST + 1)]
    ensures Lookup(list, Letter(0)) == FIRST && Lookup(list, Letter(1)) == FIRST + 1
  {
    assert list[1..][1..] == list[2..] && list[2..][1..] == list[3..];
    assert Letter(0)[0] == 97 && Letter(1)[0] == 98 && DOT[0] == 46 && DOTDOT[0] == 46;
    forall k | k == 0 || k == 1 ensures Lookup(list, Letter(k)) == Lookup(list[2..], Letter(k)) {
      LookupSkips(list, Letter(k));
      LookupSkips(list[1..], Letter(k));
    }
    LookupSkips(list[2..], Letter(1));
  }

  lemma LookupSkips(list: seq<Entry>, name: Name)
    requires list != [] && list[0].name != name
    ensures Lookup(list, name) == Lookup(list[1..], name)
  {
  }

  function Ones(n: nat): (blk: seq<Byte>)
    ensures |blk| == n
  {
    seq(n, _ => 1)
  }

  function FullDisk(p: nat, size: nat, root: nat, blk: seq<Byte>): (disk: Disk)
    requires root < size && |blk| == 4 * p
    ensures Formatted(p, disk) && |disk| == size && disk[root] == blk
    ensures forall b :: 0 <= b < size && b != root ==> disk[b] == Ones(4 * p)
  {
    seq(size, _ => Ones(4 * p))[root := blk]
  }

  lemma FileBlocks(s: State, root: nat, counts: seq<nat>)
    requires LaidOut(s, root, counts) && counts == [2, 12] && s.p >= 2 && Base(root, 2) == |s.disk|
    requires forall b :: 0 <= b < |s.disk| && b != root ==> s.disk[b] == Ones(4 * s.p)
    ensures FIRST in s.table && s.table[FIRST].size == 2 * (4 * s.p)
    ensures FIRST + 1 in s.table && s.table[FIRST + 1].size == 12 * (4 * s.p)
    ensures var blocks := BlocksOf(s.p, s.disk, s.table[FIRST]);
            |blocks| == 2 && Telling(blocks[0]) && Telling(blocks[1])
  {
    hide OwnerOf, BlockCount;
    BlockCountExact(s.p, 2);
    var blocks := BlocksOf(s.p, s.disk, s.table[FIRST]);
    forall k | 0 <= k < 2 ensures blocks[k] == Ones(4 * s.p) {
      assert DataSlot(s.p, k) == Top(k);
    }
    assert Ones(4 * s.p)[4] == 1;
  }

  /** The stale read needs nothing out of the way: a full volume with two files, for every block size. */
  lemma StaleStartExists(p: nat) returns (s: State)
    requires p == 256 || p == 512 || p == 1024
    ensures Valid(s) && s.p == p && StaleStart(s, A, B) && CacheRight(s, map[])
  {
    hide Valid, CanTouch, Tiled, Entries, VolumeState, RecordOf, OwnerOf, Telling, BlockCount, CacheRight, RootList,
         BlocksOf, Fits, FullDisk, LaidOut, OneGroup, Directories, Tally, Covers, Counted;
    var counts, root := [2, 12], RootBlock(p, 1);
    var disk := TwoFileDisk(p);
    VolumeIsValid(p, disk, 1, 16, counts);
    VolumeBlocks(p, disk, 1, 16, counts);
    VolumeParts(p, disk, 1, 16, counts);
    VolumeLaidOut(p, disk, 1, 16, counts);
    s := VolumeState(p, disk, 1, 16, counts);
    InRoot(s, 0, A);
    InRoot(s, 1, B);
    FileBlocks(s, root, counts);
    EmptyCacheRight(s);
  }

  lemma TwoFileDisk(p: nat) returns (disk: Disk)
    requires p == 256 || p == 512 || p == 1024
    ensures Fits(p, disk, 1, 16, [2, 12]) && |disk| == Base(RootBlock(p, 1), 2)
    ensures var root := disk[RootBlock(p, 1)]; Tiled(root, 0) && Entries(root, 0) == RootList(2)
    ensures forall b :: 0 <= b < |disk| && b != RootBlock(p, 1) ==> disk[b] == Ones(4 * p)
  {
    hide Tiled, Entries, RootList, DirRecords.Reaches, RecordAt, LengthAt, NeedAt;
    var blk := RootDirectory(4 * p, 2);
    disk := FullDisk(p, Base(RootBlock(p, 1), 2), RootBlock(p, 1), blk);
  }
}
