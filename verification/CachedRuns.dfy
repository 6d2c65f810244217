/** The block cache over runs of reads and changes: when the cached blocks stay equal to the disk, and
    what reads then give. */
module CachedRuns {
  import opened Arithmetic
  import opened Bytes
  import opened BlockTree
  import opened Ownership
  import opened Storage
  import opened Truncation
  import opened FileContents
  import opened FileIO
  import opened Paths
  import opened FileTable
  import opened States
  import opened FileSystem
  import opened Runs

  type Cache = map<nat, seq<Byte>>

  /** Every cached block, except a copy of block 0, is a data block of a file that is not a directory,
      and equals it. */
  ghost predicate CacheRight(s: State, cache: Cache) {
    && s.p > 0 && CacheClean(cache, s.disk, s.owner)
    && forall b :: b in cache && b != 0 ==> b in s.owner && s.owner[b].Of? && s.owner[b].ino !in Directories(s)
  }

  /** None of the file's blocks from number `from` on is cached. */
  predicate Uncached(s: State, i: nat, from: nat, cache: Cache) {
    s.p > 0 && i in s.table && |s.table[i].block| == 15 ==>
      forall k :: from <= k < BlockCount(s.p, s.table[i].size) ==>
        BlockNumber(s.p, s.table[i].block, WordsOf(s.p, s.disk), k) !in cache
  }

  /** What the cache asks of a change: a write begins at the start of a block, and no block that is
      given back is cached. */
  predicate CacheSafe(s: State, cache: Cache, q: Request) {
    s.p > 0 && match q
    case WriteRequest(path, offset, data) => Rem(offset, 4 * s.p) == 0
    case TruncateRequest(path, size) => Uncached(s, Target(s, path), BlockCount(s.p, size), cache)
    case UnlinkRequest(path) =>
      Target(s, path) in s.table && s.table[Target(s, path)].mode != 0 ==> Uncached(s, Target(s, path), 0, cache)
    case _ => true
  }

  /** Blocks are owned by files that are in use, at slots within their sizes. */
  lemma OwnerInUse(s: State, b: nat)
    requires Valid(s) && b in s.owner && s.owner[b].Of?
    ensures var i, slot := s.owner[b].ino, s.owner[b].slot;
            && i in Used(s) && i in s.table && slot in LiveSlots(s.p, BlockCount(s.p, s.table[i].size))
            && WellFormed(s.p, slot) && |s.table[i].block| == 15 && s.table[i].size < TWO32
            && PtrAt(s.table[i].block, WordsOf(s.p, s.disk), slot) == b
  {
    hide Tally, Geometry, Treed, BlockCount, LiveSlots, Used;
    var w, files, i := WordsOf(s.p, s.disk), FilesOf(s.p, s.table), s.owner[b].ino;
    assert Reached(w, files, s.owner[b], b);
    FilesEntry(s.p, s.table, i);
    assert Placed(s.p, w, s.owner, i, files[i]);
    UnusedEmpty(s, i);
  }

  lemma UnusedEmpty(s: State, i: nat)
    requires Valid(s) && i in s.table
    ensures s.table[i].size < TWO32
    ensures (i in Used(s) || forall slot :: slot !in LiveSlots(s.p, BlockCount(s.p, s.table[i].size)))
  {
    hide Mounted, DirsIn, Used;
    EmptyCount(s.p, s.disk, s.table[i].block);
  }

  /** The block number of a data slot. */
  lemma SlotNumber(p: nat, slot: Slot) returns (k: nat)
    requires p > 0 && WellFormed(p, slot) && Height(slot) == 0
    ensures k < MaxBlocks(p) && DataSlot(p, k) == slot && k == First(p, slot)
  {
    k := First(p, slot);
    DataSlotUnique(p, slot);
  }

  /** A cached block of file `i` comes before the part of the file that is not cached. */
  lemma CachedBefore(s: State, cache: Cache, i: nat, from: nat, b: nat)
    requires Valid(s) && CacheRight(s, cache) && b in cache && b != 0 && s.owner[b].ino == i
    requires Uncached(s, i, from, cache)
    ensures First(s.p, s.owner[b].slot) < from
  {
    hide Valid, BlockCount, MaxBlocks, BlockNumber, LiveSlots, WordsOf, Height, First, Directories;
    OwnerInUse(s, b);
    var k := SlotNumber(s.p, s.owner[b].slot);
    LiveBefore(s.p, s.owner[b].slot, BlockCount(s.p, s.table[i].size));
    FileBlock(s, i, k);
  }

  lemma LiveBefore(p: nat, slot: Slot, n: nat)
    requires WellFormed(p, slot)
    ensures slot in LiveSlots(p, n) <==> First(p, slot) < n
  {
  }

  /** The program finds the block that a file's slot points to. */
  lemma FileBlock(s: State, i: nat, k: nat)
    requires Valid(s) && i in s.table && k < BlockCount(s.p, s.table[i].size) && k < MaxBlocks(s.p)
    ensures |s.table[i].block| == 15
    ensures var b := BlockNumber(s.p, s.table[i].block, WordsOf(s.p, s.disk), k);
            && b == PtrAt(s.table[i].block, WordsOf(s.p, s.disk), DataSlot(s.p, k))
            && b in s.owner && s.owner[b] == Of(i, DataSlot(s.p, k)) && b != 0
  {
    hide Treed, Tally, Geometry, BlockCount, MaxBlocks, BlockNumber, LiveSlots, WordsOf, DataSlot, Good;
    FilesEntry(s.p, s.table, i);
    BlockNumberInFile(s.p, WordsOf(s.p, s.disk), s.owner, FilesOf(s.p, s.table), i, BlockCount(s.p, s.table[i].size),
                      k);
    NotMeta(s);
  }

  lemma NotMeta(s: State)
    requires Valid(s)
    ensures 0 in s.owner ==> s.owner[0] == Meta
  {
  }

  /** Blocks that are not touched stay right in the cache. */
  lemma CacheUntouched(s: State, t: State, cache: Cache, touched: set<nat>)
    requires CacheRight(s, cache) && t.p == s.p && DataKept(s.owner, s.disk, t.owner, t.disk, touched)
    requires Directories(t).Keys <= Directories(s).Keys + touched
    requires forall b :: b in cache && b != 0 ==> s.owner[b].ino !in touched
    ensures CacheRight(t, cache)
  {
    hide Directories, Height;
  }

  lemma CreateKeeps(s: State, t: State, path: seq<Byte>, i: nat, cache: Cache)
    requires Valid(s) && CacheRight(s, cache)
    requires if Parent(s, path) == 0 then NotCreated(s, t, i, 0x8124, 1) else FileCreated(s, t, path, i)
    ensures CacheRight(t, cache)
  {
    hide Valid, Directories, Tokens, Resolve, Untouched, ParentOf, DataKept, Used, CacheClean, CreateRecords, LastName;
    if Parent(s, path) == 0 {
      DataKeptRefl(s.owner, s.disk, {});
      CacheUntouched(s, t, cache, {});
    } else {
      CacheUntouched(s, t, cache, {Parent(s, path)});
    }
  }

  lemma MkdirKeeps(s: State, t: State, path: seq<Byte>, i: nat, cache: Cache)
    requires Valid(s) && CacheRight(s, cache)
    requires if Parent(s, path) == 0 then NotCreated(s, t, i, 0x41ED, 2) else DirCreated(s, t, path, i)
    ensures CacheRight(t, cache)
  {
    hide Valid, Directories, Tokens, Resolve, Untouched, ParentOf, DataKept, Used, CacheClean, Passes,
         MkdirRecords, LastName;
    if Parent(s, path) == 0 {
      DataKeptRefl(s.owner, s.disk, {});
      CacheUntouched(s, t, cache, {});
    } else {
      forall b | b in cache && b != 0 ensures s.owner[b].ino !in {Parent(s, path)} + {i} {
        OwnerInUse(s, b);
      }
      CacheUntouched(s, t, cache, {Parent(s, path)} + {i});
    }
  }

  lemma RmdirKeeps(s: State, t: State, path: seq<Byte>, r: int, cache: Cache)
    requires Valid(s) && CacheRight(s, cache) && CanRmdir(s, path) && RmdirServed(s, t, path, r)
    ensures CacheRight(t, cache)
  {
    hide Valid, Directories, Tokens, Resolve, Untouched, ParentOf, DataKept, Used,
         CacheClean, Through, CanRemove, NoName, OnlyIn;
    if t != s {
      var k :| Removed(Directories(s), Directories(t), Parent(s, path), Target(s, path), k);
      CacheUntouched(s, t, cache, {Parent(s, path)} + {Target(s, path)});
    }
  }

  lemma UnlinkKeeps(s: State, t: State, path: seq<Byte>, r: int, cache: Cache)
    requires Valid(s) && Valid(t) && CacheRight(s, cache) && CanUnlink(s, path) && UnlinkServed(s, t, path, r)
    ensures CacheRight(t, cache) <==> CacheSafe(s, cache, UnlinkRequest(path))
  {
    hide Valid, Directories, Tokens, Resolve, BlocksOf, ParentOf, DataKept, Used, CacheClean,
         CanRemove, NoName, OnlyIn, Uncached, Within, Through;
    var a := Target(s, path);
    TargetListed(s, path);
    if a != 0 && s.table[a].mode != 0 {
      var k :| Removed(Directories(s), Directories(t), Parent(s, path), a, k);
      if Uncached(s, a, 0, cache) {
        forall b | b in cache && b != 0 ensures s.owner[b].ino !in {Parent(s, path)} + {a} {
          if s.owner[b].ino == a {
            CachedBefore(s, cache, a, 0, b);
          }
        }
        CacheUntouched(s, t, cache, {Parent(s, path)} + {a});
      } else if CacheRight(t, cache) {
        GivenBack(s, t, cache, a, 0);
      }
    }
  }

  lemma TargetListed(s: State, path: seq<Byte>)
    requires Valid(s)
    ensures s.p > 0 && (Target(s, path) != 0 ==> Target(s, path) in s.table)
    ensures s.p > 0 && (Target(s, path) in s.table ==> Target(s, path) != 0)
  {
    hide Mounted, Resolve;
    ValidFacts(s);
  }

  /** If a block that the file has given back is still cached, the cache is not right. */
  lemma GivenBack(s: State, t: State, cache: Cache, i: nat, from: nat)
    requires Valid(s) && Valid(t) && t.p == s.p && Within(t.owner, s.owner) && CacheRight(t, cache)
    requires i in s.table && i in t.table && (i in Used(t) ==> BlockCount(t.p, t.table[i].size) <= from)
    ensures Uncached(s, i, from, cache)
  {
    hide Valid, Directories, BlockCount, MaxBlocks, BlockNumber, LiveSlots, WordsOf, DataSlot, Used, First, Within;
    if |s.table[i].block| == 15 {
      forall k | from <= k < BlockCount(s.p, s.table[i].size)
        ensures BlockNumber(s.p, s.table[i].block, WordsOf(s.p, s.disk), k) !in cache
      {
        InReach(s, i);
        FileBlock(s, i, k);
        var b := BlockNumber(s.p, s.table[i].block, WordsOf(s.p, s.disk), k);
        if b in cache {
          SameOwner(t.owner, s.owner, b);
          OwnerInUse(t, b);
          DataSlotSound(s.p, k);
          LiveBefore(s.p, DataSlot(s.p, k), BlockCount(t.p, t.table[i].size));
        }
      }
    }
  }

  lemma InReach(s: State, i: nat)
    requires Valid(s) && i in s.table
    ensures BlockCount(s.p, s.table[i].size) <= MaxBlocks(s.p)
  {
    hide DirsIn, Tally, Good, FilesOf, WordsOf, BlockCount, MaxBlocks;
    ValidFacts(s);
    BlockReach(s.p, s.table[i].size);
  }

  lemma TruncateKeeps(s: State, t: State, path: seq<Byte>, size: nat, r: int, cache: Cache)
    requires Valid(s) && Valid(t) && CacheRight(s, cache) && CanTouch(s, path) && Truncated(s, t, path, size, r)
    ensures CacheRight(t, cache) <==> CacheSafe(s, cache, TruncateRequest(path, size))
  {
    hide Valid, Directories, Tokens, Resolve, DataKept, SlotsKept, Used, CacheClean, Uncached, Within, Elsewhere,
         Mounted, BlockCount, LiveSlots, Resized, BlocksTaken, ThroughDirs;
    var i, from := Target(s, path), BlockCount(s.p, size);
    TargetListed(s, path);
    if i == 0 {
      NotListed(s, i, from, cache);
    } else {
      NoneTaken(s.p, s.table[i].size, size);
      if Uncached(s, i, from, cache) {
        CacheTruncated(s, t, i, size, cache);
      } else {
        BlockCountOrder(s, i, size, cache);
        if CacheRight(t, cache) {
          GivenBack(s, t, cache, i, from);
        }
      }
    }
  }

  lemma NotListed(s: State, i: nat, from: nat, cache: Cache)
    requires i !in s.table
    ensures Uncached(s, i, from, cache)
  {
  }

  /** A file that is not cut has nothing to give back. */
  lemma BlockCountOrder(s: State, i: nat, size: nat, cache: Cache)
    requires s.p > 0 && i in s.table && !Uncached(s, i, BlockCount(s.p, size), cache)
    ensures size < s.table[i].size
  {
    hide BlockCount, BlockNumber;
    if s.table[i].size <= size {
      BlockCountMonotone(s.p, s.table[i].size, size);
    }
  }

  lemma CacheTruncated(s: State, t: State, i: nat, size: nat, cache: Cache)
    requires Valid(s) && CacheRight(s, cache) && t.p == s.p && i in s.table && i in t.table
    requires t.table[i].size == size || t.table[i].size == s.table[i].size
    requires DataKept(s.owner, s.disk, t.owner, t.disk, {i}) && Directories(t) == Directories(s)
    requires SlotsKept(s.owner, s.disk, t.owner, t.disk, i, LiveSlots(s.p, BlockCount(s.p, t.table[i].size)))
    requires Uncached(s, i, BlockCount(s.p, size), cache)
    ensures CacheRight(t, cache)
  {
    hide Valid, Directories, BlockCount, Uncached, LiveSlots, First;
    forall b | b in cache && b != 0
      ensures b in t.owner && t.owner[b] == s.owner[b] && b < |t.disk| && t.disk[b] == s.disk[b]
    {
      if s.owner[b].ino == i {
        OwnerInUse(s, b);
        CachedBefore(s, cache, i, BlockCount(s.p, size), b);
        LiveBefore(s.p, s.owner[b].slot, BlockCount(s.p, size));
      }
    }
  }

  /** A change other than a write keeps the cache right exactly when it gives back no cached block. */
  lemma CacheKept(s: State, t: State, q: Request, cache: Cache)
    requires Valid(s) && Valid(t) && CacheRight(s, cache) && Admissible(s, q) && Served(s, t, q) && !q.WriteRequest?
    ensures CacheRight(t, cache) <==> CacheSafe(s, cache, q)
  {
    hide Valid, CacheRight, CanTouch, CanCreate, CanUnlink, CanRmdir, Truncated, WriteServed, UnlinkServed,
         RmdirServed, NotCreated, FileCreated, DirCreated, Parent;
    match q {
      case TruncateRequest(path, size) =>
        var r :| Truncated(s, t, path, size, r);
        TruncateKeeps(s, t, path, size, r, cache);
      case CreateRequest(path) =>
        var i :| if Parent(s, path) == 0 then NotCreated(s, t, i, 0x8124, 1) else FileCreated(s, t, path, i);
        CreateKeeps(s, t, path, i, cache);
      case MkdirRequest(path) =>
        var i :| if Parent(s, path) == 0 then NotCreated(s, t, i, 0x41ED, 2) else DirCreated(s, t, path, i);
        MkdirKeeps(s, t, path, i, cache);
      case UnlinkRequest(path) =>
        var r :| UnlinkServed(s, t, path, r);
        UnlinkKeeps(s, t, path, r, cache);
      case RmdirRequest(path) =>
        var r :| RmdirServed(s, t, path, r);
        RmdirKeeps(s, t, path, r, cache);
      case WriteRequest(_, _, _) =>
    }
  }

  /** Cutting a file to nothing, or unlinking it, spoils a cache that holds a block of it. */
  lemma CutSpoils(s: State, t: State, q: Request, cache: Cache, k: nat)
    requires Valid(s) && Valid(t) && CacheRight(s, cache) && Admissible(s, q) && Served(s, t, q)
    requires q.UnlinkRequest? || (q.TruncateRequest? && q.size == 0)
    requires var i := Target(s, q.path);
             && i in s.table && s.table[i].mode != 0 && |s.table[i].block| == 15 && k < BlockCount(s.p, s.table[i].size)
             && BlockNumber(s.p, s.table[i].block, WordsOf(s.p, s.disk), k) in cache
    ensures !CacheRight(t, cache)
  {
    hide Valid, Served, CacheRight, Admissible, BlockNumber, WordsOf;
    CacheKept(s, t, q, cache);
  }

  /** The first word of the disk is not changed. */
  lemma FirstWordSame(s: State, t: State, q: Request)
    requires Valid(s) && Valid(t) && Served(s, t, q) && !q.WriteRequest?
    ensures RawWord(WordsOf(t.p, t.disk), 0, 0) == RawWord(WordsOf(s.p, s.disk), 0, 0)
  {
    hide Valid, RawWord, WordsOf;
    SameFirstBlock(s, t, q);
    DiskFormatted(s);
    DiskFormatted(t);
    FirstWordKept(s.p, s.disk, t.disk);
  }

  lemma SameFirstBlock(s: State, t: State, q: Request)
    requires Served(s, t, q) && !q.WriteRequest?
    ensures t.p == s.p && |t.disk| == |s.disk| && (|s.disk| > 0 ==> t.disk[0] == s.disk[0])
  {
    hide Mounted, Elsewhere, Untouched, Used, Directories, Tokens, Resolve, TruncateDone, CreatedAs, ParentOf,
         SameMeta, Within, SlotsKept, Passes, Through, Height;
  }

  lemma DiskFormatted(s: State)
    requires Valid(s)
    ensures Formatted(s.p, s.disk)
  {
  }

  /** What a write adds to the cache belongs to a file that is not a directory. */
  lemma WriteKeeps(s: State, t: State, path: seq<Byte>, offset: nat,
                   data: seq<Byte>, r: int, cache: Cache, cache': Cache)
    requires Valid(s) && Valid(t) && CacheRight(s, cache) && CanTouch(s, path)
    requires WriteServed(s, t, path, offset, data, r)
    requires CacheClean(cache', t.disk, t.owner) && CacheMore(cache, cache', t.owner, Target(s, path))
    ensures CacheRight(t, cache')
  {
    hide Valid, Directories, Tokens, Resolve, Elsewhere, Mounted, WriteDone, SameMeta, Used, ThroughDirs, Height;
  }

  /** What a change does to the cache: a write refills it, and the others leave it alone. */
  ghost predicate ChangeCached(s: State, t: State, cache: Cache, cache': Cache, q: Request) {
    s.p > 0 &&
    if q.WriteRequest?
    then Refilled(s.p, cache, cache', t.disk, t.owner, Target(s, q.path),
                  Quot(q.offset, 4 * s.p), Rem(q.offset, 4 * s.p))
    else cache' == cache
  }

  /** Serves one change that is safe for the cache. */
  method ServeCached(fs: FileSystem, q: Request)
    requires fs.Apart() && Valid(fs.Now()) && Admissible(fs.Now(), q) && CacheSafe(fs.Now(), fs.vol.cache, q)
    requires RawWord(fs.vol.Words(), 0, 0) == 0 && CacheRight(fs.Now(), fs.vol.cache)
    modifies fs, fs.inodes, fs.vol`disk, fs.vol`owner, fs.vol`cache, fs.vol.blocks
    ensures Valid(fs.Now()) && Served(old(fs.Now()), fs.Now(), q)
    ensures RawWord(fs.vol.Words(), 0, 0) == 0 && CacheRight(fs.Now(), fs.vol.cache)
    ensures ChangeCached(old(fs.Now()), fs.Now(), old(fs.vol.cache), fs.vol.cache, q)
  {
    hide Valid, Admissible, Harmful, Served, CacheClean, WordsOf, RawWord, CacheMore, Refilled,
         Directories, Quot, Rem, Uncached;
    ghost var s, cache := fs.Now(), fs.vol.cache;
    NotBoth(s, q);
    Serve(fs, q);
    if q.WriteRequest? {
      RefilledOwners(fs.vol.p, cache, fs.vol.cache, fs.vol.disk, fs.vol.owner, Target(s, q.path),
                     Quot(q.offset, 4 * fs.vol.p), Rem(q.offset, 4 * fs.vol.p));
      WriteServedRight(s, fs.Now(), q, cache, fs.vol.cache);
    } else {
      CacheKept(s, fs.Now(), q, cache);
      FirstWordSame(s, fs.Now(), q);
    }
  }

  /** Whether a write keeps the cache right depends on where it begins: for each offset whose block begins
      inside the file and each length there is data whose write keeps a cache that does not forget right
      exactly when the offset is the start of a block. */
  method TellingWrite(fs: FileSystem, path: seq<Byte>, offset: nat, n: nat) returns (r: int, data: seq<Byte>)
    requires fs.Apart() && Valid(fs.Now()) && CanTouch(fs.Now(), path) && n > 0 && offset + n < TWO32
    requires Target(fs.Now(), path) in fs.table
    requires offset - Rem(offset, 4 * fs.vol.p) < fs.table[Target(fs.Now(), path)].size
    requires !fs.vol.forgets && RawWord(fs.vol.Words(), 0, 0) == 0 && CacheRight(fs.Now(), fs.vol.cache)
    modifies fs`table, fs.vol`disk, fs.vol`owner, fs.vol`cache, fs.vol.blocks
    ensures |data| == n && Valid(fs.Now()) && WriteServed(old(fs.Now()), fs.Now(), path, offset, data, r)
    ensures Refilled(fs.vol.p, old(fs.vol.cache), fs.vol.cache, fs.vol.disk, fs.vol.owner, Target(old(fs.Now()), path),
                     Quot(offset, 4 * fs.vol.p), Rem(offset, 4 * fs.vol.p))
    ensures r >= 0 ==> (CacheRight(fs.Now(), fs.vol.cache) <==> offset % (4 * fs.vol.p) == 0)
    ensures r >= 0 ==> (CacheRight(fs.Now(), fs.vol.cache) <==>
                        CacheSafe(old(fs.Now()), old(fs.vol.cache), WriteRequest(path, offset, data)))
  {
    hide Valid, Directories, DirsOf, Tokens, Resolve, CacheClean, CacheMore, CacheRight, RawWord, WordsOf, FileBytes,
         WriteServed, Quot, Rem, ThroughDirs, BeginsWith, Refilled, Uncached;
    RemainderIs(offset, 4 * fs.vol.p);
    ghost var s, cache := fs.Now(), fs.vol.cache;
    RightIsClean(s, cache);
    SameTarget(s, path);
    assert View(fs) == s.(owner := map[], place := map[]);
    var p, record := fs.vol.p, fs.table[Target(View(fs), path)];
    var v := StartByte(FileBytes(p, fs.vol.disk, record.block, record.size), 4 * p, offset);
    data := seq(n, _ => if v == 0 then 1 else 0);
    r := fs.Write(path, offset, data);
    if r >= 0 {
      StillListed(s, fs.Now(), path, offset, data, r);
      RefilledOwners(p, cache, fs.vol.cache, fs.vol.disk, fs.vol.owner, Target(s, path), Quot(offset, 4 * p),
                     Rem(offset, 4 * p));
      WriteTells(s, fs.Now(), path, offset, data, r, cache, fs.vol.cache);
    }
  }

  lemma RemainderIs(a: nat, p: nat)
    ensures p > 0 ==> Rem(a, p) == a % p
  {
  }

  /** The first byte of the block of byte `offset`. */
  function StartByte(bytes: seq<int>, bs: nat, offset: nat): int
    requires bs > 0 && offset - Rem(offset, bs) < |bytes|
  {
    bytes[offset - Rem(offset, bs)]
  }

  lemma RightIsClean(s: State, cache: Cache)
    requires Valid(s) && CacheRight(s, cache)
    ensures s.p > 0 && CacheClean(cache, s.disk, s.owner)
  {
  }

  lemma SameTarget(s: State, path: seq<Byte>)
    requires s.p > 0
    ensures Target(s.(owner := map[], place := map[]), path) == Target(s, path)
  {
    assert Used(s.(owner := map[], place := map[])) == Used(s);
  }

  lemma StillListed(s: State, t: State, path: seq<Byte>, offset: nat, data: seq<Byte>, r: int)
    requires WriteServed(s, t, path, offset, data, r) && Target(s, path) in s.table && r >= 0
    ensures Target(s, path) in t.table
  {
    hide Directories, Tokens, Resolve, Elsewhere, Mounted, SameMeta, Used, WriteDone, Within;
  }

  lemma WriteTells(s: State, t: State, path: seq<Byte>, offset: nat, data: seq<Byte>, r: int,
                   cache: Cache, cache': Cache)
    requires Valid(s) && Valid(t) && CacheRight(s, cache) && CanTouch(s, path) && r >= 0 && data != []
    requires WriteServed(s, t, path, offset, data, r)
    requires var i := Target(s, path);
             && i in s.table && i in t.table && CacheMore(cache, cache', t.owner, i)
             && (offset - Rem(offset, 4 * s.p) < s.table[i].size)
             && StartByte(BytesOf(s.p, s.disk, s.table[i]), 4 * s.p, offset) != data[0]
             && (CacheClean(cache', t.disk, t.owner) ==>
                   BeginsWith(BytesOf(s.p, t.disk, t.table[i]), 4 * s.p, offset, data[0]))
    requires Rem(offset, 4 * s.p) == 0 ==> CacheClean(cache', t.disk, t.owner)
    ensures CacheRight(t, cache') <==> Rem(offset, 4 * s.p) == 0
  {
    hide Valid, Directories, Tokens, Resolve, Elsewhere, Mounted, SameMeta, Used, ThroughDirs, CacheClean, CacheMore,
         CacheRight, FileBytes, BlockCount, BlocksTaken, WroteOver, HeldBytes, Within, WordsOf, Rem;
    if Rem(offset, 4 * s.p) == 0 {
      WriteKeeps(s, t, path, offset, data, r, cache, cache');
    } else if CacheRight(t, cache') {
      RightIsClean(t, cache');
    }
  }

  lemma WriteServedRight(s: State, t: State, q: Request, cache: Cache, cache': Cache)
    requires q.WriteRequest? && Valid(s) && Valid(t) && CacheRight(s, cache) && Admissible(s, q) && Served(s, t, q)
    requires CacheClean(cache', t.disk, t.owner) && CacheMore(cache, cache', t.owner, Target(s, q.path))
    ensures CacheRight(t, cache')
  {
    hide Valid, CacheRight, CanTouch, WriteServed, CacheClean, CacheMore;
    var r :| WriteServed(s, t, q.path, q.offset, q.data, r);
    WriteKeeps(s, t, q.path, q.offset, q.data, r, cache, cache');
  }

  /** The part of the first block before the offset and the bytes read fit in the blocks that are fetched. */
  predicate ReadFits(p: nat, offset: nat, size: nat)
    requires p > 0
  {
    size == 0 || Rem(offset, 4 * p) + size <= Start(4 * p, BlockCount(p, size))
  }

  /** This is exactly when the read gives the bytes of the file, whatever the buffer held before. */
  lemma FitsExactly(p: nat, bytes: seq<int>, offset: nat, size: nat)
    requires p > 0 && offset + size <= |bytes|
    ensures ReadFits(p, offset, size) <==>
            (forall junk: seq<int> :: |junk| == size + 8 * p ==>
               ReadResult(p, bytes, junk, offset, size) == bytes[offset..offset + size])
  {
    hide ReadResult, BlockCount, Rem, Start;
    ReadExact(p, bytes, offset, size);
  }

  /** A read that the server answers as it should. */
  predicate CanFetch(s: State, path: seq<Byte>, offset: nat, size: nat, junk: seq<Byte>) {
    && CanTouch(s, path)
    && (Target(s, path) in s.table ==>
          var r := s.table[Target(s, path)];
          CanRead(s.p, r, offset, size, junk) && ReadFits(s.p, offset, ReadSize(r, offset, size)))
  }

  /** The result is the bytes of the file in the range, up to its end. */
  ghost predicate ReadRight(p: nat, disk: Disk, r: Record, offset: nat, size: nat, result: seq<Byte>)
    requires p > 0
  {
    && offset <= r.size
    && result == BytesOf(p, disk, r)[offset..if offset + size <= r.size then offset + size else r.size]
  }

  lemma ReadIsRight(p: nat, disk: Disk, r: Record, offset: nat, size: nat, junk: seq<Byte>, bytes: seq<Byte>)
    requires p > 0 && ReadDone(p, disk, r, offset, size, junk, bytes) && ReadFits(p, offset, ReadSize(r, offset, size))
    ensures ReadRight(p, disk, r, offset, size, bytes)
  {
    hide BlockCount, Rem, Start, FileBytes, ReadResult;
    ReadExact(p, BytesOf(p, disk, r), offset, ReadSize(r, offset, size));
  }

  /** What a read does to the cache, and that it goes through it. */
  ghost predicate ReadCached(s: State, cache: Cache, cache': Cache, forgets: bool, path: seq<Byte>, offset: nat,
                             size: nat, junk: seq<Byte>, result: seq<Byte>) {
    s.p > 0 &&
    var i := Target(s, path);
    if i in s.table
    then exists seen :: ReadThrough(s.p, s.disk, s.table[i], cache, cache', forgets, offset, size, junk, seen, result)
    else cache' == cache
  }

  /** Serves one read through the cache. */
  method Fetch(fs: FileSystem, path: seq<Byte>, offset: nat, size: nat, junk: seq<Byte>) returns (result: seq<Byte>)
    requires Valid(fs.Now()) && CanFetch(fs.Now(), path, offset, size, junk) && CacheRight(fs.Now(), fs.vol.cache)
    modifies fs.vol`cache
    ensures CacheRight(fs.Now(), fs.vol.cache)
    ensures Target(fs.Now(), path) in fs.table ==>
              ReadRight(fs.vol.p, fs.vol.disk, fs.table[Target(fs.Now(), path)], offset, size, result)
    ensures ReadCached(fs.Now(), old(fs.vol.cache), fs.vol.cache, fs.vol.forgets, path, offset, size, junk, result)
  {
    hide Valid, Directories, Tokens, Resolve, CacheClean, CacheMore, ReadDone, ReadRight, ReadThrough,
         ReadFits, CanRead, ReadSize, ThroughDirs;
    ghost var s, cache := fs.Now(), fs.vol.cache;
    TargetListed(s, path);
    DiskFormatted(s);
    CleanIsSized(s.p, cache, s.disk, s.owner);
    var found;
    ghost var seen;
    found, result, seen := fs.Read(path, offset, size, junk);
    FetchedRight(s, path, cache, fs.vol.cache);
    if found {
      ReadIsRight(s.p, s.disk, s.table[Target(s, path)], offset, size, junk, result);
    }
  }

  lemma FetchedRight(s: State, path: seq<Byte>, cache: Cache, cache': Cache)
    requires CacheRight(s, cache) && CanTouch(s, path)
    requires CacheClean(cache', s.disk, s.owner) && CacheMore(cache, cache', s.owner, Target(s, path))
    ensures CacheRight(s, cache')
  {
    hide Directories, Tokens, Resolve, ThroughDirs;
  }

  // ----- runs -----

  datatype Event = Change(q: Request) | Fetching(path: seq<Byte>, offset: nat, size: nat, junk: seq<Byte>)

  /** The events that are served: the others are skipped. */
  predicate Accepted(s: State, cache: Cache, e: Event) {
    match e
    case Change(q) => Admissible(s, q) && CacheSafe(s, cache, q)
    case Fetching(path, offset, size, junk) => CanFetch(s, path, offset, size, junk)
  }

  /** What an event does: a read changes nothing and gives the bytes of the file. */
  ghost predicate Happened(s: State, t: State, cache: Cache, cache': Cache, forgets: bool, e: Event,
                           result: seq<Byte>) {
    s.p > 0 && match e
    case Change(q) => Served(s, t, q) && ChangeCached(s, t, cache, cache', q)
    case Fetching(path, offset, size, junk) =>
      && t == s && ReadCached(s, cache, cache', forgets, path, offset, size, junk, result)
      && (Target(s, path) in s.table ==> ReadRight(s.p, s.disk, s.table[Target(s, path)], offset, size, result))
  }

  /** Just the events that are accepted are served; the others do nothing. */
  ghost predicate EventStep(s: State, t: State, cache: Cache, cache': Cache, forgets: bool, e: Event,
                            served: bool, result: seq<Byte>) {
    && served == Accepted(s, cache, e)
    && if served then Happened(s, t, cache, cache', forgets, e, result) else t == s && cache' == cache
  }

  /** The states of a run with the cache in each, what was served and what each read gave. */
  ghost predicate IsCachedRun(trace: seq<State>, caches: seq<Cache>, forgets: bool, events: seq<Event>,
                              served: seq<bool>, results: seq<seq<Byte>>) {
    && |trace| == |caches| == |events| + 1 && |results| == |served| == |events|
    && (forall k :: 0 <= k < |trace| ==> Valid(trace[k]) && CacheRight(trace[k], caches[k]))
    && (forall k {:trigger events[k]} :: 0 <= k < |events| ==>
        EventStep(trace[k], trace[k + 1], caches[k], caches[k + 1], forgets, events[k], served[k], results[k]))
  }

  lemma CachedStart(s: State, forgets: bool)
    requires Valid(s) && CacheRight(s, map[])
    ensures IsCachedRun([s], [map[]], forgets, [], [], [])
  {
    hide Valid, CacheRight, EventStep;
  }

  lemma CachedLonger(trace: seq<State>, caches: seq<Cache>, forgets: bool, events: seq<Event>, served: seq<bool>,
                     results: seq<seq<Byte>>, t: State, cache: Cache, e: Event, did: bool, result: seq<Byte>)
    requires IsCachedRun(trace, caches, forgets, events, served, results) && Valid(t) && CacheRight(t, cache)
    requires EventStep(trace[|trace| - 1], t, caches[|trace| - 1], cache, forgets, e, did, result)
    ensures IsCachedRun(trace + [t], caches + [cache], forgets, events + [e], served + [did], results + [result])
  {
    hide Valid, CacheRight, EventStep;
  }

  lemma SameAccepted(s: State, cache: Cache, e: Event)
    ensures Accepted(s.(owner := map[], place := map[]), cache, e) == Accepted(s, cache, e)
  {
    hide DirsOf, Tokens, Resolve, ReadFits, CanRead, Admissible, Rem, BlockNumber, WordsOf, BlockCount;
    var t := s.(owner := map[], place := map[]);
    assert Used(t) == Used(s);
    if e.Change? {
      SameView(s, e.q);
    }
  }

  lemma EmptyCacheRight(s: State)
    requires Valid(s)
    ensures CacheRight(s, map[])
  {
  }

  /** From an empty cache, which may forget blocks at any time, every read in any run of reads and
      changes gives the bytes of the file, if writes begin at the start of a block and no change gives
      back a block that is cached.  `caches` is the cache in each state of the run. */
  method RunCached(fs: FileSystem, events: seq<Event>)
      returns (served: seq<bool>, results: seq<seq<Byte>>, ghost trace: seq<State>, ghost caches: seq<Cache>)
    requires fs.Apart() && Valid(fs.Now())
    requires RawWord(fs.vol.Words(), 0, 0) == 0 && fs.vol.cache == map[]
    modifies fs, fs.inodes, fs.vol`disk, fs.vol`owner, fs.vol`cache, fs.vol.blocks
    ensures Valid(fs.Now()) && IsCachedRun(trace, caches, fs.vol.forgets, events, served, results)
    ensures trace[0] == old(fs.Now()) && trace[|events|] == fs.Now()
    ensures caches[0] == map[] && caches[|events|] == fs.vol.cache
  {
    hide Valid, Accepted, Happened, IsCachedRun, CacheRight, WordsOf, RawWord;
    EmptyCacheRight(fs.Now());
    trace, caches, served, results := [fs.Now()], [map[]], [], [];
    CachedStart(fs.Now(), fs.vol.forgets);
    assert events[..0] == [];
    var k := 0;
    while k < |events|
      invariant 0 <= k <= |events| && |trace| == |caches| == k + 1
      invariant IsCachedRun(trace, caches, fs.vol.forgets, events[..k], served, results)
      invariant Valid(fs.Now()) && trace[0] == old(fs.Now()) && trace[k] == fs.Now()
      invariant RawWord(fs.vol.Words(), 0, 0) == 0 && CacheRight(fs.Now(), fs.vol.cache)
      invariant caches[0] == map[] && caches[k] == fs.vol.cache
    {
      ghost var s, cache := fs.Now(), fs.vol.cache;
      var e := events[k];
      SameAccepted(s, cache, e);
      assert View(fs) == s.(owner := map[], place := map[]);
      var did, result := Accepted(View(fs), fs.vol.cache, e), [];
      if did {
        result := Happen(fs, e);
      }
      CachedLonger(trace, caches, fs.vol.forgets, events[..k], served, results, fs.Now(), fs.vol.cache, e, did, result);
      assert events[..k + 1] == events[..k] + [e];
      trace, caches := trace + [fs.Now()], caches + [fs.vol.cache];
      served, results := served + [did], results + [result];
      k := k + 1;
    }
    assert events[..k] == events;
  }

  method Happen(fs: FileSystem, e: Event) returns (result: seq<Byte>)
    requires fs.Apart() && Valid(fs.Now()) && Accepted(fs.Now(), fs.vol.cache, e)
    requires RawWord(fs.vol.Words(), 0, 0) == 0 && CacheRight(fs.Now(), fs.vol.cache)
    modifies fs, fs.inodes, fs.vol`disk, fs.vol`owner, fs.vol`cache, fs.vol.blocks
    ensures Valid(fs.Now())
    ensures Happened(old(fs.Now()), fs.Now(), old(fs.vol.cache), fs.vol.cache, fs.vol.forgets, e, result)
    ensures RawWord(fs.vol.Words(), 0, 0) == 0 && CacheRight(fs.Now(), fs.vol.cache)
  {
    hide Valid, Admissible, CacheSafe, Served, CanFetch, ReadRight, CacheRight, ChangeCached, ReadCached,
         WordsOf, RawWord, Used, DirsIn, Tokens, Resolve;
    ghost var s := fs.Now();
    TargetListed(s, []);
    match e {
      case Change(q) =>
        ServeCached(fs, q);
        result := [];
      case Fetching(path, offset, size, junk) =>
        result := Fetch(fs, path, offset, size, junk);
    }
  }
}
