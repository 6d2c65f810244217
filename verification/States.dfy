/** The state of a mounted volume as a value, what every request keeps of it, and what each request
    does to it (rfs/Rfs.c). */
module States {
  import opened Arithmetic
  import opened Bytes
  import opened BlockTree
  import opened Ownership
  import opened Allocation
  import opened Storage
  import opened Truncation
  import opened FileContents
  import opened FileIO
  import opened DirRecords
  import opened Listings
  import opened Directory
  import opened Paths
  import opened DirTree
  import opened FileTable

  /** An allocator's bitmaps and counters. */
  datatype Bits = Bits(space: Space, bitmap: seq<seq<bool>>, groupFree: seq<nat>, totalFree: nat)

  datatype State = State(p: nat, disk: Disk, owner: map<nat, Owner>, blocks: Bits,
                         inodes: Bits, table: Table, place: map<nat, Place>)

  /** Bitmaps, counters, pointers, ownership of blocks and the inode table fit together. */
  ghost predicate Mounted(s: State) {
    && s.p > 0 && Geometry(s.p, s.blocks.space, s.disk)
    && Tally(s.blocks.space, s.blocks.bitmap, s.blocks.groupFree, s.blocks.totalFree, s.owner)
    && (s.blocks.space.InRange(0) ==> 0 in s.owner)
    && Good(s.p, WordsOf(s.p, s.disk), FilesOf(s.p, s.table), s.owner) && Settled(s.owner)
    && Covers(s.inodes.space, s.inodes.bitmap) && Counted(s.inodes.bitmap, s.inodes.groupFree, s.inodes.totalFree)
    && Numbered(s.inodes.space, s.table.Keys)
  }

  /** The inodes marked used. */
  function Used(s: State): set<nat> {
    set i | i in s.table && !Free(s.inodes.space, s.inodes.bitmap, i)
  }

  /** The listings of the directories among the inodes `used`. */
  function DirsIn(s: State, used: set<nat>): Dirs
    requires s.p > 0
  {
    DirsOf(s.p, s.disk, s.table, used)
  }

  function Directories(s: State): Dirs
    requires s.p > 0
  {
    DirsIn(s, Used(s))
  }

  /** The table is well formed and the directories among the inodes `used` form a tree. */
  ghost predicate Treed(s: State, used: set<nat>) {
    s.p > 0 && Sane(s.p, s.disk, s.table, used, s.place)
  }

  /** What every request keeps. */
  ghost predicate Valid(s: State) {
    Mounted(s) && Treed(s, Used(s))
  }

  /** Every directory on the way along the path is a directory, as far as the path exists. */
  predicate ThroughDirs(dirs: Dirs, names: seq<Name>) {
    forall k :: 0 <= k < |names| ==> Resolve(dirs, names[..k], ROOT) == 0 || Resolve(dirs, names[..k], ROOT) in dirs
  }

  /** The inode that the path leads to. */
  function Target(s: State, path: seq<Byte>): nat
    requires s.p > 0
  {
    Resolve(Directories(s), Tokens(path), ROOT)
  }

  /** The path goes through directories, and does not lead to one. */
  predicate CanTouch(s: State, path: seq<Byte>) {
    s.p > 0 && ThroughDirs(Directories(s), Tokens(path)) && Target(s, path) !in Directories(s)
  }

  lemma DirectoryFacts(s: State, d: nat, used: set<nat>)
    requires Treed(s, used) && d in DirsIn(s, used)
    ensures d in s.table && d in used && s.table[d].size < TWO32 && IsDirMode(s.table[d].mode) && s.table[d].mode != 0
    ensures IsDirectory(s.p, s.disk, s.table[d].block, s.table[d].size)
    ensures DirsIn(s, used)[d] == ListingOf(s.p, s.disk, s.table[d].block, s.table[d].size)
    ensures DirsIn(s, used)[d] == Listing(BlocksOf(s.p, s.disk, s.table[d]))
  {
    hide Content, BlockCount, Listing;
  }

  lemma ValidFacts(s: State)
    requires Valid(s)
    ensures s.p > 0 && ROOT in Directories(s) && 0 !in Directories(s)
    ensures forall i :: i in s.table ==> 0 < i < TWO32 && s.table[i].size < TWO32
    ensures forall path :: Target(s, path) == 0 || (Target(s, path) in Used(s) && Target(s, path) in s.table)
  {
    hide Resolve, Good, Tally;
    assert TreeOk(Directories(s), Used(s), s.place);
    forall path ensures Target(s, path) == 0 || (Target(s, path) in Used(s) && Target(s, path) in s.table) {
      ResolveUsed(Directories(s), Used(s), s.place, Tokens(path));
    }
  }

  lemma TouchFacts(s: State, path: seq<Byte>)
    requires Valid(s) && CanTouch(s, path) && Target(s, path) != 0
    ensures Target(s, path) in Used(s) && Target(s, path) in s.table && !IsDirMode(s.table[Target(s, path)].mode)
  {
    ValidFacts(s);
  }

  lemma ResolveUsed(dirs: Dirs, used: set<nat>, place: map<nat, Place>, names: seq<Name>)
    requires TreeOk(dirs, used, place)
    ensures Resolve(dirs, names, ROOT) == 0 || Resolve(dirs, names, ROOT) in used
  {
    if names != [] {
      var u, x := names[..|names| - 1], names[|names| - 1];
      assert names == u + [x];
      var d := Resolve(dirs, u, ROOT);
      ResolveLast(dirs, u, x, ROOT);
      LookupListed(ListOf(dirs, d), x);
      if d in dirs {
        assert DirOk(dirs, used, place, d);
      }
    }
  }

  /** What a request changes only with respect to one file. */
  ghost predicate OneFile(s: State, t: State, i: nat) {
    && s.p > 0 && t.p == s.p && t.inodes == s.inodes && t.place == s.place && Mounted(t)
    && i in s.table && i in t.table && Elsewhere(s.p, s.disk, s.table, t.disk, t.table, i) && SameMeta(s.owner, t.owner)
  }

  lemma OneFileUsed(s: State, t: State, i: nat)
    requires OneFile(s, t, i)
    ensures Used(t) == Used(s) && t.table == s.table[i := t.table[i]]
  {
    hide Mounted, BlocksOf;
  }

  /** Truncating or writing a file keeps the tree. */
  lemma FileChanged(s: State, t: State, i: nat)
    requires Valid(s) && OneFile(s, t, i) && i in Used(s) && !IsDirMode(s.table[i].mode)
    requires t.table[i].size < TWO32 && t.table[i].mode == s.table[i].mode
    ensures Valid(t) && Used(t) == Used(s) && Directories(t) == Directories(s)
  {
    hide Mounted, Elsewhere, Sane;
    OneFileUsed(s, t, i);
    SaneFile(s.p, s.disk, s.table, Used(s), s.place, t.disk, i, t.table[i]);
  }

  /** File `i` has been changed and its inode saved. */
  ghost predicate FileStep(s: State, t: State, i: nat) {
    && s.p > 0 && t.p == s.p && t.inodes == s.inodes && t.place == s.place && Mounted(t)
    && i in s.table && i in t.table && t.table == s.table[i := t.table[i]]
    && t.table[i].size < TWO32 && t.table[i].mode == s.table[i].mode
    && OthersSame(s.p, FilesOf(s.p, s.table), i, s.disk, t.disk) && SameMeta(s.owner, t.owner)
  }

  /** It changes nothing else in the tree. */
  lemma FileServed(s: State, t: State, i: nat)
    requires Valid(s) && i in Used(s) && FileStep(s, t, i) && !IsDirMode(s.table[i].mode)
    ensures OneFile(s, t, i) && Valid(t) && Used(t) == Used(s) && Directories(t) == Directories(s)
  {
    hide Mounted, Elsewhere, OthersSame, FilesOf, SameMeta, Treed, Used, DirsIn;
    ValidFacts(s);
    SizeOfPointers(s);
    ElsewhereSame(s.p, s.disk, s.table, t.disk, i, t.table[i]);
    FileChanged(s, t, i);
  }

  lemma SizeOfPointers(s: State)
    requires Mounted(s)
    ensures s.p == 256 || s.p == 512 || s.p == 1024
  {
  }

  /** A truncate request: the file has the new size, keeps its bytes below both sizes and finds the others
      in its blocks, or, when there are too few free blocks, everything is as it was. */
  ghost predicate TruncateDone(p: nat, disk: Disk, r: Record, disk': Disk,
                               r': Record, free: nat, newSize: nat, result: int)
    requires p > 0
  {
    && r'.mode == r.mode && r'.links == r.links
    && result == (if free < BlocksTaken(p, BlockCount(p, r.size), BlockCount(p, newSize)) then -1 else 0)
    && r'.size == (if result == 0 then newSize else r.size)
    && (result == -1 ==> r' == r)
    && Resized(BytesOf(p, disk, r), BytesOf(p, disk', r'), r'.size)
    && (result == 0 ==> BytesOf(p, disk', r') == HeldBytes(p, disk, WordsOf(p, disk'), r'.block, r'.size))
  }

  /** What a truncate does to the one file. */
  ghost predicate FileTruncated(s: State, t: State, i: nat, newSize: nat, result: int)
    requires s.p > 0 && i in s.table && i in t.table
  {
    && TruncateDone(s.p, s.disk, s.table[i], t.disk, t.table[i], s.blocks.totalFree, newSize, result)
    && DataKept(s.owner, s.disk, t.owner, t.disk, {i})
    && (newSize <= s.table[i].size ==> Within(t.owner, s.owner))
    && SlotsKept(s.owner, s.disk, t.owner, t.disk, i, LiveSlots(s.p, BlockCount(s.p, t.table[i].size)))
    && (result == -1 ==> t.blocks == s.blocks && t.owner == s.owner)
    && (result == 0 ==> Sized(s.p, s.table[i].size, newSize, s.owner, s.disk, s.blocks.totalFree,
                              t.owner, t.disk, t.blocks.totalFree))
  }

  /** The same tree; and unless the path leads nowhere, one file truncated. */
  ghost predicate Truncated(s: State, t: State, path: seq<Byte>, newSize: nat, result: int) {
    && s.p > 0 && t.p == s.p && Used(t) == Used(s) && Directories(t) == Directories(s)
    && var i := Target(s, path);
       if i == 0 then result == -2 && t == s
       else OneFile(s, t, i) && FileTruncated(s, t, i, newSize, result)
  }

  lemma TruncateEnds(p: nat, disk: Disk, r: Record, disk': Disk, r': Record, free: nat, newSize: nat, result: int)
    requires p > 0 && r'.mode == r.mode && r'.links == r.links
    requires result == (if free < BlocksTaken(p, BlockCount(p, r.size), BlockCount(p, newSize)) then -1 else 0)
    requires r'.size == (if result == 0 then newSize else r.size) && (result == -1 ==> r'.block == r.block)
    requires Resized(FileBytes(p, disk, r.block, r.size), FileBytes(p, disk', r'.block, r'.size), r'.size)
    requires result == 0 ==>
               FileBytes(p, disk', r'.block, r'.size) == HeldBytes(p, disk, WordsOf(p, disk'), r'.block, r'.size)
    ensures TruncateDone(p, disk, r, disk', r', free, newSize, result)
  {
    hide BlockCount, BlocksTaken, Resized, FileBytes, HeldBytes, WordsOf;
  }

  /** A write request: the data replaces the bytes in its range, or, when there are too few free
      blocks, everything is as it was. */
  ghost predicate WriteDone(p: nat, disk: Disk, r: Record, disk': Disk, r': Record, free: nat, offset: nat,
                            data: seq<Byte>, result: int)
    requires p > 0
  {
    && r'.mode == r.mode && r'.links == r.links
    && result == (if offset + |data| > r.size
                     && free < BlocksTaken(p, BlockCount(p, r.size), BlockCount(p, offset + |data|))
                  then -28 else |data|)
    && if result == -28 then r' == r && BytesOf(p, disk', r') == BytesOf(p, disk, r)
       else Wrote(BytesOf(p, disk, r), BytesOf(p, disk', r'), offset, data)
            && WroteOver(BytesOf(p, disk', r'), HeldBytes(p, disk, WordsOf(p, disk'), r'.block, r'.size), offset, data)
  }

  /** `bytes` are `held` with the data written over them. */
  ghost predicate WroteOver(bytes: seq<int>, held: seq<int>, offset: nat, data: seq<Byte>) {
    offset + |data| <= |held| && bytes == Splice(held, offset, data)
  }

  ghost predicate WriteServed(s: State, t: State, path: seq<Byte>, offset: nat, data: seq<Byte>, result: int) {
    && s.p > 0 && t.p == s.p && Used(t) == Used(s) && Directories(t) == Directories(s)
    && var i := Target(s, path);
       if i == 0 then result == -2 && t == s
       else OneFile(s, t, i) && WriteDone(s.p, s.disk, s.table[i], t.disk, t.table[i],
                                          s.blocks.totalFree, offset, data, result)
            && Within(s.owner, t.owner)
  }

  lemma WriteEnds(p: nat, disk: Disk, r: Record, disk': Disk, r': Record, free: nat,
                  offset: nat, data: seq<Byte>, result: int)
    requires p > 0 && r'.mode == r.mode && r'.links == r.links
    requires result == (if offset + |data| > r.size
                           && free < BlocksTaken(p, BlockCount(p, r.size), BlockCount(p, offset + |data|))
                        then -28 else |data|)
    requires result == -28 ==> r' == r
    requires var before, after := FileBytes(p, disk, r.block, r.size), FileBytes(p, disk', r'.block, r'.size);
             if result == -28 then after == before else Wrote(before, after, offset, data)
    requires result != -28 ==>
               && offset + |data| <= r'.size
               && FileBytes(p, disk', r'.block, r'.size) ==
                  Splice(HeldBytes(p, disk, WordsOf(p, disk'), r'.block, r'.size), offset, data)
    ensures WriteDone(p, disk, r, disk', r', free, offset, data, result)
  {
    hide BlockCount, BlocksTaken, Wrote, FileBytes, HeldBytes, Splice, WordsOf;
  }

  /** A read stops at the end of the file. */
  function ReadSize(r: Record, offset: nat, size: nat): nat {
    if r.size < offset + size && offset <= r.size then r.size - offset else size
  }

  lemma ReadLength(p: nat, disk: Disk, r: Record, cache: map<nat, seq<Byte>>, cache': map<nat, seq<Byte>>,
                   forgets: bool, offset: nat, size: nat, junk: seq<Byte>, seen: seq<seq<Byte>>, bytes: seq<Byte>)
    requires p > 0 && ReadThrough(p, disk, r, cache, cache', forgets, offset, size, junk, seen, bytes)
    ensures |bytes| == if offset + size <= r.size then size else r.size - offset
  {
    hide BlockCount, Quot, Rem, SeenThrough, CachedTo, CacheFilled, BytesIn;
  }

  /** The offset is in the file, and the server's buffer has two blocks to spare. */
  predicate CanRead(p: nat, r: Record, offset: nat, size: nat, junk: seq<Byte>) {
    offset <= r.size && |junk| == (if offset + size <= r.size then size else r.size - offset) + 8 * p
  }

  ghost predicate ReadDone(p: nat, disk: Disk, r: Record, offset: nat, size: nat, junk: seq<Byte>, bytes: seq<Byte>)
    requires p > 0
  {
    && CanRead(p, r, offset, size, junk)
    && bytes == ReadResult(p, BytesOf(p, disk, r), junk, offset, ReadSize(r, offset, size))
  }

  /** A read through any cache: the blocks of the file were fetched from it or from the disk, and are cached
      afterwards in a cache that does not forget; nothing else is new in the cache. */
  ghost predicate ReadThrough(p: nat, disk: Disk, r: Record, cache: map<nat, seq<Byte>>, cache': map<nat, seq<Byte>>,
                              forgets: bool, offset: nat, size: nat, junk: seq<Byte>, seen: seq<seq<Byte>>,
                              bytes: seq<Byte>)
    requires p > 0
  {
    && CanRead(p, r, offset, size, junk) && |r.block| == 15 && |seen| == BlockCount(p, r.size)
    && CacheFilled(cache, cache', disk, forgets)
    && (var from, n := Quot(offset, 4 * p), ReadSize(r, offset, size);
        && SeenThrough(p, disk, WordsOf(p, disk), r.block, cache, forgets, seen, from, from + BlockCount(p, n))
        && (!forgets ==> CachedTo(p, WordsOf(p, disk), r.block, cache', from, from + BlockCount(p, n)))
        && bytes == ReadResult(p, BytesIn(seen, 4 * p, r.size), junk, offset, n))
  }

  /** `AddTo` has added an entry to directory `d`. */
  ghost predicate EntryAdded(s: State, t: State, d: nat, name: Name, target: nat, more: nat) {
    && OneFile(s, t, d) && Added(s.p, s.disk, s.table[d], t.disk, t.table[d], name, target)
    && t.blocks.totalFree >= more && DataKept(s.owner, s.disk, t.owner, t.disk, {d})
  }

  /** Directory `d` can take the entry. */
  ghost predicate Ready(s: State, d: nat, name: Name, more: nat) {
    && Mounted(s) && d in s.table && s.table[d].mode != 0 && (forall i :: i in s.table ==> s.table[i].size < TWO32)
    && IsDirectory(s.p, s.disk, s.table[d].block, s.table[d].size)
    && Room(s.p, s.disk, s.table[d], s.blocks.totalFree, name, more)
  }

  /** The lowest inode that is not in use. */
  ghost predicate LowestFree(s: State, i: nat) {
    i in s.table && i !in Used(s) && forall j :: j in s.table && j !in Used(s) ==> i <= j
  }

  /** `Inode_asignarInodo` has taken inode `i`, which is not part of the tree yet. */
  ghost predicate Allocated(s: State, t: State, i: nat, mode: nat, links: nat) {
    && s.p > 0 && LowestFree(s, i) && Used(t) == Used(s) + {i} && 0 < i < TWO32
    && t == s.(inodes := t.inodes, table := s.table[i := Record(mode, links, 0, s.table[i].block)])
    && Mounted(t) && Treed(t, Used(s)) && DirsIn(t, Used(s)) == Directories(s)
    && Elsewhere(s.p, s.disk, s.table, t.disk, t.table, i)
  }

  lemma AllocatedTree(s: State, t: State, i: nat, mode: nat, links: nat)
    requires Valid(s) && i in s.table && Free(s.inodes.space, s.inodes.bitmap, i)
    requires forall m :: Free(s.inodes.space, s.inodes.bitmap, m) ==> i <= m
    requires t == s.(inodes := t.inodes, table := s.table[i := Record(mode, links, s.table[i].size, s.table[i].block)])
    requires t.inodes.space == s.inodes.space && Covers(t.inodes.space, t.inodes.bitmap)
    requires Counted(t.inodes.bitmap, t.inodes.groupFree, t.inodes.totalFree)
    requires forall m :: Free(s.inodes.space, t.inodes.bitmap, m) <==>
             Free(s.inodes.space, s.inodes.bitmap, m) && m != i
    ensures Allocated(s, t, i, mode, links)
  {
    hide Good, Tally, Geometry, Settled, Covers, Counted, Free, Elsewhere,
         TreeOk, BlocksOf, IsDirectory, DirsOf, FilesOf;
    ValidFacts(s);
    assert Used(t) == Used(s) + {i};
    RecordOfUnused(s.p, s.disk, s.table, Used(s), i, mode, links);
    assert t.table.Keys == s.table.Keys;
  }

  lemma ValidMounted(s: State)
    requires Valid(s)
    ensures Mounted(s) && Covers(s.inodes.space, s.inodes.bitmap)
    ensures Counted(s.inodes.bitmap, s.inodes.groupFree, s.inodes.totalFree)
  {
  }

  lemma TreeFacts(s: State, used: set<nat>)
    requires Treed(s, used)
    ensures s.p > 0 && ROOT in DirsIn(s, used)
  {
  }

  lemma FreeNumbered(s: State, i: nat)
    requires Mounted(s) && Free(s.inodes.space, s.inodes.bitmap, i)
    ensures i in s.table
  {
    hide Good, Tally, Geometry, Settled, Covers, Counted;
  }

  lemma Addable(s: State, d: nat, name: Name, more: nat)
    requires Ready(s, d, name, more)
    ensures Mounted(s) && (s.p == 256 || s.p == 512 || s.p == 1024) && d in s.table && s.table[d].mode != 0
    ensures IsDirectory(s.p, s.disk, s.table[d].block, s.table[d].size)
    ensures Room(s.p, s.disk, s.table[d], s.blocks.totalFree, name, more)
    ensures forall i :: i in s.table ==> s.table[i].size < TWO32
  {
  }

  lemma AddedEnds(s: State, t: State, d: nat, name: Name, target: nat, more: nat)
    requires Ready(s, d, name, more) && t.p == s.p && t.inodes == s.inodes && t.place == s.place && Mounted(t)
    requires d in t.table && t.table == s.table[d := t.table[d]] && t.blocks.totalFree >= more
    requires OthersSame(s.p, FilesOf(s.p, s.table), d, s.disk, t.disk) && SameMeta(s.owner, t.owner)
    requires Added(s.p, s.disk, s.table[d], t.disk, t.table[d], name, target)
    requires DataKept(s.owner, s.disk, t.owner, t.disk, {d})
    ensures EntryAdded(s, t, d, name, target, more)
  {
    hide Ready, Mounted, IsDirectory, Added, Elsewhere, OthersSame, Room, FilesOf, SameMeta, DataKept;
    Addable(s, d, name, more);
    ElsewhereSame(s.p, s.disk, s.table, t.disk, d, t.table[d]);
  }

  const FILE_MODE: nat := 0x8124
  const DIR_MODE: nat := 0x41ED

  /** Where the directory part of a path leads: all of the path, if it ends in a slash. */
  function ParentOf(dirs: Dirs, path: seq<Byte>): nat {
    var names := Tokens(path);
    if names == [] || path[|path| - 1] == SLASH then Resolve(dirs, names, ROOT) else
      Resolve(dirs, names[..|names| - 1], ROOT)
  }

  function Parent(s: State, path: seq<Byte>): nat
    requires s.p > 0
  {
    ParentOf(Directories(s), path)
  }

  /** The path was cut at its last slash. */
  ghost predicate CutAt(path: seq<Byte>, dir: seq<Byte>, name: Name) {
    && path != [] && (name == [] <==> path[|path| - 1] == SLASH)
    && Tokens(path) == Tokens(dir) + if name == [] then [] else [name]
  }

  lemma ParentIs(dirs: Dirs, path: seq<Byte>, dir: seq<Byte>, name: Name)
    requires CutAt(path, dir, name)
    ensures ParentOf(dirs, path) == Resolve(dirs, Tokens(dir), ROOT)
  {
    hide Tokens, Resolve;
    if name != [] {
      assert Tokens(path)[..|Tokens(path)| - 1] == Tokens(dir);
    } else {
      assert Tokens(path) == Tokens(dir);
    }
  }

  /** The part of the path after its last slash. */
  function LastName(path: seq<Byte>): Name {
    if path == [] || path[|path| - 1] == SLASH || Tokens(path) == [] then [] else Tokens(path)[|Tokens(path)| - 1]
  }

  /** What the program asks of a create or mkdir request: a path that goes through directories, a free inode, a
      last name of at most 255 bytes, and room for its entry and `more`. */
  predicate CanTry(s: State, path: seq<Byte>, more: nat) {
    && s.p > 0 && SLASH in path && |path| < TWO16 && s.inodes.totalFree > 0 && |LastName(path)| < 256
    && ThroughDirs(Directories(s), Tokens(path))
    && var d := Parent(s, path);
       && (d != 0 ==> d in Directories(s))
       && (d in Directories(s) && d in s.table ==>
             Room(s.p, s.disk, s.table[d], s.blocks.totalFree, LastName(path), more))
  }

  /** The same, for a path that is not there yet. */
  predicate CanCreate(s: State, path: seq<Byte>, more: nat) {
    CanTry(s, path, more) && Target(s, path) == 0
  }

  /** `name` ends the path, and is not yet in directory `d`, where the path leads to. */
  ghost predicate IsNewName(dirs: Dirs, path: seq<Byte>, d: nat, name: Name) {
    && Tokens(path) != [] && Tokens(path)[|Tokens(path)| - 1] == name && name != [] && |name| < 256
    && d in dirs && d != 0 && d == ParentOf(dirs, path) && NoName(dirs[d], name) && Names(dirs, Tokens(path), d, name)
  }

  lemma LastNameIs(path: seq<Byte>, dir: seq<Byte>, name: Name)
    requires CutAt(path, dir, name)
    ensures LastName(path) == name
  {
    hide Tokens;
  }

  lemma TryFacts(s: State, path: seq<Byte>, dir: seq<Byte>, name: Name, more: nat)
    requires Valid(s) && CanTry(s, path, more) && CutAt(path, dir, name)
    ensures ThroughDirs(Directories(s), Tokens(dir)) && |name| < 256
    ensures var d := Resolve(Directories(s), Tokens(dir), ROOT);
            && d == Parent(s, path)
            && (d != 0 ==> d in Used(s) && d in Directories(s) && Ready(s, d, name, more))
  {
    hide Mounted, Room, TreeOk, Resolve, IsDirectory, ThroughDirs, Tokens, LastName;
    ValidFacts(s);
    RootThere(Directories(s), Used(s), s.place);
    LastNameIs(path, dir, name);
    ParentIs(Directories(s), path, dir, name);
    ThroughPrefix(Directories(s), Tokens(path), Tokens(dir), name);
    var d := Resolve(Directories(s), Tokens(dir), ROOT);
    if d != 0 {
      DirectoryFacts(s, d, Used(s));
    }
  }

  lemma ThroughPrefix(dirs: Dirs, names: seq<Name>, parents: seq<Name>, name: Name)
    requires ThroughDirs(dirs, names) && names == parents + if name == [] then [] else [name]
    ensures ThroughDirs(dirs, parents)
  {
    hide Resolve;
    assert forall k :: 0 <= k <= |parents| ==> parents[..k] == names[..k];
  }

  lemma CreateFacts(s: State, path: seq<Byte>, dir: seq<Byte>, name: Name, more: nat)
    requires Valid(s) && CanCreate(s, path, more) && CutAt(path, dir, name)
    ensures var d := Parent(s, path); d != 0 ==> IsNewName(Directories(s), path, d, name)
  {
    hide Mounted, Room, TreeOk, Resolve, ThroughDirs, Tokens, LastName;
    LastNameIs(path, dir, name);
    ParentIs(Directories(s), path, dir, name);
    NewLeaf(Directories(s), Used(s), s.place, path, Tokens(dir), name);
  }

  lemma RootThere(dirs: Dirs, used: set<nat>, place: map<nat, Place>)
    requires TreeOk(dirs, used, place)
    ensures ROOT in dirs && 0 !in dirs && dirs.Keys <= used
  {
  }

  /** The name at the end of a path that is not there. */
  lemma NewLeaf(dirs: Dirs, used: set<nat>, place: map<nat, Place>, path: seq<Byte>, parents: seq<Name>, name: Name)
    requires TreeOk(dirs, used, place) && ThroughDirs(dirs, Tokens(path)) && Resolve(dirs, Tokens(path), ROOT) == 0
    requires Tokens(path) == parents + if name == [] then [] else [name]
    requires ParentOf(dirs, path) == Resolve(dirs, parents, ROOT)
    requires |name| < 256
    ensures var d := Resolve(dirs, parents, ROOT); d != 0 ==> IsNewName(dirs, path, d, name)
  {
    hide Resolve, Tokens, TreeOk, ParentOf;
    RootThere(dirs, used, place);
    var names := Tokens(path);
    assert forall k :: 0 <= k <= |parents| ==> parents[..k] == names[..k];
    assert parents[..|parents|] == parents;
    if name == [] {
      assert parents == names;
    } else {
      assert names[..|names| - 1] == parents;
      ResolveLast(dirs, parents, name, ROOT);
      var d := Resolve(dirs, parents, ROOT);
      if d != 0 {
        assert d in dirs;
        LookupZero(dirs, used, place, d, name);
      }
    }
  }

  /** Entries of a directory have inodes other than 0, so a name that is not found is not there. */
  lemma LookupZero(dirs: Dirs, used: set<nat>, place: map<nat, Place>, d: nat, name: Name)
    requires TreeOk(dirs, used, place) && d in dirs && Lookup(dirs[d], name) == 0
    ensures NoName(dirs[d], name)
  {
    assert DirOk(dirs, used, place, d);
    forall k | 0 <= k < |dirs[d]| ensures dirs[d][k].name != name {
      assert dirs[d][k] in dirs[d];
      if dirs[d][k].name == name {
        LookupSome(dirs[d], k, name);
      }
    }
  }

  lemma {:induction false} LookupSome(list: seq<Entry>, k: nat, name: Name)
    requires k < |list| && list[k].name == name && forall e :: e in list ==> e.inode != 0
    ensures Lookup(list, name) != 0
  {
    if list[0].name != name {
      LookupSome(list[1..], k - 1, name);
    }
  }

  /** Adding an entry to a directory of the tree changes its listing and no other. */
  lemma EntryListed(s: State, t: State, used: set<nat>, d: nat, name: Name, target: nat, more: nat)
    requires s.p > 0 && Tabled(s.p, s.disk, s.table, used) && d in DirsIn(s, used)
    requires EntryAdded(s, t, d, name, target, more)
    ensures t.p == s.p && Tabled(t.p, t.disk, t.table, used) && DirsIn(s, used).Keys == DirsIn(t, used).Keys
    ensures DirsIn(t, used) == DirsIn(s, used)[d := DirsIn(t, used)[d]]
    ensures Inserted(DirsIn(s, used)[d], DirsIn(t, used)[d], Entry(ShortName(name), target))
    ensures Used(t) == Used(s) && t.table.Keys == s.table.Keys
    ensures forall i :: i in s.table && i != d ==> t.table[i] == s.table[i]
  {
    hide Mounted, TreeOk, BlocksOf, IsDirectory, DirsOf, Elsewhere, Inserted,
         Appended, SplitOff, EntryPut, HasPlace, MustGrow, Listing, Used;
    OneFileUsed(s, t, d);
    TabledDirectory(s, d, used);
    DirsChanged(s.p, s.disk, s.table, used, t.disk, d, t.table[d]);
    ListingIs(t.p, t.disk, t.table, used, d);
  }

  lemma TabledDirectory(s: State, d: nat, used: set<nat>)
    requires s.p > 0 && Tabled(s.p, s.disk, s.table, used) && d in DirsIn(s, used)
    ensures d in s.table && d in used && IsDirMode(s.table[d].mode)
    ensures DirsIn(s, used)[d] == Listing(BlocksOf(s.p, s.disk, s.table[d]))
  {
    hide Content, BlockCount, Listing, IsDirectory;
  }

  lemma ListingIs(p: nat, disk: Disk, table: Table, used: set<nat>, d: nat)
    requires p > 0 && d in table && d in used && IsDirMode(table[d].mode)
    ensures d in DirsOf(p, disk, table, used) && DirsOf(p, disk, table, used)[d] == Listing(BlocksOf(p, disk, table[d]))
    ensures ListingOf(p, disk, table[d].block, table[d].size) == Listing(BlocksOf(p, disk, table[d]))
  {
  }

  /** The path's name has been added to its directory for an inode that was not listed: the path now
      leads to that inode, and every other path leads where it did. */
  ghost predicate CreatedAs(dirs: Dirs, dirs': Dirs, path: seq<Byte>, inode: nat) {
    && Resolve(dirs', Tokens(path), ROOT) == inode && Tokens(path) != []
    && var d, name := ParentOf(dirs, path), Tokens(path)[|Tokens(path)| - 1];
       && d in dirs && d in dirs' && dirs' == dirs[d := dirs'[d]] && Inserted(dirs[d], dirs'[d], Entry(name, inode))
       && forall other :: Resolve(dirs', other, ROOT) == if Names(dirs, other, d, name) then inode else
         Resolve(dirs, other, ROOT)
  }

  /** The records after a create request: the lowest inode that is not in use is that of a regular file without
      blocks, with one link, and directory `d` has the entry for it, with its record as it was but for one block
      more if the entry did not fit. */
  ghost predicate CreateRecords(s: State, t: State, d: nat, name: Name, i: nat) {
    && s.p > 0 && t.p == s.p && LowestFree(s, i) && d in s.table && d in t.table && i in t.table && d != i
    && t.table[i] == Record(0x8124, 1, 0, s.table[i].block)
    && Added(s.p, s.disk, s.table[d], t.disk, t.table[d], name, i)
  }

  /** And after a mkdir request: the new directory has two links and one block, and its parent one link more. */
  ghost predicate MkdirRecords(s: State, t: State, d: nat, name: Name, i: nat) {
    && s.p > 0 && t.p == s.p && LowestFree(s, i) && d in s.table && d in t.table && i in t.table && d != i
    && t.table[i].mode == 0x41ED && t.table[i].links == 2 && t.table[i].size == 4 * s.p
    && t.table[d].links == (s.table[d].links + 1) % 0x1_0000
    && Added(s.p, s.disk, s.table[d], t.disk, t.table[d].(links := s.table[d].links), name, i)
  }

  lemma CreateRecordsAre(s: State, t: State, u: State, d: nat, name: Name, i: nat)
    requires Allocated(s, t, i, FILE_MODE, 1) && EntryAdded(t, u, d, name, i, 0) && d in Used(s)
    ensures CreateRecords(s, u, d, name, i)
  {
    hide Mounted, Treed, Added, BlocksOf, Used, DirsIn, SameMeta, DataKept;
  }

  lemma AddedKept(p: nat, disk: Disk, r: Record, disk1: Disk, disk2: Disk, r': Record, name: Name, target: nat)
    requires p > 0 && Added(p, disk, r, disk1, r', name, target) && BlocksOf(p, disk2, r') == BlocksOf(p, disk1, r')
    ensures Added(p, disk, r, disk2, r', name, target)
  {
    hide Content, BlockCount, Listing, AllTiled, Rem, Inserted, Appended, SplitOff, EntryPut, HasPlace, MustGrow;
  }

  lemma MkdirRecordsAre(s: State, t: State, u: State, v: State, w: State, y: State, d: nat, name: Name, i: nat)
    requires Allocated(s, t, i, DIR_MODE, 2) && EntryAdded(t, u, d, name, i, 1) && d in Used(s)
    requires Ready(u, i, DOT, 0) && BlocksOf(u.p, u.disk, u.table[i]) == [] && u.table[i].size == 0
    requires EntryAdded(u, v, i, DOT, i, 0) && EntryAdded(v, w, i, DOTDOT, d, 0) && d in w.table && 0 < i < TWO32
    requires y.p == w.p && y.disk == w.disk && y.table ==
             w.table[d := Record(w.table[d].mode, (w.table[d].links + 1) % 0x1_0000, w.table[d].size, w.table[d].block)]
    ensures MkdirRecords(s, y, d, name, i)
  {
    hide Mounted, Treed, Added, BlocksOf, Used, DirsIn, SameMeta, DataKept, Ready, MustGrow;
    AddedRecord(t, u, d, name, i, 1);
    AddedRecord(u, v, i, DOT, i, 0);
    AddedRecord(v, w, i, DOTDOT, d, 0);
    AddedGrew(u, v, i, DOT, i);
    SecondReady(u, v, i, DOT, i);
    assert y.table[d].(links := s.table[d].links) == u.table[d];
    AddedKept(s.p, s.disk, s.table[d], u.disk, w.disk, u.table[d], name, i);
  }

  /** What an added entry does to the record of the directory. */
  lemma AddedRecord(s: State, t: State, d: nat, name: Name, target: nat, more: nat)
    requires EntryAdded(s, t, d, name, target, more)
    ensures s.p > 0 && t.p == s.p && d in s.table && d in t.table
    ensures t.table[d].mode == s.table[d].mode && t.table[d].links == s.table[d].links
    ensures !MustGrow(s.p, s.disk, s.table[d].block, s.table[d].size, name) ==> t.table[d].size == s.table[d].size
  {
    hide Mounted, BlocksOf, SameMeta, DataKept, IsDirectory, Inserted, Appended, SplitOff, EntryPut, HasPlace, MustGrow;
  }

  /** A create request: a new empty file under the path. */
  ghost predicate FileCreated(s: State, t: State, path: seq<Byte>, i: nat) {
    && s.p > 0 && t.p == s.p && i !in Used(s) && Used(t) == Used(s) + {i}
    && CreateRecords(s, t, Parent(s, path), LastName(path), i)
    && CreatedAs(Directories(s), Directories(t), path, i)
    && Untouched(s.p, s.disk, s.table, t.disk, t.table, {i} + {Parent(s, path)}) && SameMeta(s.owner, t.owner)
    && DataKept(s.owner, s.disk, t.owner, t.disk, {Parent(s, path)})
  }

  /** Creating failed: the lowest inode that is not in use has the mode and links for the new node all the same. */
  ghost predicate NotCreated(s: State, t: State, i: nat, mode: nat, links: nat) {
    && s.p > 0 && t.p == s.p && t.disk == s.disk && t.owner == s.owner && t.blocks == s.blocks
    && Used(t) == Used(s) && Directories(t) == Directories(s)
    && LowestFree(s, i) && t.table == s.table[i := Record(mode, links, 0, s.table[i].block)]
  }

  /** Inode `i` has been marked free again. */
  ghost predicate InodeFreed(s: State, t: State, i: nat) {
    && t == s.(inodes := t.inodes) && t.inodes.space == s.inodes.space && Covers(t.inodes.space, t.inodes.bitmap)
    && Counted(t.inodes.bitmap, t.inodes.groupFree, t.inodes.totalFree)
    && forall m :: Free(s.inodes.space, t.inodes.bitmap, m) <==> Free(s.inodes.space, s.inodes.bitmap, m) || m == i
  }

  lemma FreedMounted(s: State, t: State, i: nat)
    requires Mounted(s) && InodeFreed(s, t, i) && i in s.table
    ensures Mounted(t) && Used(t) == Used(s) - {i}
  {
    hide Good, Tally, Geometry, Settled, Covers, Counted, Free, FilesOf;
  }

  lemma GivenUp(s: State, t: State, u: State, i: nat, mode: nat, links: nat)
    requires Valid(s) && Allocated(s, t, i, mode, links) && InodeFreed(t, u, i)
    ensures Valid(u) && NotCreated(s, u, i, mode, links)
  {
    hide Mounted, Elsewhere, Sane, DirsOf, BlocksOf, Free, InodeFreed;
    FreedMounted(t, u, i);
    FreedOnly(t, u, i);
    assert Used(u) == Used(s);
  }

  lemma FreedOnly(s: State, t: State, i: nat)
    requires InodeFreed(s, t, i)
    ensures t == s.(inodes := t.inodes)
  {
  }

  /** The directory of the new entry is as ready once the inode is allocated. */
  lemma StillReady(s: State, t: State, i: nat, mode: nat, links: nat, d: nat, name: Name, more: nat)
    requires Allocated(s, t, i, mode, links) && Ready(s, d, name, more) && d in Used(s)
    ensures Ready(t, d, name, more) && t.table[d] == s.table[d]
  {
    hide Mounted, Elsewhere, Treed, DirsIn, IsDirectory, Room, Used;
  }

  lemma FileMode()
    ensures !IsDirMode(FILE_MODE)
  {
  }

  lemma NameFits(name: Name)
    requires |name| < 256
    ensures ShortName(name) == name
  {
  }

  /** What creating a file amounts to, once its inode is allocated. */
  lemma FileLinked(s: State, t: State, u: State, path: seq<Byte>, d: nat, name: Name, i: nat)
    requires Valid(s) && Allocated(s, t, i, FILE_MODE, 1) && d in Used(s) && IsNewName(Directories(s), path, d, name)
    requires EntryAdded(t, u, d, name, i, 0) && name == LastName(path)
    ensures Valid(u) && FileCreated(s, u, path, i)
  {
    hide Mounted, Elsewhere, TreeOk, BlocksOf, IsDirectory, DirsOf, Resolve, Tokens, NoName, Inserted, Unlisted, Names,
         Added, Used, Untouched, SameMeta, DataKept, EntryAdded, IsDirMode, ShortName, CreateRecords, LastName;
    CreateRecordsAre(s, t, u, d, name, i);
    var used, dirs := Used(s), Directories(s);
    ValidFacts(s);
    FileMode();
    NameFits(name);
    EntryListed(t, u, used, d, name, i, 0);
    var list := DirsIn(u, used)[d];
    FileUsed(u.p, u.disk, u.table, used, i);
    TreeAddFile(dirs, used, s.place, d, list, name, i);
    UnusedUnlisted(dirs, used, s.place, i);
    UntouchedOne(s.p, s.disk, s.table, t.disk, t.table, i);
    EntryFrame(t, u, d, name, i, 0);
    UntouchedMore(s.p, s.disk, s.table, t.disk, t.table, {i}, u.disk, u.table, d);
    forall other ensures Resolve(dirs[d := list], other, ROOT) == if Names(dirs, other, d, name) then i else
      Resolve(dirs, other, ROOT) {
      CreateResolves(dirs, d, list, name, i, other);
    }
  }

  /** A create or mkdir request for a path that is there: the directory has a second entry for the name, with
      an inode that is not in use. */
  ghost predicate DoubleEntry(s: State, t: State, path: seq<Byte>, i: nat) {
    && s.p > 0 && t.p == s.p && Used(t) == Used(s) && i !in Used(s)
    && var d := Parent(s, path);
       && d in Directories(s) && d in Directories(t) && Directories(t) == Directories(s)[d := Directories(t)[d]]
       && Inserted(Directories(s)[d], Directories(t)[d], Entry(LastName(path), i))
  }

  /** That is not a valid state. */
  lemma DoubleInvalid(s: State, t: State, path: seq<Byte>, i: nat)
    requires DoubleEntry(s, t, path, i)
    ensures !Valid(t)
  {
    hide Mounted, Inserted, Tabled, Used, Directories, LastName, ParentOf, TreeOk;
    var d, e := Parent(s, path), Entry(LastName(path), i);
    InsertedMembers(Directories(s)[d], Directories(t)[d], e);
    if Valid(t) {
      ValidTree(t);
      ListedUsed(Directories(t), Used(t), t.place, d, e);
    }
  }

  lemma ValidTree(s: State)
    requires Valid(s)
    ensures s.p > 0 && TreeOk(Directories(s), Used(s), s.place)
  {
    hide Mounted, TreeOk, Tabled;
  }

  /** A path that leads somewhere has a directory part that does. */
  lemma ParentOfTarget(s: State, path: seq<Byte>)
    requires s.p > 0 && path != [] && Parent(s, path) == 0
    ensures Target(s, path) == 0
  {
    hide Directories, Tokens, Resolve;
    var dirs, names := Directories(s), Tokens(path);
    if names != [] && path[|path| - 1] != SLASH {
      var k := |names| - 1;
      assert names == names[..k] + [names[k]];
      ResolveLast(dirs, names[..k], names[k], ROOT);
    }
  }

  /** What creating a file amounts to when the path is there already. */
  lemma FileTwice(s: State, t: State, u: State, v: State, path: seq<Byte>, d: nat, name: Name, i: nat)
    requires Valid(s) && Allocated(s, t, i, FILE_MODE, 1) && d in Directories(s) && d == Parent(s, path)
    requires name == LastName(path) && |name| < 256 && EntryAdded(t, u, d, name, i, 0) && InodeFreed(u, v, i)
    ensures DoubleEntry(s, v, path, i) && !Valid(v) && CreateRecords(s, v, d, name, i)
  {
    hide Mounted, Elsewhere, TreeOk, BlocksOf, IsDirectory, DirsOf, Inserted, Added, SameMeta, DataKept, EntryAdded,
         ShortName, LastName, ParentOf, InodeFreed, Used, Tabled;
    NameFits(name);
    DirUsedToo(s, d);
    CreateRecordsAre(s, t, u, d, name, i);
    EntryListed(t, u, Used(s), d, name, i, 0);
    EntryFrame(t, u, d, name, i, 0);
    AllocatedTable(s, t, i, FILE_MODE, 1);
    UsedAgain(s, u, v, i);
    DoubleInvalid(s, v, path, i);
  }

  lemma DirUsedToo(s: State, d: nat)
    requires s.p > 0 && d in Directories(s)
    ensures d in Used(s)
  {
    hide Listing, BlocksOf, IsDirMode, Used;
  }

  lemma AllocatedTable(s: State, t: State, i: nat, mode: nat, links: nat)
    requires Allocated(s, t, i, mode, links)
    ensures i in t.table && i !in Used(s) && Used(t) == Used(s) + {i}
  {
    hide Mounted, Elsewhere, Treed, DirsIn, Used;
  }

  lemma UsedAgain(s: State, u: State, v: State, i: nat)
    requires InodeFreed(u, v, i) && Mounted(u) && Used(u) == Used(s) + {i} && i !in Used(s) && i in u.table
    ensures Used(v) == Used(s) && v == u.(inodes := v.inodes)
  {
    FreedMounted(u, v, i);
  }

  lemma EntryFrame(s: State, t: State, d: nat, name: Name, target: nat, more: nat)
    requires EntryAdded(s, t, d, name, target, more)
    ensures Mounted(t) && t.p == s.p && t.inodes == s.inodes && t.place == s.place && s.p > 0
    ensures SameMeta(s.owner, t.owner)
    ensures DataKept(s.owner, s.disk, t.owner, t.disk, {d})
    ensures Elsewhere(s.p, s.disk, s.table, t.disk, t.table, d)
  {
    hide Mounted;
  }

  /** The first entry with inode `target` has been removed from directory `d`, on disk. */
  ghost predicate EntryRemoved(s: State, t: State, d: nat, target: nat) {
    && s.p > 0 && t == s.(disk := t.disk) && Mounted(t) && d in s.table
    && Elsewhere(s.p, s.disk, s.table, t.disk, t.table, d)
    && IsDirectory(t.p, t.disk, t.table[d].block, t.table[d].size)
    && Listing(BlocksOf(t.p, t.disk, t.table[d])) == WithoutFirst(Listing(BlocksOf(s.p, s.disk, s.table[d])), target)
    && DataKept(s.owner, s.disk, t.owner, t.disk, {d})
  }

  /** Directory `d` can be searched for an entry. */
  ghost predicate Searchable(s: State, d: nat) {
    && Mounted(s) && d in s.table && s.table[d].mode != 0 && (forall i :: i in s.table ==> s.table[i].size < TWO32)
    && IsDirectory(s.p, s.disk, s.table[d].block, s.table[d].size)
  }

  lemma SearchFacts(s: State, d: nat)
    requires Searchable(s, d)
    ensures Mounted(s) && (s.p == 256 || s.p == 512 || s.p == 1024) && d in s.table && s.table[d].mode != 0
    ensures IsDirectory(s.p, s.disk, s.table[d].block, s.table[d].size)
    ensures forall i :: i in s.table ==> s.table[i].size < TWO32
  {
  }

  lemma RemovedEnds(s: State, t: State, d: nat, target: nat)
    requires Searchable(s, d) && t == s.(disk := t.disk) && Mounted(t)
    requires IsDirectory(t.p, t.disk, t.table[d].block, t.table[d].size)
    requires OthersSame(s.p, FilesOf(s.p, s.table), d, s.disk, t.disk)
    requires DataKept(s.owner, s.disk, t.owner, t.disk, {d})
    requires ListingOf(s.p, t.disk, t.table[d].block, t.table[d].size) ==
             WithoutFirst(ListingOf(s.p, s.disk, s.table[d].block, s.table[d].size), target)
    ensures EntryRemoved(s, t, d, target)
  {
    hide Mounted, IsDirectory, Elsewhere, OthersSame, FilesOf, WithoutFirst, Content, Listing, BlockCount, DataKept;
    SearchFacts(s, d);
    ElsewhereSame(s.p, s.disk, s.table, t.disk, d, s.table[d]);
    assert s.table == s.table[d := s.table[d]];
  }

  /** The file `a` has been cut to nothing and its inode marked free. */
  ghost predicate FileGone(s: State, t: State, a: nat) {
    && s.p > 0 && t.p == s.p && t.place == s.place && Mounted(t) && a in s.table && a in t.table
    && Elsewhere(s.p, s.disk, s.table, t.disk, t.table, a) && t.table[a] == Record(0, 0, 0, t.table[a].block)
    && Used(t) == Used(s) - {a}
    && SameMeta(s.owner, t.owner) && DataKept(s.owner, s.disk, t.owner, t.disk, {a})
    && Within(t.owner, s.owner)
  }

  lemma GoneEnds(s: State, t: State, a: nat)
    requires s.p == 256 || s.p == 512 || s.p == 1024
    requires t.p == s.p && t.place == s.place && Mounted(t) && a in s.table
    requires forall i :: i in s.table ==> s.table[i].size < TWO32
    requires a in t.table && t.table == s.table[a := t.table[a]] && t.table[a] == Record(0, 0, 0, t.table[a].block)
    requires OthersSame(s.p, FilesOf(s.p, s.table), a, s.disk, t.disk) && SameMeta(s.owner, t.owner)
    requires DataKept(s.owner, s.disk, t.owner, t.disk, {a}) && Within(t.owner, s.owner)
    requires t.inodes.space == s.inodes.space
    requires forall m :: Free(s.inodes.space, t.inodes.bitmap, m) <==>
             Free(s.inodes.space, s.inodes.bitmap, m) || m == a
    ensures FileGone(s, t, a)
  {
    hide Mounted, Elsewhere, OthersSame, FilesOf, Free, DataKept, Within;
    ElsewhereSame(s.p, s.disk, s.table, t.disk, a, t.table[a]);
  }

  /** The directories after the entry of `a` is removed from `d` and `a` is given up. */
  lemma GoneDirs(s: State, t: State, u: State, d: nat, a: nat)
    requires Valid(s) && d in Directories(s) && a in Used(s) && EntryRemoved(s, t, d, a) && FileGone(t, u, a)
    ensures u.p == s.p && Used(u) == Used(s) - {a} && Tabled(u.p, u.disk, u.table, Used(s) - {a})
    ensures DirsIn(u, Used(s) - {a}) == Directories(s)[d := WithoutFirst(Directories(s)[d], a)] - {a}
  {
    hide Mounted, Elsewhere, TreeOk, BlocksOf, IsDirectory, DirsOf, Listing, WithoutFirst, Used, SameMeta, DataKept,
         Within;
    var used, dirs := Used(s), Directories(s);
    ValidFacts(s);
    DirectoryFacts(s, d, used);
    assert t.table == s.table[d := t.table[d]] && Used(t) == used by { SameInodes(s, t, d, a); }
    DirsChanged(s.p, s.disk, s.table, used, t.disk, d, t.table[d]);
    ListingIs(t.p, t.disk, t.table, used, d);
    assert DirsOf(t.p, t.disk, t.table, used) == dirs[d := WithoutFirst(dirs[d], a)];
    GoneFacts(t, u, a);
    Unused(t.p, t.disk, t.table, used, u.disk, a, u.table[a]);
  }

  /** What removing the entry of `a` from directory `d` and giving up `a` amounts to. */
  lemma EntryAndFileGone(s: State, t: State, u: State, d: nat, k: nat, a: nat)
    requires Valid(s) && d in Directories(s) && k < |Directories(s)[d]| && !IsDot(Directories(s)[d][k].name)
    requires a == Directories(s)[d][k].inode && a in Used(s) && Childless(Directories(s), a)
    requires EntryRemoved(s, t, d, a) && FileGone(t, u, a)
    ensures u.p == s.p && Valid(u) && Used(u) == Used(s) - {a} && Removed(Directories(s), Directories(u), d, a, k)
    ensures Untouched(s.p, s.disk, s.table, u.disk, u.table, {d} + {a}) && SameMeta(s.owner, u.owner)
    ensures UnlinkRecords(s, u, d, a)
    ensures DataKept(s.owner, s.disk, u.owner, u.disk, {d} + {a}) && Within(u.owner, s.owner)
  {
    hide Mounted, Elsewhere, TreeOk, BlocksOf, IsDirectory, DirsOf, Removed, NoName, Listing, Untouched, WithoutFirst,
         Used, SameMeta, DataKept, Within, Childless, Tabled;
    var used, dirs := Used(s), Directories(s);
    ValidTree(s);
    GoneDirs(s, t, u, d, a);
    EntryRemovable(dirs, used, s.place, d, k);
    TreeRemove(dirs, used, s.place, d, k);
    RemovedIs(dirs, d, a, k);
    UnlinkRecordsAre(s, t, u, d, a);
    UntouchedOne(s.p, s.disk, s.table, t.disk, t.table, d);
    UntouchedMore(s.p, s.disk, s.table, t.disk, t.table, {d}, u.disk, u.table, a);
    DataKeptTrans(s.owner, s.disk, t.owner, t.disk, {d}, u.owner, u.disk, {a});
  }

  lemma RemovedIs(dirs: Dirs, d: nat, a: nat, k: nat)
    requires d in dirs && Removed(dirs, dirs[d := WithoutFirst(dirs[d], a)] - {a}, d, a, k)
    ensures d != a
  {
  }

  lemma GoneFacts(s: State, t: State, a: nat)
    requires FileGone(s, t, a)
    ensures t.table == s.table[a := t.table[a]]
  {
    hide Mounted, BlocksOf;
  }

  lemma SameInodes(s: State, t: State, d: nat, a: nat)
    requires EntryRemoved(s, t, d, a)
    ensures d in s.table && t.table == s.table[d := t.table[d]] && Used(t) == Used(s)
  {
    hide Mounted, BlocksOf, Elsewhere;
  }

  /** A path that can be removed: it goes through directories and ends in a name. */
  predicate CanRemove(s: State, path: seq<Byte>) {
    && s.p > 0 && SLASH in path && |path| < TWO16 && path[|path| - 1] != SLASH && Tokens(path) != []
    && ThroughDirs(Directories(s), Tokens(path))
  }

  /** Unlink requests are for files, or for directories by their own names. */
  predicate CanUnlink(s: State, path: seq<Byte>) {
    CanRemove(s, path) && (Target(s, path) in Directories(s) ==> !IsDot(Tokens(path)[|Tokens(path)| - 1]))
  }

  /** Rmdir requests are for directories, by their own names. */
  predicate CanRmdir(s: State, path: seq<Byte>) {
    && CanRemove(s, path) && !IsDot(Tokens(path)[|Tokens(path)| - 1])
    && (Target(s, path) == 0 || Target(s, path) in Directories(s))
  }

  lemma {:induction false} LookupIndex(list: seq<Entry>, name: Name) returns (k: nat)
    requires Lookup(list, name) != 0
    ensures k < |list| && list[k] == Entry(name, Lookup(list, name))
  {
    if list[0].name == name {
      k := 0;
    } else {
      k := LookupIndex(list[1..], name);
      k := k + 1;
    }
  }

  lemma ThroughParents(dirs: Dirs, path: seq<Byte>, dir: seq<Byte>, name: Name)
    requires ThroughDirs(dirs, Tokens(path)) && CutAt(path, dir, name)
    ensures ThroughDirs(dirs, Tokens(dir))
  {
    hide Tokens, Resolve;
    forall j | 0 <= j < |Tokens(dir)| ensures Tokens(dir)[..j] == Tokens(path)[..j] {
    }
  }

  lemma FindEntry(s: State, path: seq<Byte>, dir: seq<Byte>, name: Name) returns (k: nat)
    requires Valid(s) && CanRemove(s, path) && CutAt(path, dir, name)
    ensures ThroughDirs(Directories(s), Tokens(dir)) && name != []
    ensures var d, a := Resolve(Directories(s), Tokens(dir), ROOT), Target(s, path);
            && d == Parent(s, path)
            && (a != 0 ==>
                  && d != 0 && d in Directories(s) && k < |Directories(s)[d]| && Directories(s)[d][k] == Entry(name, a)
                  && d in Used(s) && a in Used(s) && a in s.table)
  {
    hide Mounted, Tokens, Resolve, TreeOk, ThroughDirs;
    var dirs := Directories(s);
    ValidFacts(s);
    RootThere(dirs, Used(s), s.place);
    ParentIs(dirs, path, dir, name);
    ThroughParents(dirs, path, dir, name);
    var parents := Tokens(dir);
    ResolveLast(dirs, parents, name, ROOT);
    k := 0;
    if Target(s, path) != 0 {
      k := LookupIndex(ListOf(dirs, Resolve(dirs, parents, ROOT)), name);
    }
  }

  /** In a directory "." is the directory itself and ".." is a directory. */
  lemma DotsAreDirs(s: State, d: nat, k: nat)
    requires Valid(s) && d in Directories(s) && k < |Directories(s)[d]| && IsDot(Directories(s)[d][k].name)
    ensures Directories(s)[d][k].inode in Directories(s)
  {
    hide Mounted, Tabled;
    assert DirOk(Directories(s), Used(s), s.place, d);
    assert Directories(s)[d][k] in Directories(s)[d];
  }

  /** An unlink request: the paths that led to the file lead nowhere, every other path leads where it
      did, and the file's inode is free. */
  ghost predicate FileUnlinked(s: State, t: State, path: seq<Byte>) {
    && s.p > 0 && t.p == s.p && Target(s, path) in Used(s) && Used(t) == Used(s) - {Target(s, path)}
    && (forall names :: Resolve(Directories(t), names, ROOT) ==
                        if Resolve(Directories(s), names, ROOT) == Target(s, path) then 0 else
                          Resolve(Directories(s), names, ROOT))
    && (exists k :: Removed(Directories(s), Directories(t), Parent(s, path), Target(s, path), k))
    && Untouched(s.p, s.disk, s.table, t.disk, t.table, {Parent(s, path)} + {Target(s, path)})
    && SameMeta(s.owner, t.owner)
    && DataKept(s.owner, s.disk, t.owner, t.disk, {Parent(s, path)} + {Target(s, path)}) && Within(t.owner, s.owner)
  }

  /** The records after an unlink request: inode `a` has no mode, no links and no bytes, and its directory `d` is as
      it was. */
  ghost predicate UnlinkRecords(s: State, t: State, d: nat, a: nat) {
    && a in t.table && t.table[a] == Record(0, 0, 0, t.table[a].block)
    && d in s.table && d in t.table && t.table[d] == s.table[d]
  }

  /** And after a rmdir request: `d` has one link less. */
  ghost predicate RmdirRecords(s: State, t: State, d: nat, a: nat) {
    && a in t.table && t.table[a] == Record(0, 0, 0, t.table[a].block)
    && d in s.table && d in t.table && t.table[d] == s.table[d].(links := (s.table[d].links + 0xFFFF) % 0x1_0000)
  }

  lemma UnlinkRecordsAre(s: State, t: State, u: State, d: nat, a: nat)
    requires EntryRemoved(s, t, d, a) && FileGone(t, u, a) && d != a
    ensures UnlinkRecords(s, u, d, a)
  {
    hide Mounted, BlocksOf, SameMeta, DataKept, Used, WithoutFirst, IsDirectory;
  }

  ghost predicate UnlinkServed(s: State, t: State, path: seq<Byte>, result: int) {
    && s.p > 0
    && var a := Target(s, path);
       if a == 0 || (a in s.table && s.table[a].mode == 0) then result == -2 && t == s
       else
         && result == 0 && UnlinkRecords(s, t, Parent(s, path), a)
         && if a in Directories(s) then DirRemoved(s, t, path) else FileUnlinked(s, t, path)
  }

  /** A directory has been unlinked that had subdirectories: these are left without a place in the tree. */
  ghost predicate Orphaned(s: State, t: State, path: seq<Byte>) {
    && s.p > 0 && t.p == s.p
    && var d, a := Parent(s, path), Target(s, path);
       && d in Directories(s) && Used(t) == Used(s) - {a} && UnlinkRecords(s, t, d, a)
       && Directories(t) == Directories(s)[d := WithoutFirst(Directories(s)[d], a)] - {a}
  }

  lemma UnlinkEnds(s: State, t: State, u: State, path: seq<Byte>, d: nat, k: nat, a: nat)
    requires s.p > 0 && Valid(s) && a == Target(s, path) && a != 0 && d == Parent(s, path) && a !in Directories(s)
    requires d in Directories(s) && k < |Directories(s)[d]| && Directories(s)[d][k].inode == a && a in Used(s)
    requires EntryRemoved(s, t, d, a) && FileGone(t, u, a)
    ensures Valid(u) && FileUnlinked(s, u, path) && UnlinkRecords(s, u, d, a)
  {
    hide UnlinkRecords, Mounted, Treed, DirsIn, Used, Tokens, Resolve, Removed, EntryRemoved, FileGone,
         Untouched, ParentOf, SameMeta, DataKept, Within;
    if IsDot(Directories(s)[d][k].name) {
      DotsAreDirs(s, d, k);
    }
    EntryAndFileGone(s, t, u, d, k, a);
    forall names ensures Resolve(Directories(u), names, ROOT) ==
                         if Resolve(Directories(s), names, ROOT) == a then 0 else Resolve(Directories(s), names, ROOT) {
      UnlinkResolves(Directories(s), Directories(u), d, a, k, names);
    }
  }

  /** The same for a directory without subdirectories. */
  lemma DirectoryGone(s: State, t: State, u: State, path: seq<Byte>, d: nat, k: nat, a: nat)
    requires s.p > 0 && Valid(s) && a == Target(s, path) && a != 0 && d == Parent(s, path)
    requires Childless(Directories(s), a)
    requires d in Directories(s) && k < |Directories(s)[d]| && Directories(s)[d][k].inode == a && a in Used(s)
    requires !IsDot(Directories(s)[d][k].name) && EntryRemoved(s, t, d, a) && FileGone(t, u, a)
    ensures Valid(u) && DirRemoved(s, u, path) && UnlinkRecords(s, u, d, a)
  {
    hide UnlinkRecords, Mounted, Treed, DirsIn, Used, Tokens, Resolve, Removed, EntryRemoved, FileGone, Untouched,
         ParentOf, Through, SameMeta, DataKept, Childless, Within;
    EntryAndFileGone(s, t, u, d, k, a);
    assert {d} + {a} + {d} == {d} + {a};
    forall names ensures Resolve(Directories(u), names, ROOT) ==
                         if Through(Directories(s), names, a) then 0 else Resolve(Directories(s), names, ROOT) {
      RemoveResolves(Directories(s), Directories(u), d, a, k, names);
    }
  }

  /** And for one with subdirectories, after which the state is not valid. */
  lemma DirectoryOrphans(s: State, t: State, u: State, path: seq<Byte>, d: nat, k: nat, a: nat)
    requires s.p > 0 && Valid(s) && a == Target(s, path) && d == Parent(s, path) && !Childless(Directories(s), a)
    requires d in Directories(s) && k < |Directories(s)[d]| && Directories(s)[d][k].inode == a && a in Used(s)
    requires !IsDot(Directories(s)[d][k].name) && EntryRemoved(s, t, d, a) && FileGone(t, u, a)
    ensures !Valid(u) && Orphaned(s, u, path)
  {
    hide Mounted, Treed, DirsIn, Used, Tokens, Resolve, EntryRemoved, FileGone, ParentOf, Childless, WithoutFirst,
         Tabled, TreeOk, UnlinkRecords;
    ValidTree(s);
    BelowOther(Directories(s), Used(s), s.place, d, k);
    UnlinkRecordsAre(s, t, u, d, a);
    GoneDirs(s, t, u, d, a);
    TreeBroken(Directories(s), Used(s), s.place, d, k, WithoutFirst(Directories(s)[d], a), u.place);
    if Valid(u) {
      ValidTree(u);
    }
  }

  lemma RemoveFacts(s: State, path: seq<Byte>)
    requires CanRemove(s, path)
    ensures s.p > 0 && SLASH in path && |path| < TWO16 && path[|path| - 1] != SLASH
    ensures ThroughDirs(Directories(s), Tokens(path))
  {
  }

  lemma DirectorySearchable(s: State, d: nat)
    requires Valid(s) && d in Directories(s)
    ensures Searchable(s, d)
  {
    hide Mounted, TreeOk;
    DirectoryFacts(s, d, Used(s));
  }

  lemma AfterRemoval(s: State, t: State, d: nat, target: nat)
    requires EntryRemoved(s, t, d, target)
    ensures t == s.(disk := t.disk) && Mounted(t) && Used(t) == Used(s)
  {
    hide Mounted;
  }

  /** The links of directory `d` have changed, and nothing else. */
  lemma LinksKept(s: State, t: State, d: nat, links: nat)
    requires Valid(s) && d in s.table
    requires t == s.(table := s.table[d := Record(s.table[d].mode, links, s.table[d].size, s.table[d].block)])
    ensures Valid(t) && Used(t) == Used(s) && Directories(t) == Directories(s)
    ensures Elsewhere(s.p, s.disk, s.table, t.disk, t.table, d)
  {
    hide Good, Tally, Geometry, Settled, Covers, Counted, TreeOk, FilesOf, DirsOf, Free, Elsewhere;
    assert t.table.Keys == s.table.Keys && Used(t) == Used(s);
    LinksChanged(s.p, s.disk, s.table, Used(s), d, links);
  }

  /** A rmdir request: the paths that led to the directory or through it lead nowhere, every other
      path leads where it did, and the directory's inode is free. */
  ghost predicate DirRemoved(s: State, t: State, path: seq<Byte>) {
    && s.p > 0 && t.p == s.p && Target(s, path) in Used(s) && Used(t) == Used(s) - {Target(s, path)}
    && (forall names :: Resolve(Directories(t), names, ROOT) ==
                        if Through(Directories(s), names, Target(s, path)) then 0 else
                          Resolve(Directories(s), names, ROOT))
    && (exists k :: Removed(Directories(s), Directories(t), Parent(s, path), Target(s, path), k))
    && Untouched(s.p, s.disk, s.table, t.disk, t.table, {Parent(s, path)} + {Target(s, path)} + {Parent(s, path)})
    && SameMeta(s.owner, t.owner) && Within(t.owner, s.owner)
    && DataKept(s.owner, s.disk, t.owner, t.disk, {Parent(s, path)} + {Target(s, path)})
  }

  /** Only a directory with two entries is removed. */
  ghost predicate RmdirServed(s: State, t: State, path: seq<Byte>, result: int) {
    && s.p > 0
    && var a := Target(s, path);
       if a == 0 then result == -2 && t == s
       else if a in Directories(s) && |Directories(s)[a]| != 2 then result == -39 && t == s
       else result == 0 && DirRemoved(s, t, path) && RmdirRecords(s, t, Parent(s, path), a)
  }

  lemma RmdirEnds(s: State, t: State, u: State, v: State, path: seq<Byte>, d: nat, k: nat, a: nat, links: nat)
    requires Valid(s) && CanRmdir(s, path) && a == Target(s, path) && a != 0 && d == Parent(s, path)
    requires d in Directories(s) && k < |Directories(s)[d]| && a in Used(s)
    requires Directories(s)[d][k] == Entry(Tokens(path)[|Tokens(path)| - 1], a) && |Directories(s)[a]| == 2
    requires EntryRemoved(s, t, d, a) && FileGone(t, u, a) && d in u.table
    requires v == u.(table := u.table[d := Record(u.table[d].mode, links, u.table[d].size, u.table[d].block)])
    requires links == (u.table[d].links + 0xFFFF) % 0x1_0000
    ensures Valid(v) && DirRemoved(s, v, path) && RmdirRecords(s, v, d, a)
  {
    hide Mounted, Treed, DirsIn, Used, Tokens, Resolve, Removed, EntryRemoved, FileGone, Untouched, ParentOf,
         Elsewhere, Through, SameMeta, DataKept, Childless, Within;
    ValidTree(s);
    TwoEntries(Directories(s), Used(s), s.place, a);
    EntryAndFileGone(s, t, u, d, k, a);
    LinksKept(u, v, d, links);
    UntouchedMore(s.p, s.disk, s.table, u.disk, u.table, {d} + {a}, v.disk, v.table, d);
    forall names ensures Resolve(Directories(u), names, ROOT) ==
                         if Through(Directories(s), names, a) then 0 else Resolve(Directories(s), names, ROOT) {
      RemoveResolves(Directories(s), Directories(u), d, a, k, names);
    }
  }

  lemma StillThere(s: State, t: State, u: State, d: nat, a: nat)
    requires EntryRemoved(s, t, d, a) && FileGone(t, u, a)
    ensures d in u.table && (d != a ==> u.table[d] == s.table[d])
  {
    hide Mounted, BlocksOf;
  }

  /** A mkdir request: a directory that lists exactly "." and ".." under the path; every path that led
      somewhere leads there still, and a path that led nowhere does, or passes through the new name. */
  ghost predicate DirCreated(s: State, t: State, path: seq<Byte>, i: nat) {
    && s.p > 0 && DirEntered(s, t, path, i) && MkdirRecords(s, t, Parent(s, path), LastName(path), i)
  }

  ghost predicate DirEntered(s: State, t: State, path: seq<Byte>, i: nat) {
    && s.p > 0 && t.p == s.p && i !in Used(s) && Used(t) == Used(s) + {i} && Target(t, path) == i && Tokens(path) != []
    && var d, name := Parent(s, path), Tokens(path)[|Tokens(path)| - 1];
       && d in Directories(s) && d in Directories(t)
       && Directories(t) == Directories(s)[d := Directories(t)[d]][i := [Entry([46], i), Entry([46, 46], d)]]
       && Inserted(Directories(s)[d], Directories(t)[d], Entry(name, i))
       && (forall names :: Resolve(Directories(s), names, ROOT) != 0 || !Passes(Directories(s), names, d, name) ==>
                           Resolve(Directories(t), names, ROOT) == Resolve(Directories(s), names, ROOT))
       && Untouched(s.p, s.disk, s.table, t.disk, t.table, {i} + {d}) && SameMeta(s.owner, t.owner)
       && DataKept(s.owner, s.disk, t.owner, t.disk, {d} + {i})
  }

  /** A directory without blocks can take "." and, after that, "..". */
  lemma FreshReady(s: State, i: nat)
    requires Mounted(s) && i in s.table && s.table[i].mode != 0 && s.table[i].size == 0
    requires (forall j :: j in s.table ==> s.table[j].size < TWO32) && s.blocks.totalFree >= 1
    ensures Ready(s, i, DOT, 0) && BlocksOf(s.p, s.disk, s.table[i]) == []
  {
    hide Good, Tally, FilesOf, WordsOf, Content, MustGrow, Covers, Counted, Numbered;
    EmptyCount(s.p, s.disk, s.table[i].block);
  }

  lemma EmptyCount(p: nat, disk: Disk, ip: seq<nat>)
    requires p > 0
    ensures BlockCount(p, 0) == 0 && |NewSlots(p, 0)| == 1 && Content(p, disk, ip, 0) == [] && Rem(0, 4 * p) == 0
  {
  }

  lemma SecondReady(s: State, t: State, i: nat, name: Name, target: nat)
    requires Ready(s, i, name, 0) && BlocksOf(s.p, s.disk, s.table[i]) == [] && s.table[i].size == 0
    requires EntryAdded(s, t, i, name, target, 0) && 0 < target < TWO32
    ensures Ready(t, i, DOTDOT, 0) && |BlocksOf(t.p, t.disk, t.table[i])| == 1
    ensures !MustGrow(t.p, t.disk, t.table[i].block, t.table[i].size, DOTDOT)
    ensures Appended([], BlocksOf(t.p, t.disk, t.table[i]), name, target)
    ensures 1024 <= |BlocksOf(t.p, t.disk, t.table[i])[0]| < TWO16
  {
    hide Mounted, IsDirectory, FilesOf, Content, Covers, Counted, Numbered, Elsewhere, Listing,
         Appended, SplitOff, EntryPut, HasPlace, Full, Inserted, FirstFit;
    AddedGrew(s, t, i, name, target);
    var c := BlocksOf(t.p, t.disk, t.table[i]);
    TableBlocks(t, i);
    FreshDirectory(t.p, c, c, name, target, DOTDOT, target);
    OneFileUsed(s, t, i);
    OneBlock(t.p, t.disk, t.table[i]);
  }

  lemma OneBlock(p: nat, disk: Disk, r: Record)
    requires p > 0 && |BlocksOf(p, disk, r)| == 1
    ensures MustGrow(p, disk, r.block, r.size, DOTDOT) == Full(BlocksOf(p, disk, r), 1, Need(DOTDOT))
  {
    hide Full;
    ContentLength(p, disk, r.block, BlockCount(p, r.size));
  }

  lemma AddedGrew(s: State, t: State, i: nat, name: Name, target: nat)
    requires s.p > 0 && i in s.table && BlocksOf(s.p, s.disk, s.table[i]) == [] && s.table[i].size == 0
    requires EntryAdded(s, t, i, name, target, 0)
    ensures i in t.table && t.p > 0 && Appended([], BlocksOf(t.p, t.disk, t.table[i]), name, target)
    ensures |BlocksOf(t.p, t.disk, t.table[i])| == 1 && t.table[i].size == 4 * s.p
    ensures s.p == 256 || s.p == 512 || s.p == 1024
  {
    hide Good, Tally, FilesOf, WordsOf, Covers, Counted, Numbered, Elsewhere, Listing, Inserted, IsDirectory;
    EmptyCount(s.p, s.disk, s.table[i].block);
    assert MustGrow(s.p, s.disk, s.table[i].block, 0, name);
  }

  /** The blocks of a file of the table have the block size. */
  lemma TableBlocks(s: State, i: nat)
    requires Mounted(s) && i in s.table && s.table[i].size < TWO32
    ensures forall k :: 0 <= k < |BlocksOf(s.p, s.disk, s.table[i])| ==>
            |BlocksOf(s.p, s.disk, s.table[i])[k]| == 4 * s.p
    ensures 1024 <= 4 * s.p < TWO16
  {
    hide Good, Tally, WordsOf, Content, LiveSlots, MaxBlocks, BlockCount, Covers, Counted;
    FilesEntry(s.p, s.table, i);
    BlockReach(s.p, s.table[i].size);
    ContentBlocked(s.p, s.disk, s.owner, FilesOf(s.p, s.table), i, BlockCount(s.p, s.table[i].size));
  }

  /** The new directory after "." and ".." are in it. */
  lemma FreshListing(u: State, v: State, w: State, i: nat, d: nat)
    requires Ready(u, i, DOT, 0) && BlocksOf(u.p, u.disk, u.table[i]) == [] && u.table[i].size == 0 && 0 < d < TWO32
    requires 0 < i < TWO32
    requires EntryAdded(u, v, i, DOT, i, 0) && EntryAdded(v, w, i, DOTDOT, d, 0)
    ensures Listing(BlocksOf(w.p, w.disk, w.table[i])) == [Entry(DOT, i), Entry(DOTDOT, d)]
  {
    hide Ready, Mounted, IsDirectory, FilesOf, Elsewhere, Listing, Appended, SplitOff, EntryPut, HasPlace, Inserted,
         BlocksOf, MustGrow;
    SecondReady(u, v, i, DOT, i);
    FreshDirectory(v.p, BlocksOf(v.p, v.disk, v.table[i]), BlocksOf(w.p, w.disk, w.table[i]), DOT, i, DOTDOT, d);
    assert ShortName(DOT) == DOT && ShortName(DOTDOT) == DOTDOT;
  }

  /** The listings while a directory is being made. */
  lemma FreshDirs(t: State, u: State, v: State, w: State, used: set<nat>, d: nat, name: Name, i: nat)
    requires t.p > 0 && Tabled(t.p, t.disk, t.table, used) && d in DirsIn(t, used) && i in t.table && i !in used
    requires t.table[i].mode == DIR_MODE && t.table[i].size == 0 && EntryAdded(t, u, d, name, i, 1)
    requires Ready(u, i, DOT, 0) && BlocksOf(u.p, u.disk, u.table[i]) == []
    requires EntryAdded(u, v, i, DOT, i, 0) && EntryAdded(v, w, i, DOTDOT, d, 0)
    ensures w.p == t.p && u.p == t.p && Tabled(w.p, w.disk, w.table, used + {i}) && d in DirsIn(u, used)
    ensures Inserted(DirsIn(t, used)[d], DirsIn(u, used)[d], Entry(ShortName(name), i))
    ensures DirsIn(w, used + {i})
         == DirsIn(t, used)[d := DirsIn(u, used)[d]][i := Listing(BlocksOf(w.p, w.disk, w.table[i]))]
  {
    hide Ready, Mounted, IsDirectory, FilesOf, Elsewhere, Listing, Appended, SplitOff, EntryPut, HasPlace, Inserted,
         BlocksOf, MustGrow, DirsOf, TreeOk, Tabled, EntryAdded;
    TabledDirectory(t, d, used);
    EntryListed(t, u, used, d, name, i, 1);
    ReadyDirectory(u, i, DOT);
    DirUsed(u.p, u.disk, u.table, used, i);
    EntryListed(u, v, used + {i}, i, DOT, i, 0);
    EntryListed(v, w, used + {i}, i, DOTDOT, d, 0);
    TabledDirectory(w, i, used + {i});
  }

  lemma ReadyDirectory(s: State, d: nat, name: Name)
    requires Ready(s, d, name, 0)
    ensures s.p > 0 && d in s.table && IsDirectory(s.p, s.disk, s.table[d].block, s.table[d].size)
  {
  }

  lemma Replaced(s: State, place: map<nat, Place>)
    requires Mounted(s)
    ensures Mounted(s.(place := place)) && Used(s.(place := place)) == Used(s)
  {
    hide Good, Tally, FilesOf, WordsOf, Covers, Counted;
  }

  /** What making a directory amounts to, before its parent's links are counted. */
  lemma DirLinked(s: State, t: State, u: State, v: State, w: State, x: State,
                  path: seq<Byte>, d: nat, name: Name, i: nat)
    requires Valid(s) && Allocated(s, t, i, DIR_MODE, 2) && d in Used(s) && IsNewName(Directories(s), path, d, name)
    requires EntryAdded(t, u, d, name, i, 1) && Ready(u, i, DOT, 0) && BlocksOf(u.p, u.disk, u.table[i]) == []
    requires EntryAdded(u, v, i, DOT, i, 0) && EntryAdded(v, w, i, DOTDOT, d, 0)
    requires d in s.place && x == w.(place := s.place[i := Place(d, s.place[d].depth + 1)])
    ensures Valid(x) && DirEntered(s, x, path, i)
  {
    hide Mounted, Elsewhere, TreeOk, BlocksOf, IsDirectory, DirsOf, Resolve, Tokens, NoName, Inserted, Unlisted, Names,
         Passes, Used, Untouched, EntryAdded, Ready, Listing, Tabled, SameMeta, DataKept;
    var used, dirs := Used(s), Directories(s);
    ValidFacts(s);
    AllocatedNew(s, t, i);
    assert ShortName(name) == name && i != d;
    DirectoryFacts(s, d, used);
    ThreeFrames(s, t, u, v, w, d, name, i);
    FreshListing(u, v, w, i, d);
    FreshDirs(t, u, v, w, used, d, name, i);
    var list, own := DirsIn(u, used)[d], [Entry(DOT, i), Entry(DOTDOT, d)];
    TreeAddDir(dirs, used, s.place, d, list, name, i);
    UnusedUnlisted(dirs, used, s.place, i);
    Replaced(w, x.place);
    forall names ensures (Names(dirs, names, d, name) ==> Resolve(dirs[d := list][i := own], names, ROOT) == i)
        && (Resolve(dirs, names, ROOT) != 0 || !Passes(dirs, names, d, name) ==>
            Resolve(dirs[d := list][i := own], names, ROOT) == Resolve(dirs, names, ROOT)) {
      MkdirResolves(dirs, d, list, name, i, own, names);
    }
  }

  /** What making a directory amounts to when the path is there already: its inode is given back with its
      block. */
  lemma DirTwice(s: State, t: State, u: State, v: State, w: State, y: State, z: State,
                 path: seq<Byte>, d: nat, name: Name, i: nat, links: nat)
    requires Valid(s) && Allocated(s, t, i, DIR_MODE, 2) && d in Directories(s) && d == Parent(s, path)
    requires name == LastName(path) && |name| < 256 && EntryAdded(t, u, d, name, i, 1)
    requires Ready(u, i, DOT, 0) && BlocksOf(u.p, u.disk, u.table[i]) == [] && u.table[i].size == 0
    requires EntryAdded(u, v, i, DOT, i, 0) && EntryAdded(v, w, i, DOTDOT, d, 0) && d in w.table
    requires links == (w.table[d].links + 1) % 0x1_0000
    requires y == w.(table := w.table[d := Record(w.table[d].mode, links, w.table[d].size, w.table[d].block)])
    requires InodeFreed(y, z, i) && Mounted(y)
    ensures DoubleEntry(s, z, path, i) && !Valid(z) && MkdirRecords(s, z, d, name, i)
  {
    hide Mounted, Treed, BlocksOf, DirsOf, Inserted, EntryAdded, LastName, ParentOf, InodeFreed, Used, Ready, Allocated,
         Elsewhere, ShortName, Tabled;
    ValidTree(s);
    NameFits(name);
    AllocatedNew(s, t, i);
    DirUsedToo(s, d);
    MkdirRecordsAre(s, t, u, v, w, y, d, name, i);
    UsedLater(t, u, v, w, y, d, name, i);
    ListedTwice(t, u, v, w, y, Used(s), d, name, i, links);
    UsedAgain(s, y, z, i);
    DoubleInvalid(s, z, path, i);
  }

  lemma ListedTwice(t: State, u: State, v: State, w: State, y: State, used: set<nat>, d: nat, name: Name, i: nat,
                    links: nat)
    requires t.p > 0 && Tabled(t.p, t.disk, t.table, used) && d in DirsIn(t, used) && i in t.table && i !in used
    requires t.table[i].mode == DIR_MODE && t.table[i].size == 0 && EntryAdded(t, u, d, name, i, 1)
    requires Ready(u, i, DOT, 0) && BlocksOf(u.p, u.disk, u.table[i]) == []
    requires EntryAdded(u, v, i, DOT, i, 0) && EntryAdded(v, w, i, DOTDOT, d, 0) && d in w.table
    requires y == w.(table := w.table[d := Record(w.table[d].mode, links, w.table[d].size, w.table[d].block)])
    ensures y.p == t.p && d in DirsIn(y, used) && DirsIn(y, used) == DirsIn(t, used)[d := DirsIn(y, used)[d]]
    ensures Inserted(DirsIn(t, used)[d], DirsIn(y, used)[d], Entry(ShortName(name), i))
  {
    hide Mounted, Elsewhere, BlocksOf, IsDirectory, DirsOf, Inserted, EntryAdded, ShortName, Tabled, Ready, Listing;
    FreshDirs(t, u, v, w, used, d, name, i);
    LinksChanged(w.p, w.disk, w.table, used + {i}, d, links);
    FewerUsed(w.p, w.disk, y.table, used, i);
    NotListedYet(t.p, t.disk, t.table, used, i);
  }

  lemma NotListedYet(p: nat, disk: Disk, table: Table, used: set<nat>, i: nat)
    requires p > 0 && i !in used
    ensures i !in DirsOf(p, disk, table, used)
  {
    hide Listing, BlocksOf, IsDirMode;
  }

  lemma FewerUsed(p: nat, disk: Disk, table: Table, used: set<nat>, i: nat)
    requires p > 0 && i !in used
    ensures DirsOf(p, disk, table, used) == DirsOf(p, disk, table, used + {i}) - {i}
  {
    hide Listing, BlocksOf, IsDirMode;
  }

  lemma UsedLater(t: State, u: State, v: State, w: State, y: State, d: nat, name: Name, i: nat)
    requires EntryAdded(t, u, d, name, i, 1) && EntryAdded(u, v, i, DOT, i, 0) && EntryAdded(v, w, i, DOTDOT, d, 0)
    requires y == w.(table := y.table) && y.table.Keys == w.table.Keys && i in t.table
    ensures y.p == t.p && Used(y) == Used(t) && i in y.table
  {
    hide Mounted, Elsewhere, EntryAdded;
    EntryOne(t, u, d, name, i, 1);
    EntryOne(u, v, i, DOT, i, 0);
    EntryOne(v, w, i, DOTDOT, d, 0);
    EntryFrame(t, u, d, name, i, 1);
    EntryFrame(u, v, i, DOT, i, 0);
    EntryFrame(v, w, i, DOTDOT, d, 0);
  }

  lemma AllocatedNew(s: State, t: State, i: nat)
    requires Allocated(s, t, i, DIR_MODE, 2)
    ensures i in t.table && t.table[i].mode == DIR_MODE && t.table[i].size == 0 && 0 < i < TWO32 && i !in Used(s)
    ensures i in s.table
    ensures t.p == s.p && t.owner == s.owner && t.disk == s.disk && t.place == s.place && Used(t) == Used(s) + {i}
    ensures Elsewhere(s.p, s.disk, s.table, t.disk, t.table, i)
    ensures Tabled(t.p, t.disk, t.table, Used(s)) && DirsIn(t, Used(s)) == Directories(s)
  {
    hide Mounted, Elsewhere, Tabled, TreeOk, DirsIn, Used;
  }

  /** What the three added entries leave alone. */
  lemma ThreeFrames(s: State, t: State, u: State, v: State, w: State, d: nat, name: Name, i: nat)
    requires s.p > 0 && t.p == s.p && Elsewhere(s.p, s.disk, s.table, t.disk, t.table, i) && i in t.table && d != i
    requires EntryAdded(t, u, d, name, i, 1) && EntryAdded(u, v, i, DOT, i, 0) && EntryAdded(v, w, i, DOTDOT, d, 0)
    ensures Mounted(w) && w.p == s.p && w.place == t.place && w.inodes == t.inodes && Used(w) == Used(t)
    ensures i in u.table && u.table[i] == t.table[i] && SameMeta(t.owner, w.owner)
    ensures DataKept(t.owner, t.disk, w.owner, w.disk, {d} + {i})
    ensures Untouched(s.p, s.disk, s.table, w.disk, w.table, {i} + {d})
  {
    hide Mounted, Elsewhere, Untouched, EntryAdded, Used, OneFile, SameMeta, DataKept;
    EntryFrame(t, u, d, name, i, 1);
    EntryFrame(u, v, i, DOT, i, 0);
    EntryFrame(v, w, i, DOTDOT, d, 0);
    EntryOne(t, u, d, name, i, 1);
    EntryOne(u, v, i, DOT, i, 0);
    EntryOne(v, w, i, DOTDOT, d, 0);
    UntouchedOne(s.p, s.disk, s.table, t.disk, t.table, i);
    UntouchedMore(s.p, s.disk, s.table, t.disk, t.table, {i}, u.disk, u.table, d);
    UntouchedMore(s.p, s.disk, s.table, u.disk, u.table, {i} + {d}, v.disk, v.table, i);
    UntouchedMore(s.p, s.disk, s.table, v.disk, v.table, {i} + {d} + {i}, w.disk, w.table, i);
    assert {i} + {d} + {i} + {i} == {i} + {d};
    SameMetaTrans(t.owner, u.owner, v.owner);
    SameMetaTrans(t.owner, v.owner, w.owner);
    DataKeptTrans(t.owner, t.disk, u.owner, u.disk, {d}, v.owner, v.disk, {i});
    DataKeptTrans(t.owner, t.disk, v.owner, v.disk, {d} + {i}, w.owner, w.disk, {i});
    assert {d} + {i} + {i} == {d} + {i};
  }

  lemma EntryOne(s: State, t: State, d: nat, name: Name, target: nat, more: nat)
    requires EntryAdded(s, t, d, name, target, more)
    ensures Used(t) == Used(s) && d in t.table && t.table == s.table[d := t.table[d]]
  {
    hide Mounted, BlocksOf, Used, Elsewhere;
    OneFileUsed(s, t, d);
  }
}
