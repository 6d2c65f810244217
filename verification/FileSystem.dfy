/** The requests of the server (rfs/Rfs.c) as steps of a run over one mounted volume. */
module FileSystem {
  import opened Arithmetic
  import opened Bytes
  import opened BlockTree
  import opened Ownership
  import opened Allocation
  import opened Storage
  import opened InodeOps
  import opened Truncation
  import opened FileContents
  import opened FileIO
  import opened DirRecords
  import opened Directory
  import opened Paths
  import opened DirTree
  import opened FileTable
  import opened States

  lemma {:induction false} ResolveSplit(dirs: Dirs, names: seq<Name>, k: nat, from: nat)
    requires k <= |names|
    ensures Resolve(dirs, names, from) == Resolve(dirs, names[k..], Resolve(dirs, names[..k], from))
  {
    if k == 0 {
      assert names[..0] == [] && names[0..] == names;
    } else if from != 0 {
      var next := Lookup(ListOf(dirs, from), names[0]);
      ResolveSplit(dirs, names[1..], k - 1, next);
      assert names[1..][..k - 1] == names[..k][1..] && names[1..][k - 1..] == names[k..];
    }
  }

  lemma StepName(dirs: Dirs, names: seq<Name>, k: nat, name: Name, rest: seq<Name>)
    requires k <= |names| && names[k..] == [name] + rest
    ensures k < |names| && names[k + 1..] == rest
    ensures Resolve(dirs, names[..k + 1], ROOT) == Step(dirs, Resolve(dirs, names[..k], ROOT), name)
  {
    assert names[k] == names[k..][0] && names[k + 1..] == names[k..][1..];
    assert names[..k + 1] == names[..k] + [name];
    ResolveLast(dirs, names[..k], name, ROOT);
  }

  lemma NoSteps(dirs: Dirs, names: seq<Name>)
    ensures Resolve(dirs, names[..0], ROOT) == ROOT && names[0..] == names
    ensures forall rest :: Resolve(dirs, rest, 0) == 0
    ensures forall from :: Resolve(dirs, [], from) == from
  {
  }

  class FileSystem {
    const vol: Volume
    /** The inode bitmaps and their counters. */
    const inodes: Allocator
    var table: Table
    ghost var place: map<nat, Place>

    constructor (vol: Volume, inodes: Allocator, table: Table, ghost place: map<nat, Place>)
      ensures this.vol == vol && this.inodes == inodes && this.table == table && this.place == place
    {
      this.vol, this.inodes, this.table, this.place := vol, inodes, table, place;
    }

    /** Blocks and inodes have bitmaps of their own. */
    predicate Apart() {
      vol.blocks != inodes
    }

    /** The state as it is now. */
    ghost function Now(): State
      reads this`table, this`place, vol`disk, vol`owner, vol.blocks, inodes
    {
      State(vol.p, vol.disk, vol.owner,
            Bits(vol.blocks.space, vol.blocks.bitmap, vol.blocks.groupFree, vol.blocks.totalFree),
            Bits(inodes.space, inodes.bitmap, inodes.groupFree, inodes.totalFree), table, place)
    }

    /** A copy of an inode of the table (`Inode_leerInodo`). */
    method Load(i: nat) returns (inode: Inode)
      requires i in table
      ensures fresh(inode) && Record(inode.mode, inode.links, inode.size, inode.block) == table[i]
    {
      inode := new Inode(table[i].mode, table[i].links, table[i].size, table[i].block);
    }

    /** `Inode_escribirInodo`. */
    method Save(i: nat, inode: Inode)
      modifies this`table
      ensures table == old(table)[i := Record(inode.mode, inode.links, inode.size, inode.block)]
    {
      table := table[i := Record(inode.mode, inode.links, inode.size, inode.block)];
    }

    lemma LoadedHolds(inode: Inode, i: nat)
      requires Mounted(Now()) && i in table && inode.block == table[i].block && inode.size == table[i].size
      ensures Holds(vol, inode, i, FilesOf(vol.p, table), BlockCount(vol.p, inode.size))
    {
      FilesEntry(vol.p, table, i);
    }

    /** The volume fits the table again, once the changed inode is in it. */
    lemma SavedMounted(s: State, inode: Inode, i: nat)
      requires Mounted(s) && i in s.table && vol.p == s.p
      requires Now().inodes == s.inodes ||
               (inodes.space == s.inodes.space && Covers(inodes.space, inodes.bitmap) &&
                Counted(inodes.bitmap, inodes.groupFree, inodes.totalFree))
      requires i in table && table == s.table[i := table[i]] && table[i].block == inode.block
      requires table[i].size == inode.size
      requires var n := BlockCount(s.p, inode.size);
               Holds(vol, inode, i, FilesOf(s.p, s.table)[i := File(inode.block, LiveSlots(s.p, n))], n)
      ensures Mounted(Now())
    {
      hide Good, Tally, Geometry, Settled, Covers, Counted, SameMeta, DataKept, SlotsKept, Within;
      FilesSaved(vol.p, s.table, i, table[i]);
      assert table.Keys == s.table.Keys;
    }

    /** `Dir_buscarPath`: the inode that a path leads to, or 0. */
    method FindPath(path: seq<Byte>, ghost used: set<nat>) returns (nro: nat)
      requires Mounted(Now()) && Treed(Now(), used) && ThroughDirs(DirsIn(Now(), used), Tokens(path))
      ensures nro == Resolve(DirsIn(Now(), used), Tokens(path), 2)
    {
      hide Mounted, Treed, Tokens, DirsIn, IsDirectory, Holds, ListingOf, Resolve,
           Lookup, SameMeta, DataKept, SlotsKept, Within;
      ghost var s := Now();
      TreeFacts(s, used);
      ghost var dirs, names, k := DirsIn(s, used), Tokens(path), 0;
      NoSteps(dirs, names);
      nro := ROOT;
      assert path[0..] == path;
      var more, name, at := NextName(path, 0);
      while more && nro != 0
        invariant Now() == s && at <= |path| && k <= |names| && nro == Resolve(dirs, names[..k], ROOT)
        invariant if more then names[k..] == [name] + Tokens(path[at..]) else names[k..] == []
        decreases |path| - at, more
      {
        StepName(dirs, names, k, name, Tokens(path[at..]));
        DirectoryFacts(s, nro, used);
        var inode := Load(nro);
        LoadedHolds(inode, nro);
        var list := ListDirectory(vol, inode, nro, FilesOf(vol.p, table));
        nro := FindName(list, name);
        k := k + 1;
        more, name, at := NextName(path, at);
      }
      ResolveSplit(dirs, names, k, ROOT);
    }

    /** `procesarTruncate`: changes the size of the file that the path names. */
    method Truncate(path: seq<Byte>, newSize: nat) returns (r: int)
      requires Apart() && Valid(Now()) && CanTouch(Now(), path) && newSize < TWO32
      modifies this`table, vol`disk, vol`owner, vol.blocks
      ensures Valid(Now()) && Truncated(old(Now()), Now(), path, newSize, r)
    {
      hide Mounted, Treed, Tokens, DirsIn, Used, Resolve, OneFile, FileStep, FileTruncated;
      ghost var s := Now();
      ValidFacts(s);
      var i := FindPath(path, Used(s));
      if i == 0 {
        return -2;
      }
      TouchFacts(s, path);
      r := ResizeAt(i, newSize);
      FileServed(s, Now(), i);
    }

    /** Changes the size of file `i`, in a copy of its inode that is saved when that succeeds. */
    method ResizeAt(i: nat, newSize: nat) returns (r: int)
      requires Apart() && Mounted(Now()) && i in table && table[i].size < TWO32 && newSize < TWO32
      modifies this`table, vol`disk, vol`owner, vol.blocks
      ensures FileStep(old(Now()), Now(), i) && FileTruncated(old(Now()), Now(), i, newSize, r)
    {
      hide Mounted, Holds, FilesOf, BlockCount, Resized, FileBytes, OthersSame, LiveSlots, TruncateDone, BlocksTaken,
           Widths, SameMeta, DataKept, SlotsKept, Within, Sized, HeldBytes, WordsOf;
      ghost var s := Now();
      SizeOfPointers(s);
      var inode := Load(i);
      LoadedHolds(inode, i);
      r := Resize(vol, inode, newSize, i, FilesOf(vol.p, table));
      if r == 0 {
        Save(i, inode);
      }
      TruncateEnds(s.p, s.disk, s.table[i], vol.disk, table[i], s.blocks.totalFree, newSize, r);
      assert table == s.table[i := table[i]];
      SavedMounted(s, inode, i);
    }

    /** `procesarWrite`: writes into the file that the path names; -28 (no space) when it cannot grow. */
    method Write(path: seq<Byte>, offset: nat, data: seq<Byte>) returns (r: int)
      requires Apart() && Valid(Now()) && CanTouch(Now(), path) && offset + |data| < TWO32
      modifies this`table, vol`disk, vol`owner, vol`cache, vol.blocks
      ensures Valid(Now()) && WriteServed(old(Now()), Now(), path, offset, data, r)
      ensures r >= 0 && data != [] && !vol.forgets && RawWord(vol.Words(), 0, 0) == 0 &&
              CacheClean(vol.cache, vol.disk, vol.owner) ==>
                && Target(old(Now()), path) in table
                && BeginsWith(BytesOf(vol.p, vol.disk, table[Target(old(Now()), path)]), 4 * vol.p, offset, data[0])
      ensures RawWord(vol.Words(), 0, 0) == old(RawWord(vol.Words(), 0, 0))
      ensures RawWord(vol.Words(), 0, 0) == 0 ==>
              Refilled(vol.p, old(vol.cache), vol.cache, vol.disk, vol.owner, Target(old(Now()), path),
                       Quot(offset, 4 * vol.p), Rem(offset, 4 * vol.p))
      ensures Rem(offset, 4 * vol.p) == 0 && RawWord(vol.Words(), 0, 0) == 0 &&
              CacheClean(old(vol.cache), old(vol.disk), old(vol.owner)) ==>
                CacheClean(vol.cache, vol.disk, vol.owner)
    {
      hide Refilled, Quot, Mounted, Treed, Tokens, DirsIn, Used, WriteDone, RawWord, WordsOf, CacheClean, Rem, Resolve,
           Within, OneFile, FileStep, BeginsWith;
      ghost var s := Now();
      ValidFacts(s);
      RefilledNone(s.p, vol.cache, vol.disk, vol.owner, 0, Quot(offset, 4 * s.p), Rem(offset, 4 * s.p));
      var i := FindPath(path, Used(s));
      if i == 0 {
        return -2;
      }
      TouchFacts(s, path);
      r := WriteAt(i, offset, data);
      FileServed(s, Now(), i);
    }

    /** Writes into file `i`, in a copy of its inode that is saved when the file has grown. */
    method WriteAt(i: nat, offset: nat, data: seq<Byte>) returns (r: int)
      requires Apart() && Mounted(Now()) && i in table && table[i].size < TWO32 && offset + |data| < TWO32
      modifies this`table, vol`disk, vol`owner, vol`cache, vol.blocks
      ensures FileStep(old(Now()), Now(), i) && Within(old(vol.owner), vol.owner) && i in table
      ensures WriteDone(vol.p, old(vol.disk), old(table)[i], vol.disk, table[i], old(vol.blocks.totalFree),
                        offset, data, r)
      ensures r != -28 && data != [] && !vol.forgets && RawWord(vol.Words(), 0, 0) == 0 &&
              CacheClean(vol.cache, vol.disk, vol.owner) ==>
                BeginsWith(BytesOf(vol.p, vol.disk, table[i]), 4 * vol.p, offset, data[0])
      ensures RawWord(vol.Words(), 0, 0) == old(RawWord(vol.Words(), 0, 0))
      ensures RawWord(vol.Words(), 0, 0) == 0 ==>
              Refilled(vol.p, old(vol.cache), vol.cache, vol.disk, vol.owner, i,
                       Quot(offset, 4 * vol.p), Rem(offset, 4 * vol.p))
      ensures Rem(offset, 4 * vol.p) == 0 && RawWord(vol.Words(), 0, 0) == 0 &&
              CacheClean(old(vol.cache), old(vol.disk), old(vol.owner)) ==>
                CacheClean(vol.cache, vol.disk, vol.owner)
    {
      hide Refilled, Quot, Mounted, Holds, FilesOf, BlockCount, Wrote, FileBytes, OthersSame, LiveSlots, WriteDone,
           BlocksTaken, RawWord, WordsOf, CacheClean, Rem, SameMeta, Within, HeldBytes, Splice, BeginsWith;
      ghost var s := Now();
      SizeOfPointers(s);
      var inode := Load(i);
      LoadedHolds(inode, i);
      var grow := offset + |data| > inode.size;
      r := WriteOrRestore(vol, inode, offset, data, i, FilesOf(vol.p, table));
      if r != -1 && grow {
        Save(i, inode);
      }
      r := if r == -1 then -28 else r;
      WriteEnds(s.p, s.disk, s.table[i], vol.disk, table[i], s.blocks.totalFree, offset, data, r);
      assert table == s.table[i := table[i]];
      SavedMounted(s, inode, i);
    }

    /** `procesarRead`: reads from the file that the path names, up to its end; the bytes of the
        server's buffer that no block is fetched into are `junk`, and `seen` are the file's blocks as
        they were fetched. */
    method Read(path: seq<Byte>, offset: nat, size: nat, junk: seq<Byte>)
        returns (found: bool, bytes: seq<Byte>, ghost seen: seq<seq<Byte>>)
      requires Valid(Now()) && CanTouch(Now(), path) && CacheSized(vol.cache, 4 * vol.p)
      requires Target(Now(), path) in table ==> CanRead(vol.p, table[Target(Now(), path)], offset, size, junk)
      modifies vol`cache
      ensures CacheSized(vol.cache, 4 * vol.p)
      ensures CacheMore(old(vol.cache), vol.cache, vol.owner, Target(Now(), path))
      ensures (found <==> Target(Now(), path) != 0) && (!found ==> vol.cache == old(vol.cache))
      ensures found ==> Target(Now(), path) in table
      ensures found ==> var end := table[Target(Now(), path)].size;
                        |bytes| == if offset + size <= end then size else end - offset
      ensures found ==> ReadThrough(vol.p, vol.disk, table[Target(Now(), path)], old(vol.cache), vol.cache,
                                    vol.forgets, offset, size, junk, seen, bytes)
      ensures CacheClean(old(vol.cache), vol.disk, vol.owner) ==>
                && CacheClean(vol.cache, vol.disk, vol.owner)
                && (found ==> ReadDone(vol.p, vol.disk, table[Target(Now(), path)], offset, size, junk, bytes))
    {
      hide CacheMore, Mounted, Treed, Holds, Tokens, DirsIn, Used, FilesOf, BlockCount, FileBytes, CacheClean,
           ReadResult, Resolve, SameMeta, DataKept, SlotsKept, Within, BytesIn, SeenThrough, CacheSized, Quot,
           CachedTo, CacheFilled;
      ghost var s := Now();
      ValidFacts(s);
      CacheMoreRefl(vol.cache, vol.owner, 0);
      var i := FindPath(path, Used(s));
      if i == 0 {
        return false, [], [];
      }
      TouchFacts(s, path);
      var inode := Load(i);
      LoadedHolds(inode, i);
      bytes, seen := ReadFile(vol, inode, offset, if inode.size < offset + size then inode.size - offset else size,
                              junk, i, FilesOf(vol.p, table));
      found := true;
      ReadLength(vol.p, vol.disk, table[i], old(vol.cache), vol.cache, vol.forgets, offset, size, junk, seen, bytes);
    }

    /** Adds an entry to a directory, in a copy of its inode. */
    method AddInCopy(d: nat, name: Name, target: nat, ghost more: nat) returns (inode: Inode)
      requires Ready(Now(), d, name, more) && 0 < target < TWO32
      modifies vol`disk, vol`owner, vol.blocks
      ensures fresh(inode) && vol.blocks.totalFree >= more
      ensures d in table && CopyAdded(old(Now()), vol.disk, inode, d, name, target)
    {
      hide Ready, Mounted, Holds, IsDirectory, Added, BlockCount, OthersSame, LiveSlots, Room, FilesOf, SameMeta,
           DataKept, SlotsKept, Within;
      ghost var s := Now();
      Addable(s, d, name, more);
      inode := Load(d);
      LoadedHolds(inode, d);
      AddEntryTo(vol, inode, name, target, more, d, FilesOf(vol.p, table));
    }

    ghost predicate CopyAdded(s: State, disk: Disk, inode: Inode, d: nat, name: Name, target: nat)
      requires d in s.table && s.p > 0
      reads vol`disk, vol`owner, vol.blocks, inode
    {
      && (var n := BlockCount(s.p, inode.size);
          Holds(vol, inode, d, FilesOf(s.p, s.table)[d := File(inode.block, LiveSlots(s.p, n))], n))
      && OthersSame(s.p, FilesOf(s.p, s.table), d, s.disk, disk) && SameMeta(s.owner, vol.owner)
      && DataKept(s.owner, s.disk, vol.owner, disk, {d})
      && Added(s.p, s.disk, s.table[d], disk, Record(inode.mode, inode.links, inode.size, inode.block), name, target)
    }

    lemma AddDone(s: State, inode: Inode, d: nat, name: Name, target: nat, more: nat)
      requires Ready(s, d, name, more) && vol.p == s.p && Now().inodes == s.inodes && Now().place == s.place
      requires table == s.table[d := Record(inode.mode, inode.links, inode.size, inode.block)]
      requires vol.blocks.totalFree >= more
      requires CopyAdded(s, vol.disk, inode, d, name, target)
      ensures EntryAdded(s, Now(), d, name, target, more)
    {
      hide Ready, EntryAdded, Mounted, Holds, IsDirectory, Added, BlockCount, OthersSame, LiveSlots, Room, FilesOf,
           SameMeta, DataKept, SlotsKept, Within;
      Addable(s, d, name, more);
      SavedMounted(s, inode, d);
      AddedEnds(s, Now(), d, name, target, more);
    }

    /** Adds an entry to a directory, and puts the inode of the directory back. */
    method AddTo(d: nat, name: Name, target: nat, ghost more: nat)
      requires Apart() && Ready(Now(), d, name, more) && 0 < target < TWO32
      modifies this`table, vol`disk, vol`owner, vol.blocks
      ensures EntryAdded(old(Now()), Now(), d, name, target, more)
    {
      hide Ready, EntryAdded, CopyAdded, Mounted, IsDirectory, Room, SameMeta, DataKept, SlotsKept, Within;
      ghost var s := Now();
      Addable(s, d, name, more);
      var inode := AddInCopy(d, name, target, more);
      Save(d, inode);
      AddDone(s, inode, d, name, target, more);
    }

    /** `Inode_asignarInodo`: takes the first free inode and sets its mode and links. */
    method AllocateInode(mode: nat, links: nat) returns (i: nat)
      requires Apart() && Valid(Now()) && inodes.totalFree > 0
      modifies this`table, inodes
      ensures Allocated(old(Now()), Now(), i, mode, links)
    {
      hide Valid, Mounted, Covers, Counted, Allocated, Free, Widths, SameMeta, DataKept, SlotsKept, Within;
      ghost var s := Now();
      ValidMounted(s);
      i := inodes.Take();
      FreeNumbered(s, i);
      var inode := Load(i);
      inode.mode, inode.links := mode, links;
      Save(i, inode);
      AllocatedTree(s, Now(), i, mode, links);
    }

    /** `Grupos_liberarInodoEnBitmap`. */
    method FreeInode(i: nat, ghost s: State)
      requires Apart() && Mounted(s) && i in Used(s) && Now().inodes == s.inodes
      modifies inodes
      ensures inodes.Valid()
      ensures forall m :: Free(inodes.space, inodes.bitmap, m) <==> Free(inodes.space, s.inodes.bitmap, m) || m == i
    {
      hide Mounted, Covers, Counted, Free, Widths, SameMeta, DataKept, SlotsKept, Within;
      InodeParts(s, i);
      inodes.Release(i);
    }

    lemma InodeParts(s: State, i: nat)
      requires Mounted(s) && i in Used(s)
      ensures Covers(s.inodes.space, s.inodes.bitmap)
      ensures Counted(s.inodes.bitmap, s.inodes.groupFree, s.inodes.totalFree)
      ensures s.inodes.space.InRange(i) && !Free(s.inodes.space, s.inodes.bitmap, i)
    {
      hide Good, Tally, Geometry, Settled, Covers, Counted, Free, FilesOf, SameMeta, DataKept, SlotsKept, Within;
    }

    /** `procesarCreate`: a new empty file under a new name; -2 when its directory does not exist.  For a path that
        is there already the program answers -2 too, but has added an entry for the inode that it gives back. */
    method Create(path: seq<Byte>) returns (r: int, ghost inode: nat)
      requires Apart() && Valid(Now()) && CanTry(Now(), path, 0)
      modifies this`table, inodes, vol`disk, vol`owner, vol.blocks
      ensures Valid(Now()) <==> Target(old(Now()), path) == 0
      ensures r == if Parent(old(Now()), path) == 0 || Target(old(Now()), path) != 0 then -2 else 0
      ensures if Target(old(Now()), path) != 0
              then && DoubleEntry(old(Now()), Now(), path, inode)
                   && CreateRecords(old(Now()), Now(), Parent(old(Now()), path), LastName(path), inode)
              else if r == 0 then FileCreated(old(Now()), Now(), path, inode)
              else NotCreated(old(Now()), Now(), inode, 0x8124, 1)
    {
      hide Mounted, Treed, Tokens, DirsIn, Used, ThroughDirs, Resolve, Ready, EntryAdded, FileCreated, NotCreated,
           CutAt, IsNewName, Allocated, ParentOf, Free, Covers, Counted, SameMeta, DataKept, SlotsKept, Within,
           LastName, DoubleEntry, CreateRecords;
      ghost var s := Now();
      ValidFacts(s);
      CanTryFacts(s, path, 0);
      var dir, name := Separate(path);
      Cut(path, dir, name);
      TryFacts(s, path, dir, name, 0);
      LastNameIs(path, dir, name);
      var i := AllocateInode(FILE_MODE, 1);
      ghost var t := Now();
      AllocatedFacts(s, t, i, FILE_MODE, 1);
      inode := i;
      var d := FindPath(dir, Used(s));
      if d == 0 {
        ParentOfTarget(s, path);
        FreeInode(i, t);
        assert InodeFreed(t, Now(), i);
        GivenUp(s, t, Now(), i, FILE_MODE, 1);
        return -2, i;
      }
      var there := FindPath(path, Used(s));
      StillReady(s, t, i, FILE_MODE, 1, d, name, 0);
      AddTo(d, name, i, 0);
      if there != 0 {
        ghost var u := Now();
        EntryFrame(t, u, d, name, i, 0);
        FreeInode(i, t);
        assert InodeFreed(u, Now(), i);
        FileTwice(s, t, u, Now(), path, d, name, i);
        return -2, i;
      }
      CreateFacts(s, path, dir, name, 0);
      FileLinked(s, t, Now(), path, d, name, i);
      return 0, i;
    }

    lemma CanTryFacts(s: State, path: seq<Byte>, more: nat)
      requires CanTry(s, path, more)
      ensures SLASH in path && |path| < TWO16 && s.inodes.totalFree > 0 && path != []
      ensures s.p > 0 && ThroughDirs(Directories(s), Tokens(path))
    {
    }

    lemma Cut(path: seq<Byte>, dir: seq<Byte>, name: Name)
      requires path != [] && (name == [] <==> path[|path| - 1] == SLASH)
      requires Tokens(path) == Tokens(dir) + if name == [] then [] else [name]
      ensures CutAt(path, dir, name)
    {
    }

    lemma AllocatedFacts(s: State, t: State, i: nat, mode: nat, links: nat)
      requires Allocated(s, t, i, mode, links)
      ensures Mounted(t) && Treed(t, Used(s)) && DirsIn(t, Used(s)) == Directories(s)
      ensures i in Used(t) && 0 < i < TWO32
    {
      hide Mounted, Treed, DirsIn, SameMeta, DataKept, SlotsKept, Within;
    }

    /** Removes the first entry with inode `target` from a directory. */
    method RemoveFrom(d: nat, target: nat)
      requires Searchable(Now(), d) && target != 0
      modifies vol`disk
      ensures EntryRemoved(old(Now()), Now(), d, target)
    {
      hide Searchable, EntryRemoved, Mounted, Holds, IsDirectory, BlockCount, OthersSame, LiveSlots, FilesOf,
           ListingOf, WithoutFirst, SameMeta, DataKept, SlotsKept, Within;
      ghost var s := Now();
      SearchFacts(s, d);
      var inode := Load(d);
      LoadedHolds(inode, d);
      ghost var files := FilesOf(vol.p, table);
      var r := RemoveEntry(vol, inode, target, d, files);
      HoldsMounted(s, inode, d);
      RemovedEnds(s, Now(), d, target);
    }

    lemma HoldsMounted(s: State, inode: Inode, i: nat)
      requires Mounted(s) && Now() == s.(disk := vol.disk)
      requires Holds(vol, inode, i, FilesOf(s.p, s.table), BlockCount(s.p, inode.size))
      ensures Mounted(Now())
    {
      hide Good, Tally, Geometry, Settled, Covers, Counted, FilesOf, SameMeta, DataKept, SlotsKept, Within;
    }

    /** Cuts the file `a` to nothing and gives its inode back (the common end of `procesarUnlink` and
        `procesarRmdir`); `inode` is a copy of its record. */
    method Discard(a: nat, inode: Inode)
      requires Apart() && Mounted(Now()) && a in Used(Now()) && (forall i :: i in table ==> table[i].size < TWO32)
      requires inode.size == table[a].size && inode.block == table[a].block
      modifies inode, this`table, inodes, vol`disk, vol`owner, vol.blocks
      ensures FileGone(old(Now()), Now(), a)
    {
      hide Mounted, FileGone, Holds, FilesOf, OthersSame, BlockCount, BlocksTaken, LiveSlots, Free, Covers, Counted,
           Widths, FileBytes, Resized, SameMeta, DataKept, SlotsKept, Within, Sized, HeldBytes, WordsOf;
      ghost var s := Now();
      SizeOfPointers(s);
      InodeParts(s, a);
      LoadedHolds(inode, a);
      var r := Resize(vol, inode, 0, a, FilesOf(vol.p, table));
      NoneTaken(vol.p, s.table[a].size, 0);
      inode.links, inode.mode := 0, 0;
      FreeInode(a, s);
      Save(a, inode);
      SavedMounted(s, inode, a);
      GoneEnds(s, Now(), a);
    }

    /** `procesarUnlink`: removes the file that the path names; -2 when there is none.  The program does not look at
        the type: a directory is removed too, whatever it lists. */
    method Unlink(path: seq<Byte>) returns (r: int)
      requires Apart() && Valid(Now()) && CanUnlink(Now(), path)
      modifies this`table, inodes, vol`disk, vol`owner, vol.blocks
      ensures Valid(Now()) <==> Childless(Directories(old(Now())), Target(old(Now()), path))
      ensures if Childless(Directories(old(Now())), Target(old(Now()), path))
              then UnlinkServed(old(Now()), Now(), path, r)
              else r == 0 && Orphaned(old(Now()), Now(), path)
    {
      hide Mounted, Treed, CanRemove, Searchable, EntryRemoved, FileGone, DirsIn, Used, Tokens, Resolve, CutAt,
           FileUnlinked, DirRemoved, Orphaned, UnlinkRecords, Childless, ParentOf, ThroughDirs, IsDot, SameMeta,
           DataKept, SlotsKept, Within;
      ghost var s := Now();
      ValidFacts(s);
      RemoveFacts(s, path);
      NotThere(Directories(s));
      var dir, name := Separate(path);
      Cut(path, dir, name);
      ghost var k := FindEntry(s, path, dir, name);
      var a := FindPath(path, Used(s));
      var d := FindPath(dir, Used(s));
      if a == 0 || d == 0 {
        return -2;
      }
      var inode := Load(a);
      if inode.mode == 0 {
        ModeOfDirectory(s, a);
        return -2;
      }
      CutName(path, dir, name);
      DirectorySearchable(s, d);
      RemoveFrom(d, a);
      ghost var t := Now();
      AfterRemoval(s, t, d, a);
      Discard(a, inode);
      if a !in Directories(s) {
        FileChildless(Directories(s), a);
        UnlinkEnds(s, t, Now(), path, d, k, a);
      } else if Childless(Directories(s), a) {
        DirectoryGone(s, t, Now(), path, d, k, a);
      } else {
        DirectoryOrphans(s, t, Now(), path, d, k, a);
      }
      return 0;
    }

    lemma NotThere(dirs: Dirs)
      requires 0 !in dirs
      ensures Childless(dirs, 0)
    {
    }

    lemma FileChildless(dirs: Dirs, a: nat)
      requires a !in dirs
      ensures Childless(dirs, a)
    {
    }

    /** An inode without a mode is not a directory. */
    lemma ModeOfDirectory(s: State, a: nat)
      requires Valid(s) && s.p > 0 && a in s.table && s.table[a].mode == 0
      ensures Childless(Directories(s), a)
    {
      hide Mounted, Treed, BlocksOf;
    }

    /** `procesarRmdir`: removes the directory that the path names, if it has no entries but its two
        dots (-39 otherwise); -2 when there is none. */
    method Rmdir(path: seq<Byte>) returns (r: int)
      requires Apart() && Valid(Now()) && CanRmdir(Now(), path)
      modifies this`table, inodes, vol`disk, vol`owner, vol.blocks
      ensures Valid(Now()) && RmdirServed(old(Now()), Now(), path, r)
    {
      hide Mounted, Treed, CanRemove, Searchable, EntryRemoved, FileGone, DirsIn, Used, Tokens, Resolve, CutAt,
           DirRemoved, RmdirRecords, ParentOf, ThroughDirs, ListingOf, IsDirectory, IsDot,
           Holds, SameMeta, DataKept, SlotsKept, Within;
      ghost var s := Now();
      ValidFacts(s);
      RemoveFacts(s, path);
      var dir, name := Separate(path);
      Cut(path, dir, name);
      ghost var k := FindEntry(s, path, dir, name);
      var a := FindPath(path, Used(s));
      var d := FindPath(dir, Used(s));
      if a == 0 || d == 0 {
        return -2;
      }
      var inode := Load(a);
      LoadedHolds(inode, a);
      DirectoryFacts(s, a, Used(s));
      var count := CountEntries(vol, inode, a, FilesOf(vol.p, table));
      if count != 2 {
        return -39;
      }
      CutName(path, dir, name);
      DirectorySearchable(s, d);
      r := RemoveEmpty(path, d, a, k, inode, s);
    }

    lemma CutName(path: seq<Byte>, dir: seq<Byte>, name: Name)
      requires CutAt(path, dir, name) && name != []
      ensures Tokens(path) != [] && Tokens(path)[|Tokens(path)| - 1] == name
    {
    }

    /** The steps of `Rmdir` once the directory is known to be empty. */
    method RemoveEmpty(path: seq<Byte>, d: nat, a: nat, ghost k: nat, inode: Inode, ghost s: State) returns (r: int)
      requires Apart() && s == Now() && Valid(s) && CanRmdir(s, path) && a == Target(s, path) && a != 0
      requires d == Parent(s, path)
      requires d in Directories(s) && k < |Directories(s)[d]| && a in Used(s) && a in table
      requires Tokens(path) != [] && Directories(s)[d][k] == Entry(Tokens(path)[|Tokens(path)| - 1], a)
      requires a in Directories(s) && |Directories(s)[a]| == 2
      requires Searchable(s, d) && inode.size == table[a].size && inode.block == table[a].block
      modifies inode, this`table, inodes, vol`disk, vol`owner, vol.blocks
      ensures Valid(Now()) && DirRemoved(s, Now(), path) && RmdirRecords(s, Now(), d, a) && r == 0
    {
      hide Mounted, Treed, CanRmdir, Searchable, EntryRemoved, FileGone, DirsIn, Used, Tokens, Resolve, DirRemoved,
           RmdirRecords, ParentOf, SameMeta, DataKept, SlotsKept, Within;
      ValidFacts(s);
      RemoveFrom(d, a);
      ghost var t := Now();
      AfterRemoval(s, t, d, a);
      Discard(a, inode);
      ghost var u := Now();
      StillThere(s, t, u, d, a);
      var parent := Load(d);
      parent.links := (parent.links + 0xFFFF) % 0x1_0000;
      Save(d, parent);
      RmdirEnds(s, t, u, Now(), path, d, k, a, parent.links);
      return 0;
    }

    /** `procesarMkdir`: a new directory under a new name; -2 when the directory for it does not exist.  For a path
        that is there already the program answers -2 too, but has added an entry for the inode that it gives back,
        and a block to that inode. */
    method Mkdir(path: seq<Byte>) returns (r: int, ghost inode: nat)
      requires Apart() && Valid(Now()) && CanTry(Now(), path, 1)
      modifies this, inodes, vol`disk, vol`owner, vol.blocks
      ensures Valid(Now()) <==> Target(old(Now()), path) == 0
      ensures r == if Parent(old(Now()), path) == 0 || Target(old(Now()), path) != 0 then -2 else 0
      ensures if Target(old(Now()), path) != 0
              then && DoubleEntry(old(Now()), Now(), path, inode)
                   && MkdirRecords(old(Now()), Now(), Parent(old(Now()), path), LastName(path), inode)
              else if r == 0 then DirCreated(old(Now()), Now(), path, inode)
              else NotCreated(old(Now()), Now(), inode, 0x41ED, 2)
    {
      hide Mounted, Treed, Tokens, DirsIn, Used, ThroughDirs, Resolve, Ready, EntryAdded, DirCreated, NotCreated,
           CutAt, IsNewName, Allocated, ParentOf, Free, Covers, Counted, SameMeta, DataKept, SlotsKept, Within,
           LastName, DoubleEntry, Made, MkdirRecords;
      ghost var s := Now();
      ValidFacts(s);
      CanTryFacts(s, path, 1);
      var dir, name := Separate(path);
      Cut(path, dir, name);
      TryFacts(s, path, dir, name, 1);
      LastNameIs(path, dir, name);
      var i := AllocateInode(DIR_MODE, 2);
      ghost var t := Now();
      AllocatedFacts(s, t, i, DIR_MODE, 2);
      inode := i;
      var d := FindPath(dir, Used(s));
      if d == 0 {
        ParentOfTarget(s, path);
        FreeInode(i, t);
        assert InodeFreed(t, Now(), i);
        GivenUp(s, t, Now(), i, DIR_MODE, 2);
        return -2, i;
      }
      var there := FindPath(path, Used(s));
      StillReady(s, t, i, DIR_MODE, 2, d, name, 1);
      ghost var u, v, w := MakeDirectory(d, name, i, s, t);
      ghost var y := Now();
      if there != 0 {
        FreeInode(i, t);
        assert InodeFreed(y, Now(), i);
        MadeTwice(s, t, u, v, w, y, Now(), path, d, name, i);
        return -2, i;
      }
      PlacedDirectory(s, d);
      place := s.place[i := Place(d, s.place[d].depth + 1)];
      CreateFacts(s, path, dir, name, 1);
      MadeNew(s, t, u, v, w, y, Now(), path, d, name, i);
      return 0, i;
    }

    /** The steps of `MakeDirectory`: three entries, and one link more for the parent. */
    ghost predicate Made(t: State, u: State, v: State, w: State, y: State, d: nat, name: Name, i: nat) {
      && t.p > 0 && i in u.table && d in w.table && d in y.table
      && EntryAdded(t, u, d, name, i, 1) && EntryAdded(u, v, i, DOT, i, 0) && EntryAdded(v, w, i, DOTDOT, d, 0)
      && Ready(u, i, DOT, 0) && u.p > 0 && BlocksOf(u.p, u.disk, u.table[i]) == [] && u.table[i].size == 0
      && y.table[d].links == (w.table[d].links + 1) % 0x1_0000
      && y == w.(table := w.table[d := Record(w.table[d].mode, y.table[d].links, w.table[d].size, w.table[d].block)])
      && Mounted(y)
    }

    /** The steps of `Mkdir` once its inode is allocated and its parent is found. */
    method MakeDirectory(d: nat, name: Name, i: nat, ghost s: State, ghost t: State)
        returns (ghost u: State, ghost v: State, ghost w: State)
      requires Apart() && Valid(s) && t == Now() && Allocated(s, t, i, DIR_MODE, 2) && d in Used(s)
      requires s.p > 0 && d in Directories(s) && Ready(t, d, name, 1)
      modifies this`table, vol`disk, vol`owner, vol.blocks
      ensures Made(t, u, v, w, Now(), d, name, i)
    {
      hide Valid, Mounted, Treed, Tokens, DirsIn, Used, Resolve, Ready, EntryAdded, Allocated, Made, MustGrow,
           Elsewhere, BlocksOf, Tabled, SameMeta, DataKept, SlotsKept, Within;
      AllocatedNew(s, t, i);
      PlacedDirectory(s, d);
      AddTo(d, name, i, 1);
      u := Now();
      FirstReady(t, u, d, name, i);
      AddTo(i, DOT, i, 0);
      v := Now();
      SecondReady(u, v, i, DOT, i);
      AddTo(i, DOTDOT, d, 0);
      w := Now();
      TableKept(t, u, v, w, d, name, i);
      var parent := Load(d);
      parent.links := (parent.links + 1) % 0x1_0000;
      Save(d, parent);
      MadeBy(t, u, v, w, Now(), d, name, i, parent.links);
    }

    lemma MadeBy(t: State, u: State, v: State, w: State, y: State, d: nat, name: Name, i: nat, links: nat)
      requires t.p > 0 && i in t.table && t.table[i].mode == DIR_MODE && t.table[i].size == 0 && i != d
      requires Ready(t, d, name, 1) && d in w.table
      requires EntryAdded(t, u, d, name, i, 1) && EntryAdded(u, v, i, DOT, i, 0) && EntryAdded(v, w, i, DOTDOT, d, 0)
      requires links == (w.table[d].links + 1) % 0x1_0000
      requires y == w.(table := w.table[d := Record(w.table[d].mode, links, w.table[d].size, w.table[d].block)])
      ensures Made(t, u, v, w, y, d, name, i)
    {
      hide Mounted, Ready, EntryAdded, BlocksOf;
      FirstReady(t, u, d, name, i);
      EntryFrame(t, u, d, name, i, 1);
      EntryOne(t, u, d, name, i, 1);
      LinksMounted(v, w, y, i, d, links);
    }

    lemma LinksMounted(v: State, w: State, y: State, i: nat, d: nat, links: nat)
      requires EntryAdded(v, w, i, DOTDOT, d, 0) && d in w.table
      requires y == w.(table := w.table[d := Record(w.table[d].mode, links, w.table[d].size, w.table[d].block)])
      ensures Mounted(y)
    {
      hide Good, Tally, Geometry, Settled, Covers, Counted, Elsewhere, Added;
      FilesSaved(w.p, w.table, d, y.table[d]);
      FilesEntry(w.p, w.table, d);
      assert y.table.Keys == w.table.Keys;
      assert FilesOf(w.p, y.table) == FilesOf(w.p, w.table);
    }

    lemma MadeTwice(s: State, t: State, u: State, v: State, w: State, y: State, z: State,
                    path: seq<Byte>, d: nat, name: Name, i: nat)
      requires Valid(s) && Allocated(s, t, i, DIR_MODE, 2) && d in Directories(s) && d == Parent(s, path)
      requires name == LastName(path) && |name| < 256 && Made(t, u, v, w, y, d, name, i) && InodeFreed(y, z, i)
      ensures DoubleEntry(s, z, path, i) && !Valid(z) && MkdirRecords(s, z, d, name, i)
    {
      hide Mounted, Treed, DirsIn, Used, EntryAdded, Ready, Allocated, BlocksOf, LastName, ParentOf, InodeFreed,
           DoubleEntry, MkdirRecords;
      DirTwice(s, t, u, v, w, y, z, path, d, name, i, y.table[d].links);
    }

    lemma MadeNew(s: State, t: State, u: State, v: State, w: State, y: State, z: State,
                  path: seq<Byte>, d: nat, name: Name, i: nat)
      requires Valid(s) && Allocated(s, t, i, DIR_MODE, 2) && d in Used(s) && IsNewName(Directories(s), path, d, name)
      requires Made(t, u, v, w, y, d, name, i) && d in s.place && name == LastName(path)
      requires z == y.(place := s.place[i := Place(d, s.place[d].depth + 1)])
      ensures Valid(z) && DirCreated(s, z, path, i)
    {
      hide Mounted, Treed, DirsIn, Used, EntryAdded, Ready, Allocated, BlocksOf, IsNewName, DirEntered, MkdirRecords,
           LastName;
      ValidTree(s);
      AllocatedNew(s, t, i);
      MkdirRecordsAre(s, t, u, v, w, z, d, name, i);
      var x := w.(place := z.place);
      DirLinked(s, t, u, v, w, x, path, d, name, i);
      NewEntryFacts(s, path, d, name);
      ParentCounted(s, x, z, path, i, d, y.table[d].links);
    }

    lemma PlacedDirectory(s: State, d: nat)
      requires Valid(s) && s.p > 0 && d in Directories(s)
      ensures 0 < d < TWO32 && d in s.place && s.p > 0
    {
      hide Mounted, DirsOf, Used, Tabled, TreeOk;
      ValidFacts(s);
      DirectoryFacts(s, d, Used(s));
      DirPlaced(Directories(s), Used(s), s.place, d);
    }

    lemma NewEntryFacts(s: State, path: seq<Byte>, d: nat, name: Name)
      requires Valid(s) && d in Used(s) && IsNewName(Directories(s), path, d, name)
      ensures 0 < d < TWO32 && d in s.place && d == Parent(s, path)
    {
      hide Mounted, Tokens, DirsOf, Used, Tabled, TreeOk, NoName, Names,
           ParentOf, SameMeta, DataKept, SlotsKept, Within;
      ValidFacts(s);
      DirectoryFacts(s, d, Used(s));
      DirPlaced(Directories(s), Used(s), s.place, d);
      NewNameParent(Directories(s), path, d, name);
    }

    lemma NewNameParent(dirs: Dirs, path: seq<Byte>, d: nat, name: Name)
      requires IsNewName(dirs, path, d, name)
      ensures d == ParentOf(dirs, path)
    {
      hide Tokens, ParentOf, SameMeta, DataKept, SlotsKept, Within;
    }

    lemma DirPlaced(dirs: Dirs, used: set<nat>, place: map<nat, Place>, d: nat)
      requires TreeOk(dirs, used, place) && d in dirs
      ensures d in place
    {
      assert DirOk(dirs, used, place, d);
    }

    lemma FirstReady(t: State, u: State, d: nat, name: Name, i: nat)
      requires EntryAdded(t, u, d, name, i, 1) && i in t.table && t.table[i].mode == DIR_MODE && t.table[i].size == 0
      requires i != d
      requires Ready(t, d, name, 1)
      ensures Ready(u, i, DOT, 0) && BlocksOf(u.p, u.disk, u.table[i]) == [] && u.table[i].size == 0
    {
      hide Mounted, BlocksOf, IsDirectory, Inserted, Appended, SplitOff, EntryPut, HasPlace,
           MustGrow, SameMeta, DataKept, SlotsKept, Within;
      FreshReady(u, i);
    }

    lemma TableKept(t: State, u: State, v: State, w: State, d: nat, name: Name, i: nat)
      requires EntryAdded(t, u, d, name, i, 1) && EntryAdded(u, v, i, DOT, i, 0) && EntryAdded(v, w, i, DOTDOT, d, 0)
      ensures d in w.table
    {
      hide Mounted, BlocksOf, SameMeta, DataKept, SlotsKept, Within;
    }

    lemma ParentCounted(s: State, x: State, y: State, path: seq<Byte>, i: nat, d: nat, links: nat)
      requires s.p > 0 && Valid(x) && DirEntered(s, x, path, i) && d in x.table && d == Parent(s, path)
      requires y == x.(table := x.table[d := Record(x.table[d].mode, links, x.table[d].size, x.table[d].block)])
      ensures Valid(y) && DirEntered(s, y, path, i)
    {
      hide Mounted, Treed, Used, Tokens, DirsIn, Resolve, Elsewhere, Untouched,
           Passes, SameMeta, DataKept, SlotsKept, Within;
      LinksKept(x, y, d, links);
      UntouchedMore(s.p, s.disk, s.table, x.disk, x.table, {i} + {d}, y.disk, y.table, d);
      assert {i} + {d} + {d} == {i} + {d};
    }
  }
}
