/** Runs of requests: what holds of every state that any sequence of requests can lead to. */
module Runs {
  import opened Arithmetic
  import opened Bytes
  import opened BlockTree
  import opened Ownership
  import opened Allocation
  import opened Storage
  import opened Truncation
  import opened FileContents
  import opened FileIO
  import opened Paths
  import opened DirTree
  import opened Directory
  import opened FileTable
  import opened States
  import opened FileSystem

  datatype Request =
    | TruncateRequest(path: seq<Byte>, size: nat)
    | WriteRequest(path: seq<Byte>, offset: nat, data: seq<Byte>)
    | CreateRequest(path: seq<Byte>)
    | UnlinkRequest(path: seq<Byte>)
    | MkdirRequest(path: seq<Byte>)
    | RmdirRequest(path: seq<Byte>)

  /** The requests that the server handles as it should in this state. */
  predicate Admissible(s: State, q: Request) {
    match q
    case TruncateRequest(path, size) => CanTouch(s, path) && size < TWO32
    case WriteRequest(path, offset, data) => CanTouch(s, path) && offset + |data| < TWO32
    case CreateRequest(path) => CanCreate(s, path, 0)
    case MkdirRequest(path) => CanCreate(s, path, 1)
    case UnlinkRequest(path) => CanUnlink(s, path) && Childless(Directories(s), Target(s, path))
    case RmdirRequest(path) => CanRmdir(s, path)
  }

  /** What serving a request does to the state. */
  ghost predicate Served(s: State, t: State, q: Request) {
    s.p > 0 && match q
    case TruncateRequest(path, size) => exists r :: Truncated(s, t, path, size, r)
    case WriteRequest(path, offset, data) => exists r :: WriteServed(s, t, path, offset, data, r)
    case CreateRequest(path) => exists i :: if Parent(s, path) == 0 then NotCreated(s, t, i, 0x8124, 1) else
      FileCreated(s, t, path, i)
    case MkdirRequest(path) => exists i :: if Parent(s, path) == 0 then NotCreated(s, t, i, 0x41ED, 2) else
      DirCreated(s, t, path, i)
    case UnlinkRequest(path) => exists r :: UnlinkServed(s, t, path, r)
    case RmdirRequest(path) => exists r :: RmdirServed(s, t, path, r)
  }

  /** The requests that the server carries out although they break the state: creating what is there already, and
      unlinking a directory with subdirectories. */
  predicate Harmful(s: State, q: Request) {
    match q
    case CreateRequest(path) => CanTry(s, path, 0) && Target(s, path) != 0
    case MkdirRequest(path) => CanTry(s, path, 1) && Target(s, path) != 0
    case UnlinkRequest(path) => CanUnlink(s, path) && !Childless(Directories(s), Target(s, path))
    case _ => false
  }

  /** What they do to the state. */
  ghost predicate Broken(s: State, t: State, q: Request) {
    s.p > 0 && match q
    case CreateRequest(path) =>
      exists i :: DoubleEntry(s, t, path, i) && CreateRecords(s, t, Parent(s, path), LastName(path), i)
    case MkdirRequest(path) =>
      exists i :: DoubleEntry(s, t, path, i) && MkdirRecords(s, t, Parent(s, path), LastName(path), i)
    case UnlinkRequest(path) => Orphaned(s, t, path)
    case _ => false
  }

  /** One step of a run: requests that are not modelled are skipped. */
  ghost predicate StepOf(s: State, t: State, q: Request) {
    if Admissible(s, q) then Served(s, t, q) else if Harmful(s, q) then Broken(s, t, q) else t == s
  }

  /** The reserved blocks do not change. */
  lemma StepMeta(s: State, t: State, q: Request)
    requires StepOf(s, t, q) && !Harmful(s, q)
    ensures SameMeta(s.owner, t.owner)
  {
    hide Mounted, Elsewhere, Untouched, Used, DirsIn, Tokens, Resolve, Admissible, Harmful, Broken,
         TruncateDone, WriteDone, CreatedAs, ParentOf, CreateRecords, MkdirRecords, LastName, Added;
    SameMetaRefl(s.owner);
  }

  /** What the fields say without the specification's own. */
  function View(fs: FileSystem): State
    reads fs`table, fs.vol`disk, fs.vol.blocks, fs.inodes
  {
    State(fs.vol.p, fs.vol.disk, map[],
          Bits(fs.vol.blocks.space, fs.vol.blocks.bitmap, fs.vol.blocks.groupFree, fs.vol.blocks.totalFree),
          Bits(fs.inodes.space, fs.inodes.bitmap, fs.inodes.groupFree, fs.inodes.totalFree), fs.table, map[])
  }

  lemma SameView(s: State, q: Request)
    ensures Admissible(s.(owner := map[], place := map[]), q) == Admissible(s, q)
    ensures Harmful(s.(owner := map[], place := map[]), q) == Harmful(s, q)
  {
    hide Free, DirsOf, Tokens, Resolve, Room, Childless;
    var t := s.(owner := map[], place := map[]);
    assert Used(t) == Used(s);
  }

  /** Serves one request: the state stays valid exactly if the request is admissible. */
  method Serve(fs: FileSystem, q: Request)
    requires fs.Apart() && Valid(fs.Now()) && (Admissible(fs.Now(), q) || Harmful(fs.Now(), q))
    modifies fs, fs.inodes, fs.vol`disk, fs.vol`owner, fs.vol`cache, fs.vol.blocks
    ensures Valid(fs.Now()) <==> !Harmful(old(fs.Now()), q)
    ensures if Harmful(old(fs.Now()), q) then Broken(old(fs.Now()), fs.Now(), q) else Served(old(fs.Now()), fs.Now(), q)
    ensures !q.WriteRequest? ==> fs.vol.cache == old(fs.vol.cache)
    ensures q.WriteRequest? ==>
              && RawWord(fs.vol.Words(), 0, 0) == old(RawWord(fs.vol.Words(), 0, 0))
              && (RawWord(fs.vol.Words(), 0, 0) == 0 ==>
                    Refilled(fs.vol.p, old(fs.vol.cache), fs.vol.cache, fs.vol.disk, fs.vol.owner,
                             Target(old(fs.Now()), q.path), Quot(q.offset, 4 * fs.vol.p), Rem(q.offset, 4 * fs.vol.p)))
              && (Rem(q.offset, 4 * fs.vol.p) == 0 && RawWord(fs.vol.Words(), 0, 0) == 0 &&
                  CacheClean(old(fs.vol.cache), old(fs.vol.disk), old(fs.vol.owner)) ==>
                    CacheClean(fs.vol.cache, fs.vol.disk, fs.vol.owner))
  {
    hide Refilled, Quot, Rem, Valid, CanTouch, CanTry, CanUnlink, CanRmdir, Truncated, WriteServed, UnlinkServed,
         RmdirServed, NotCreated, FileCreated, DirCreated, CacheClean, WordsOf, RawWord, ParentOf, Used, DirsIn,
         DoubleEntry, Orphaned, CreateRecords, MkdirRecords, LastName, Childless, Resolve, Tokens;
    ghost var s := fs.Now();
    PointersPositive(s);
    match q {
      case TruncateRequest(path, size) =>
        var r := fs.Truncate(path, size);
      case WriteRequest(path, offset, data) =>
        var r := fs.Write(path, offset, data);
      case CreateRequest(path) =>
        ghost var i: nat;
        var r;
        r, i := fs.Create(path);
      case MkdirRequest(path) =>
        ghost var i: nat;
        var r;
        r, i := fs.Mkdir(path);
      case UnlinkRequest(path) =>
        var r := fs.Unlink(path);
      case RmdirRequest(path) =>
        var r := fs.Rmdir(path);
    }
  }

  lemma PointersPositive(s: State)
    requires Valid(s)
    ensures s.p > 0
  {
  }

  /** The states of a run, first to last. */
  ghost predicate IsRun(trace: seq<State>, requests: seq<Request>) {
    && |trace| == |requests| + 1
    && (forall k :: 0 <= k < |trace| ==> Valid(trace[k]) && SameMeta(trace[0].owner, trace[k].owner))
    && (forall k {:trigger requests[k]} :: 0 <= k < |requests| ==> StepOf(trace[k], trace[k + 1], requests[k]))
  }

  lemma RunStart(s: State)
    requires Valid(s)
    ensures IsRun([s], [])
  {
    hide Valid, StepOf;
    SameMetaRefl(s.owner);
  }

  lemma RunLonger(trace: seq<State>, requests: seq<Request>, t: State, q: Request)
    requires IsRun(trace, requests) && Valid(t) && StepOf(trace[|trace| - 1], t, q) && !Harmful(trace[|trace| - 1], q)
    ensures IsRun(trace + [t], requests + [q])
  {
    hide Valid, SameMeta, StepOf, Harmful;
    StepMeta(trace[|trace| - 1], t, q);
    SameMetaTrans(trace[0].owner, trace[|trace| - 1].owner, t.owner);
  }

  /** Any sequence of requests, from any valid state, goes through valid states only, up to the first request
      that is harmful, if there is one: that one is carried out too, and leaves a state that is not valid. */
  method Run(fs: FileSystem, requests: seq<Request>) returns (n: nat, ghost trace: seq<State>)
    requires fs.Apart() && Valid(fs.Now())
    modifies fs, fs.inodes, fs.vol`disk, fs.vol`owner, fs.vol`cache, fs.vol.blocks
    ensures n <= |requests| && IsRun(trace, requests[..n]) && trace[0] == old(fs.Now())
    ensures forall k :: 0 <= k < n ==> !Harmful(trace[k], requests[k])
    ensures n == |requests| ==> Valid(fs.Now()) && trace[n] == fs.Now()
    ensures n < |requests| ==>
              Harmful(trace[n], requests[n]) && StepOf(trace[n], fs.Now(), requests[n]) && !Valid(fs.Now())
  {
    hide Valid, Admissible, Harmful, Served, Broken, IsRun;
    trace := [fs.Now()];
    RunStart(fs.Now());
    assert requests[..0] == [];
    n := 0;
    while n < |requests|
      invariant 0 <= n <= |requests| && |trace| == n + 1 && IsRun(trace, requests[..n])
      invariant Valid(fs.Now()) && trace[0] == old(fs.Now()) && trace[n] == fs.Now()
      invariant forall k :: 0 <= k < n ==> !Harmful(trace[k], requests[k])
    {
      ghost var s := fs.Now();
      var q := requests[n];
      SameView(s, q);
      assert View(fs) == s.(owner := map[], place := map[]);
      if Admissible(s, q) {
        NotBoth(s, q);
      }
      if Harmful(View(fs), q) {
        Serve(fs, q);
        return n, trace;
      }
      if Admissible(View(fs), q) {
        Serve(fs, q);
      }
      RunLonger(trace, requests[..n], fs.Now(), q);
      assert requests[..n + 1] == requests[..n] + [q];
      trace := trace + [fs.Now()];
      n := n + 1;
    }
    assert requests[..n] == requests;
  }

  lemma NotBoth(s: State, q: Request)
    requires Admissible(s, q)
    ensures !Harmful(s, q)
  {
    hide CanTry, CanUnlink, Childless, Directories, Resolve, Tokens;
  }

  /** Block `b` is what slot `slot` of file `i` points to, and the slot is in use. */
  ghost predicate Reaches(s: State, i: nat, slot: Slot, b: nat)
    requires s.p > 0
  {
    && i in s.table && slot in LiveSlots(s.p, BlockCount(s.p, s.table[i].size))
    && PtrAt(s.table[i].block, WordsOf(s.p, s.disk), slot) == b
  }

  /** In a valid state a block's bit is set exactly when the block is reserved or reachable from a file. */
  lemma BitmapExact(s: State, b: nat)
    requires Valid(s) && s.blocks.space.InRange(b)
    ensures !Free(s.blocks.space, s.blocks.bitmap, b) <==>
            (b in s.owner && s.owner[b] == Meta) || (exists i, slot :: Reaches(s, i, slot, b))
  {
    hide Sane, Covers, Counted, Free, Geometry, LiveSlots, BlockCount;
    var w, files := WordsOf(s.p, s.disk), FilesOf(s.p, s.table);
    if b in s.owner && s.owner[b].Of? {
      var i, slot := s.owner[b].ino, s.owner[b].slot;
      assert Reached(w, files, s.owner[b], b);
      FilesEntry(s.p, s.table, i);
      assert Reaches(s, i, slot, b);
    }
    forall i, slot | Reaches(s, i, slot, b) ensures b in s.owner {
      FilesEntry(s.p, s.table, i);
      assert Placed(s.p, w, s.owner, i, files[i]);
      assert Owns(w, s.owner, files[i].ip, i, slot);
    }
  }

  /** No block is reachable twice, and no reserved block is reachable. */
  lemma ReachedOnce(s: State, i: nat, slot: Slot, j: nat, slot': Slot, b: nat)
    requires Valid(s) && Reaches(s, i, slot, b) && Reaches(s, j, slot', b)
    ensures i == j && slot == slot' && b in s.owner && s.owner[b] != Meta
  {
    hide Sane, Covers, Counted, Free, Geometry, LiveSlots, BlockCount;
    var w, files := WordsOf(s.p, s.disk), FilesOf(s.p, s.table);
    FilesEntry(s.p, s.table, i);
    FilesEntry(s.p, s.table, j);
    assert Placed(s.p, w, s.owner, i, files[i]);
    assert Owns(w, s.owner, files[i].ip, i, slot);
    NoSharing(s.p, w, files, s.owner, i, slot, j, slot');
  }

  /** A free inode has size 0 and fifteen zero pointers. */
  lemma FreeInodeEmpty(s: State, i: nat)
    requires Valid(s) && i in s.table && Free(s.inodes.space, s.inodes.bitmap, i)
    ensures s.table[i].size == 0 && |s.table[i].block| == 15
    ensures forall k :: 0 <= k < 15 ==> s.table[i].block[k] == 0
  {
    hide Covers, Counted, Free, Geometry, TreeOk, IsDirectory, Tally;
    var w, files, f := WordsOf(s.p, s.disk), FilesOf(s.p, s.table), FilesOf(s.p, s.table)[i];
    assert i !in Used(s) && s.table[i].size == 0;
    EmptyCount(s.p, s.disk, s.table[i].block);
    assert Placed(s.p, w, s.owner, i, f);
    forall k | 0 <= k < 15 ensures s.table[i].block[k] == 0 {
      NoLiveTop(s.p, k);
      assert PtrAt(f.ip, w, Top(k)) == 0;
    }
  }

  lemma NoLiveTop(p: nat, k: nat)
    requires p > 0 && k < 15
    ensures WellFormed(p, Top(k)) && Top(k) !in LiveSlots(p, 0)
  {
  }

  /** Requests for names in the root directory are served: with a free inode and five free blocks, any name that is
      not listed can be created, a file can be truncated, written and unlinked, and a directory removed. */
  lemma RootNamesServed(s: State, name: Name)
    requires s.p > 0 && Valid(s) && name != [] && 47 !in name && |name| < 256 && name != [46] && name != [46, 46]
    ensures 2 in Directories(s) && 2 in s.table
    ensures var path, a := [47] + name, Lookup(Directories(s)[2], name);
            && (a == 0 && s.inodes.totalFree > 0 && s.blocks.totalFree >= 5 && s.table[2].size + 4 * s.p < TWO32 ==>
                  Admissible(s, CreateRequest(path)) && Admissible(s, MkdirRequest(path)))
            && (a != 0 && a !in Directories(s) ==>
                  && (forall size: nat :: size < TWO32 ==> Admissible(s, TruncateRequest(path, size)))
                  && (forall offset: nat, data :: offset + |data| < TWO32 ==>
                        Admissible(s, WriteRequest(path, offset, data)))
                  && Admissible(s, UnlinkRequest(path)))
            && (a in Directories(s) ==>
                  && Admissible(s, RmdirRequest(path))
                  && (Childless(Directories(s), a) ==> Admissible(s, UnlinkRequest(path))))
  {
    hide Valid, Directories, Childless, Lookup, Tokens, Resolve, LastName, ParentOf, ThroughDirs, CanCreate, CanTouch,
         CanUnlink, CanRmdir;
    RootListed(s);
    var path, a := [47] + name, Lookup(Directories(s)[2], name);
    RootPath(Directories(s), name);
    RootCreate(s, path, name);
    RootTouch(s, path);
    RootRemove(s, path, name);
    NoDirectoryNoChild(Directories(s), a);
  }

  lemma RootListed(s: State)
    requires s.p > 0 && Valid(s)
    ensures 2 in Directories(s) && 2 in s.table
  {
    hide Mounted, Tabled;
    ValidFacts(s);
    DirectoryFacts(s, 2, Used(s));
  }

  lemma NoDirectoryNoChild(dirs: Dirs, a: nat)
    ensures a !in dirs ==> Childless(dirs, a)
  {
  }

  lemma RootCreate(s: State, path: seq<Byte>, name: Name)
    requires s.p > 0 && 47 in path && |path| < TWO16 && LastName(path) == name && |name| < 256
    requires ThroughDirs(Directories(s), Tokens(path)) && Parent(s, path) == 2 && 2 in Directories(s)
    requires 2 in s.table
    ensures (Target(s, path) == 0 && s.inodes.totalFree > 0 && s.blocks.totalFree >= 5
             && s.table[2].size + 4 * s.p < TWO32) ==> CanCreate(s, path, 0) && CanCreate(s, path, 1)
  {
    hide Directories, Tokens, Resolve, LastName, ParentOf, ThroughDirs, MustGrow, NewSlots, BlockCount;
    FewBlocks(s.p, BlockCount(s.p, s.table[2].size));
  }

  lemma RootTouch(s: State, path: seq<Byte>)
    requires s.p > 0 && ThroughDirs(Directories(s), Tokens(path))
    ensures Target(s, path) !in Directories(s) ==> CanTouch(s, path)
  {
    hide Directories, Tokens, Resolve, ThroughDirs;
  }

  lemma RootRemove(s: State, path: seq<Byte>, name: Name)
    requires s.p > 0 && 47 in path && |path| < TWO16 && path[|path| - 1] != 47 && Tokens(path) == [name]
    requires ThroughDirs(Directories(s), Tokens(path)) && name != [46] && name != [46, 46]
    ensures CanUnlink(s, path)
    ensures Target(s, path) in Directories(s) ==> CanRmdir(s, path)
  {
    hide Directories, Tokens, Resolve, ThroughDirs;
  }

  /** A name in the root directory, as a path. */
  lemma RootPath(dirs: Dirs, name: Name)
    requires 2 in dirs && name != [] && 47 !in name
    ensures var path := [47] + name;
            && 47 in path && path[|path| - 1] != 47 && |path| == |name| + 1
            && Tokens(path) == [name] && LastName(path) == name && ParentOf(dirs, path) == 2
            && Resolve(dirs, Tokens(path), 2) == Lookup(dirs[2], name) && ThroughDirs(dirs, Tokens(path))
  {
    var path := [47] + name;
    assert path[0] == 47 && path[1..] == name && path[|path| - 1] == name[|name| - 1];
    TokensSlash(path);
    TokensPlain(name);
    hide Tokens, Lookup;
    assert [name][..0] == [] && [name][1..] == [];
    ResolveLast(dirs, [], name, 2);
    assert [] + [name] == [name];
  }

  /** One block more takes at most three pointer blocks. */
  lemma FewBlocks(p: nat, n: nat)
    requires p > 0
    ensures |NewSlots(p, n)| <= 4
  {
    hide Quot, Rem;
    var s := DataSlot(p, n);
    if s.Sub? && s.parent.Sub? && s.parent.parent.Sub? {
      assert s.parent.parent.parent.Top?;
      assert |Chain(s.parent.parent)| <= 2 && |Chain(s.parent)| <= 3;
    } else if s.Sub? && s.parent.Sub? {
      assert |Chain(s.parent)| <= 2;
    }
  }
}
