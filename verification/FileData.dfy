/** The contents of files: finding a block (`Inode_leerBloque`), and what the changes to the block
    tree do, and do not do, to the bytes of every file. */
module FileContents {
  import opened Arithmetic
  import opened Bytes
  import opened BlockTree
  import opened Ownership
  import opened Linking
  import opened Storage
  import opened InodeOps

  /** A pointer read without checking that there is a pointer block: block 0 is read like any other. */
  function RawWord(w: Words, b: nat, k: nat): nat {
    if b < |w| && k < |w[b]| then w[b][k] else 0
  }

  /** `Inode_leerBloque`: the disk block of logical block `n`, as the program computes it. */
  function BlockNumber(p: nat, ip: seq<nat>, w: Words, n: nat): nat
    requires p > 0 && |ip| == 15
  {
    if n < 12 then ip[n]
    else if n - 12 < p then RawWord(w, ip[12], n - 12)
    else if n - 12 - p < p * p then
      var q := n - 12 - p;
      RawWord(w, RawWord(w, ip[13], Quot(q, p)), Rem(q, p))
    else
      var q: nat := n - 12 - p - p * p;
      if q < p * p * p then
        RawWord(w, RawWord(w, RawWord(w, ip[14], Quot(Quot(q, p), p)), Rem(Quot(q, p), p)), Rem(q, p))
      else 0
  }

  /** The number in the four bytes of pointer `k` of block `b`, least significant byte first. */
  function PointerAt(disk: Disk, b: nat, k: nat): nat {
    if b < |disk| && 4 * k + 4 <= |disk[b]| then Number(disk[b][4 * k..4 * k + 4]) else 0
  }

  lemma RawPointer(p: nat, disk: Disk, b: nat, k: nat)
    requires Formatted(p, disk)
    ensures RawWord(WordsOf(p, disk), b, k) == PointerAt(disk, b, k)
  {
    if b < |disk| && k < p {
      WordBytes(disk[b], 4 * k);
    }
  }

  /** The block number in terms of the bytes on the disk: twelve direct pointers, and then one, two and three
      levels of pointer blocks. */
  lemma BlockNumberBytes(p: nat, disk: Disk, ip: seq<nat>, n: nat)
    requires p > 0 && |ip| == 15 && Formatted(p, disk)
    ensures var number := BlockNumber(p, ip, WordsOf(p, disk), n);
            && (n < 12 ==> number == ip[n])
            && (12 <= n < 12 + p ==> number == PointerAt(disk, ip[12], n - 12))
            && (12 + p <= n < 12 + p + p * p ==>
                  var q := n - 12 - p; number == PointerAt(disk, PointerAt(disk, ip[13], q / p), q % p))
            && (12 + p + p * p <= n < 12 + p + p * p + p * p * p ==>
                  var q := n - 12 - p - p * p;
                  number == PointerAt(disk, PointerAt(disk, PointerAt(disk, ip[14], q / p / p), q / p % p), q % p))
  {
    hide PointerAt, RawWord, WordsOf;
    forall b: nat, k: nat ensures RawWord(WordsOf(p, disk), b, k) == PointerAt(disk, b, k) {
      RawPointer(p, disk, b, k);
    }
  }

  /** What following raw pointers to a slot gives. */
  function RawAt(ip: seq<nat>, w: Words, s: Slot): nat {
    match s
    case Top(k) => if k < |ip| then ip[k] else 0
    case Sub(q, k) => RawWord(w, RawAt(ip, w, q), k)
  }

  lemma BlockNumberRaw(p: nat, ip: seq<nat>, w: Words, n: nat)
    requires p > 0 && |ip| == 15 && n < MaxBlocks(p)
    ensures BlockNumber(p, ip, w, n) == RawAt(ip, w, DataSlot(p, n))
  {
    hide Quot, Rem, RawWord;
    var s := DataSlot(p, n);
    match s {
      case Top(_) =>
      case Sub(Top(_), _) =>
      case Sub(Sub(t, a), _) =>
        assert RawAt(ip, w, s.parent) == RawWord(w, RawAt(ip, w, t), a);
        if t.Sub? {
          assert RawAt(ip, w, t) == RawWord(w, RawAt(ip, w, t.parent), t.pos);
        }
    }
  }

  /** On slots in use, raw pointers and checked pointers agree. */
  lemma {:induction false} RawInUse(p: nat, w: Words, owner: map<nat, Owner>, files: map<nat, File>, i: nat, s: Slot)
    requires Good(p, w, files, owner) && i in files && s in files[i].live
    ensures RawAt(files[i].ip, w, s) == PtrAt(files[i].ip, w, s)
    ensures HasBlock(w, owner, i, PtrAt(files[i].ip, w, s), s)
    decreases s
  {
    assert Placed(p, w, owner, i, files[i]);
    assert Owns(w, owner, files[i].ip, i, s);
    if s.Sub? {
      RawInUse(p, w, owner, files, i, s.parent);
    }
  }

  /** For a block that the file has, the program finds the block at its slot. */
  lemma BlockNumberInFile(p: nat, w: Words, owner: map<nat, Owner>, files: map<nat, File>, i: nat, count: nat, n: nat)
    requires p > 0 && n < count && n < MaxBlocks(p)
    requires Good(p, w, files, owner) && i in files && files[i].live == LiveSlots(p, count)
    ensures |files[i].ip| == 15
    ensures BlockNumber(p, files[i].ip, w, n) == PtrAt(files[i].ip, w, DataSlot(p, n))
    ensures HasBlock(w, owner, i, PtrAt(files[i].ip, w, DataSlot(p, n)), DataSlot(p, n))
  {
    assert Placed(p, w, owner, i, files[i]);
    hide Good, DataSlot, BlockNumber;
    DataSlotSound(p, n);
    BlockNumberRaw(p, files[i].ip, w, n);
    RawInUse(p, w, owner, files, i, DataSlot(p, n));
  }

  lemma {:induction false} RawPastEnd(p: nat, w: Words, owner: map<nat, Owner>,
                                      files: map<nat, File>, i: nat, n: nat, s: Slot)
    requires p > 0 && n < MaxBlocks(p) && s in NewSlots(p, n)
    requires Good(p, w, files, owner) && i in files && files[i].live == LiveSlots(p, n)
    requires RawWord(w, 0, 0) == 0
    ensures RawAt(files[i].ip, w, s) == 0
    decreases s
  {
    assert Placed(p, w, owner, i, files[i]);
    NewSlotUnused(p, n, s);
    assert PtrAt(files[i].ip, w, s) == 0;
    if s.Sub? {
      if s.parent in files[i].live {
        RawInUse(p, w, owner, files, i, s.parent);
      } else {
        hide Good;
        DataSlotSound(p, n);
        ChainStarts(p, DataSlot(p, n), s);
        ChainStarts(p, DataSlot(p, n), s.parent);
        FirstOfChild(p, s);
        RawPastEnd(p, w, owner, files, i, n, s.parent);
      }
    }
  }

  /** Just past the end of the file the program finds 0, provided that the disk starts with a zero word. */
  lemma BlockNumberPastEnd(p: nat, w: Words, owner: map<nat, Owner>, files: map<nat, File>, i: nat, n: nat)
    requires p > 0 && Good(p, w, files, owner) && i in files && files[i].live == LiveSlots(p, n)
    requires RawWord(w, 0, 0) == 0
    ensures |files[i].ip| == 15 && BlockNumber(p, files[i].ip, w, n) == 0
  {
    assert Placed(p, w, owner, i, files[i]);
    if n < MaxBlocks(p) {
      hide Good, BlockNumber;
      BlockNumberRaw(p, files[i].ip, w, n);
      RawPastEnd(p, w, owner, files, i, n, DataSlot(p, n));
    }
  }

  /** The data blocks of a file, in order. */
  function Content(p: nat, disk: Disk, ip: seq<nat>, n: nat): seq<seq<Byte>>
    requires p > 0
  {
    seq(n, k requires 0 <= k => BlockAt(disk, PtrAt(ip, WordsOf(p, disk), DataSlot(p, k))))
  }

  /** What the disk holds in the blocks that `ip` and the pointer words `w` lead to. */
  function HeldAt(p: nat, disk: Disk, w: Words, ip: seq<nat>, n: nat): seq<seq<Byte>>
    requires p > 0
  {
    seq(n, k requires 0 <= k => BlockAt(disk, PtrAt(ip, w, DataSlot(p, k))))
  }

  lemma ContentHeld(p: nat, disk: Disk, ip: seq<nat>, n: nat)
    requires p > 0
    ensures Content(p, disk, ip, n) == HeldAt(p, disk, WordsOf(p, disk), ip, n)
  {
  }

  lemma HeldSame(p: nat, disk: Disk, w: Words, w': Words, ip: seq<nat>, n: nat)
    requires p > 0 && n <= MaxBlocks(p) && SamePointers(p, ip, w, ip, w')
    ensures HeldAt(p, disk, w', ip, n) == HeldAt(p, disk, w, ip, n)
  {
    hide DataSlot;
    forall k | 0 <= k < n ensures PtrAt(ip, w', DataSlot(p, k)) == PtrAt(ip, w, DataSlot(p, k)) {
      DataSlotSound(p, k);
    }
  }

  /** If the data blocks that are owned now are as they were on `disk`, a file holds what `disk` holds in
      the blocks that it has now. */
  lemma ContentFound(p: nat, files: map<nat, File>, owner: map<nat, Owner>, disk: Disk, disk': Disk, i: nat, n: nat)
    requires p > 0 && n <= MaxBlocks(p) && |disk'| == |disk|
    requires Good(p, WordsOf(p, disk'), files, owner) && i in files && LiveSlots(p, n) <= files[i].live
    requires forall b :: b in owner && b < |disk| && !IsPointerBlock(owner, b) ==> disk'[b] == disk[b]
    ensures Content(p, disk', files[i].ip, n) == HeldAt(p, disk, WordsOf(p, disk'), files[i].ip, n)
  {
    hide Good, WordsOf, DataSlot;
    var w := WordsOf(p, disk');
    forall k | 0 <= k < n
      ensures var b := PtrAt(files[i].ip, w, DataSlot(p, k)); BlockAt(disk', b) == BlockAt(disk, b)
    {
      DataSlotSound(p, k);
      RawInUse(p, w, owner, files, i, DataSlot(p, k));
    }
  }

  function BlockAt(disk: Disk, b: nat): seq<Byte> {
    if b < |disk| then disk[b] else []
  }

  /** The contents of a file are where its used data slots point. */
  lemma ContentSame(p: nat, disk: Disk, ip: seq<nat>, disk': Disk, ip': seq<nat>, n: nat)
    requires p > 0
    requires forall k :: 0 <= k < n ==>
               BlockAt(disk', PtrAt(ip', WordsOf(p, disk'), DataSlot(p, k))) ==
                 BlockAt(disk, PtrAt(ip, WordsOf(p, disk), DataSlot(p, k)))
    ensures Content(p, disk', ip', n) == Content(p, disk, ip, n)
  {
  }

  /** If all that `owner` lists is owned the same way later, and the data among it is untouched, then
      the contents of the files it lists are the same. */
  lemma ContentKept(p: nat, files: map<nat, File>, owner: map<nat, Owner>, disk: Disk,
                    files': map<nat, File>, owner': map<nat, Owner>, disk': Disk, i: nat, n: nat)
    requires p > 0 && n <= MaxBlocks(p) && |disk'| == |disk|
    requires Good(p, WordsOf(p, disk), files, owner) && Good(p, WordsOf(p, disk'), files', owner')
    requires Within(owner, owner') && files'.Keys == files.Keys
    requires forall b :: b in owner && b < |disk| && !IsPointerBlock(owner, b) ==> disk'[b] == disk[b]
    requires i in files && LiveSlots(p, n) <= files[i].live
    ensures LiveSlots(p, n) <= files'[i].live
    ensures Content(p, disk', files'[i].ip, n) == Content(p, disk, files[i].ip, n)
  {
    hide Good, WordsOf;
    var w, w' := WordsOf(p, disk), WordsOf(p, disk');
    forall s | s in LiveSlots(p, n)
      ensures s in files'[i].live && PtrAt(files'[i].ip, w', s) == PtrAt(files[i].ip, w, s)
    {
      PointerKept(p, w, files, owner, w', files', owner', i, s);
    }
    forall k | 0 <= k < n
      ensures BlockAt(disk', PtrAt(files'[i].ip, w', DataSlot(p, k))) ==
              BlockAt(disk, PtrAt(files[i].ip, w, DataSlot(p, k)))
    {
      DataSlotSound(p, k);
      RawInUse(p, w, owner, files, i, DataSlot(p, k));
    }
    ContentSame(p, disk, files[i].ip, disk', files'[i].ip, n);
  }

  /** Growing any file leaves the contents of every file as they were. */
  lemma ContentGrown(p: nat, files: map<nat, File>, owner: map<nat, Owner>, disk: Disk,
                     files': map<nat, File>, owner': map<nat, Owner>, disk': Disk, i: nat, n: nat)
    requires p > 0 && n <= MaxBlocks(p)
    requires Good(p, WordsOf(p, disk), files, owner) && Good(p, WordsOf(p, disk'), files', owner')
    requires Grown(owner, disk, owner', disk') && files'.Keys == files.Keys
    requires i in files && LiveSlots(p, n) <= files[i].live
    ensures LiveSlots(p, n) <= files'[i].live
    ensures Content(p, disk', files'[i].ip, n) == Content(p, disk, files[i].ip, n)
  {
    hide Good, WordsOf, Content;
    ContentKept(p, files, owner, disk, files', owner', disk', i, n);
  }

  /** Shrinking any file leaves the contents of every file as they were, up to its new end. */
  lemma ContentShrunk(p: nat, files: map<nat, File>, owner: map<nat, Owner>, disk: Disk,
                      files': map<nat, File>, owner': map<nat, Owner>, disk': Disk, i: nat, n: nat)
    requires p > 0 && n <= MaxBlocks(p)
    requires Good(p, WordsOf(p, disk), files, owner) && Good(p, WordsOf(p, disk'), files', owner')
    requires Shrunk(owner, disk, owner', disk') && files'.Keys == files.Keys
    requires i in files && LiveSlots(p, n) <= files'[i].live
    ensures LiveSlots(p, n) <= files[i].live
    ensures Content(p, disk', files'[i].ip, n) == Content(p, disk, files[i].ip, n)
  {
    hide Good, WordsOf, Content;
    forall b | b in owner' && b < |disk'| && !IsPointerBlock(owner', b) ensures disk'[b] == disk[b] {
      assert !IsPointerBlock(owner, b);
    }
    ContentKept(p, files', owner', disk', files, owner, disk, i, n);
  }

  /** Overwriting a data block of a file changes no pointer of any file. */
  lemma DataWrite(p: nat, files: map<nat, File>, owner: map<nat, Owner>, disk: Disk,
                  i: nat, s: Slot, b: nat, blk: seq<Byte>)
    requires Formatted(p, disk) && |blk| == 4 * p
    requires Good(p, WordsOf(p, disk), files, owner) && i in files && s in files[i].live && Height(s) == 0
    requires b == PtrAt(files[i].ip, WordsOf(p, disk), s)
    ensures b < |disk| && b in owner && owner[b] == Of(i, s)
    ensures Good(p, WordsOf(p, disk[b := blk]), files, owner)
    ensures forall j :: j in files ==>
            SamePointers(p, files[j].ip, WordsOf(p, disk), files[j].ip, WordsOf(p, disk[b := blk]))
  {
    hide Good, WordsOf, SamePointers;
    RawInUse(p, WordsOf(p, disk), owner, files, i, s);
    WordsLength(p, disk);
    WordsUpdate(p, disk, b, blk);
    WordsLength(p, disk[b := blk]);
    Scribble(p, WordsOf(p, disk), WordsOf(p, disk[b := blk]), files, owner, b);
  }

  /** It changes that block of that file, and no other byte of any file. */
  lemma DataWriteContent(p: nat, files: map<nat, File>, owner: map<nat, Owner>,
                         disk: Disk, i: nat, k: nat, b: nat, blk: seq<Byte>,
                         j: nat, n: nat)
    requires p > 0 && k < MaxBlocks(p) && n <= MaxBlocks(p) && Formatted(p, disk) && |blk| == 4 * p
    requires Good(p, WordsOf(p, disk), files, owner) && i in files && DataSlot(p, k) in files[i].live
    requires b == PtrAt(files[i].ip, WordsOf(p, disk), DataSlot(p, k))
    requires j in files && LiveSlots(p, n) <= files[j].live
    ensures b < |disk|
    ensures Content(p, disk[b := blk], files[j].ip, n) ==
            if j == i && k < n then Content(p, disk, files[j].ip, n)[k := blk] else Content(p, disk, files[j].ip, n)
  {
    hide Good, WordsOf, DataSlot;
    DataSlotSound(p, k);
    DataWrite(p, files, owner, disk, i, DataSlot(p, k), b, blk);
    var w, w' := WordsOf(p, disk), WordsOf(p, disk[b := blk]);
    assert SamePointers(p, files[j].ip, w, files[j].ip, w');
    forall m | 0 <= m < n
      ensures Content(p, disk[b := blk], files[j].ip, n)[m] ==
              if j == i && m == k then blk else Content(p, disk, files[j].ip, n)[m]
    {
      DataSlotSound(p, m);
      if PtrAt(files[j].ip, w, DataSlot(p, m)) == b {
        NoSharing(p, w, files, owner, i, DataSlot(p, k), j, DataSlot(p, m));
      }
    }
  }

  lemma WordsLength(p: nat, disk: Disk)
    requires Formatted(p, disk)
    ensures |WordsOf(p, disk)| == |disk| && forall b :: 0 <= b < |disk| ==> |WordsOf(p, disk)[b]| == p
  {
  }

  /** What growing file `i` by one block does to the blocks that the program finds: block `n` is one
      that was not owned before, and the blocks of every file are where they were. */
  lemma NextBlockNumber(p: nat, n: nat, i: nat, ip: seq<nat>, files: map<nat, File>, owner: map<nat, Owner>, w: Words,
                        owner': map<nat, Owner>, w': Words)
    requires p > 0 && n < MaxBlocks(p) && i in files && files[i].live == LiveSlots(p, n) && Within(owner, owner')
    requires Good(p, w, files, owner) && Good(p, w', files[i := File(ip, LiveSlots(p, n + 1))], owner')
    ensures |ip| == 15 && BlockNumber(p, ip, w', n) in owner' && BlockNumber(p, ip, w', n) !in owner
  {
    hide DataSlot, BlockNumber, LiveSlots, MaxBlocks, Within;
    var files' := files[i := File(ip, LiveSlots(p, n + 1))];
    BlockNumberInFile(p, w', owner', files', i, n + 1, n);
    var b := BlockNumber(p, ip, w', n);
    if b in owner {
      SameOwner(owner, owner', b);
      assert Reached(w, files, owner[b], b);
      NotYetLive(p, n);
    }
  }

  lemma SameOwner(owner: map<nat, Owner>, owner': map<nat, Owner>, b: nat)
    requires Within(owner, owner') && b in owner
    ensures b in owner' && owner'[b] == owner[b]
  {
  }

  lemma NotYetLive(p: nat, n: nat)
    requires p > 0 && n < MaxBlocks(p)
    ensures DataSlot(p, n) !in LiveSlots(p, n)
  {
    DataSlotSound(p, n);
  }

  /** A block in use is found where it was, if what is owned stays owned. */
  lemma BlockNumberKept(p: nat, w: Words, files: map<nat, File>, owner: map<nat, Owner>,
                        w': Words, files': map<nat, File>, owner': map<nat, Owner>, j: nat, m: nat)
    requires p > 0 && m < MaxBlocks(p) && j in files && DataSlot(p, m) in files[j].live && Within(owner, owner')
    requires Good(p, w, files, owner) && Good(p, w', files', owner')
    ensures j in files' && |files[j].ip| == 15 && |files'[j].ip| == 15
    ensures BlockNumber(p, files'[j].ip, w', m) == BlockNumber(p, files[j].ip, w, m)
  {
    hide DataSlot, BlockNumber, MaxBlocks, Within;
    PointerKept(p, w, files, owner, w', files', owner', j, DataSlot(p, m));
    assert Placed(p, w, owner, j, files[j]) && Placed(p, w', owner', j, files'[j]);
    hide Good;
    BlockNumberRaw(p, files[j].ip, w, m);
    BlockNumberRaw(p, files'[j].ip, w', m);
    RawInUse(p, w, owner, files, j, DataSlot(p, m));
    RawInUse(p, w', owner', files', j, DataSlot(p, m));
  }

  /** The program finds every block that `files` has in the same place on both disks. */
  ghost predicate NumbersSame(p: nat, files: map<nat, File>, w: Words, files': map<nat, File>, w': Words)
    requires p > 0
  {
    forall j: nat, m: nat :: j in files && m < MaxBlocks(p) && DataSlot(p, m) in files[j].live ==>
      && j in files' && |files[j].ip| == 15 && |files'[j].ip| == 15
      && BlockNumber(p, files'[j].ip, w', m) == BlockNumber(p, files[j].ip, w, m)
  }

  /** `Inode_asignarBloque` as `Inode_leerBloque` sees it. */
  method AssignNumber(vol: Volume, n: nat, inode: Inode, ghost ino: nat, ghost files: map<nat, File>) returns (r: int)
    requires vol.p > 0 && Holds(vol, inode, ino, files, n) && n < MaxBlocks(vol.p)
    modifies vol`disk, vol`owner, vol.blocks, inode`block
    ensures Assigned(vol, n, inode, ino, files, r)
    ensures r == 0 ==> |inode.block| == 15 && BlockNumber(vol.p, inode.block, vol.Words(), n) in vol.owner
    ensures r == 0 ==> BlockNumber(vol.p, inode.block, vol.Words(), n) !in old(vol.owner)
    ensures r == 0 ==> NumbersSame(vol.p, files, old(vol.Words()),
                                   files[ino := File(inode.block, LiveSlots(vol.p, n + 1))], vol.Words())
  {
    hide Holds, Good, LiveSlots, NewSlots, MaxBlocks, BlockNumber, NumbersSame, Tally, WordsOf, Grown;
    ghost var owner, w, disk := vol.owner, vol.Words(), vol.disk;
    HoldsFacts(vol, inode, ino, files, n);
    r := AssignBlock(vol, n, inode, ino, files);
    if r == 0 {
      ghost var files' := files[ino := File(inode.block, LiveSlots(vol.p, n + 1))];
      HoldsFacts(vol, inode, ino, files', n + 1);
      GrownWithin(owner, disk, vol.owner, vol.disk);
      NextBlockNumber(vol.p, n, ino, inode.block, files, owner, w, vol.owner, vol.Words());
      NumbersKept(vol.p, files, owner, w, files', vol.owner, vol.Words());
    }
  }

  lemma GrownWithin(owner: map<nat, Owner>, disk: Disk, owner': map<nat, Owner>, disk': Disk)
    requires Grown(owner, disk, owner', disk')
    ensures Within(owner, owner')
  {
  }

  lemma NumbersKept(p: nat, files: map<nat, File>, owner: map<nat, Owner>, w: Words,
                    files': map<nat, File>, owner': map<nat, Owner>, w': Words)
    requires p > 0 && Within(owner, owner') && Good(p, w, files, owner) && Good(p, w', files', owner')
    ensures NumbersSame(p, files, w, files', w')
  {
    hide Good, MaxBlocks, DataSlot, BlockNumber, Within;
    forall j: nat, m: nat | j in files && m < MaxBlocks(p) && DataSlot(p, m) in files[j].live
      ensures j in files' && |files[j].ip| == 15 && |files'[j].ip| == 15
      ensures BlockNumber(p, files'[j].ip, w', m) == BlockNumber(p, files[j].ip, w, m)
    {
      BlockNumberKept(p, w, files, owner, w', files', owner', j, m);
    }
  }
}
