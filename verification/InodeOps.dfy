/** Growing and shrinking files (rfs/Inode.c). */
module InodeOps {
  import opened Arithmetic
  import opened Bytes
  import opened BlockTree
  import opened Ownership
  import opened Linking
  import opened Allocation
  import opened Storage

  /** The volume is sound, nothing is half linked, and file `ino` is `inode` with exactly `n` blocks. */
  ghost predicate Holds(vol: Volume, inode: Inode, ino: nat, files: map<nat, File>, n: nat)
    reads vol`disk, vol`owner, vol.blocks, inode`block
  {
    && vol.Sound(files) && Settled(vol.owner)
    && ino in files && files[ino] == File(inode.block, LiveSlots(vol.p, n))
  }

  lemma HoldsFacts(vol: Volume, inode: Inode, ino: nat, files: map<nat, File>, n: nat)
    requires Holds(vol, inode, ino, files, n)
    ensures vol.Consistent() && Good(vol.p, vol.Words(), files, vol.owner) && Settled(vol.owner)
    ensures ino in files && files[ino] == File(inode.block, LiveSlots(vol.p, n))
    ensures vol.p == 256 || vol.p == 512 || vol.p == 1024
    ensures Tally(vol.blocks.space, vol.blocks.bitmap, vol.blocks.groupFree, vol.blocks.totalFree, vol.owner)
  {
  }

  lemma HoldsAgain(vol: Volume, inode: Inode, ino: nat, files: map<nat, File>, n: nat)
    requires vol.Consistent() && Good(vol.p, vol.Words(), files, vol.owner) && Settled(vol.owner)
    requires ino in files && files[ino] == File(inode.block, LiveSlots(vol.p, n))
    ensures Holds(vol, inode, ino, files, n)
  {
  }

  /** Blocks were added to files; no owned block changed hands, and nothing was written but pointer
      blocks: an added data block still holds what was on the disk. */
  ghost predicate Grown(owner: map<nat, Owner>, disk: Disk, owner': map<nat, Owner>, disk': Disk) {
    && |disk'| == |disk| && Within(owner, owner')
    && (forall b :: b in owner' && b !in owner ==> owner'[b] != Meta)
    && (forall b :: 0 <= b < |disk| && !IsPointerBlock(owner', b) ==> disk'[b] == disk[b])
  }

  lemma GrownBytes(p: nat, owner: map<nat, Owner>, disk: Disk, owner': map<nat, Owner>, disk': Disk)
    requires GrownWords(owner, WordsOf(p, disk), owner', WordsOf(p, disk'))
    requires Formatted(p, disk) && Formatted(p, disk')
    ensures Grown(owner, disk, owner', disk') && Settled(owner')
  {
    forall b | 0 <= b < |disk| && !IsPointerBlock(owner', b) ensures disk'[b] == disk[b] {
      assert WordsOf(p, disk')[b] == WordsOf(p, disk)[b];
      WordsInjective(disk[b], disk'[b], p);
    }
  }

  /** A slot on the way to block `n` is in use exactly when its pointer is not zero. */
  lemma OnTheWay(p: nat, n: nat, w: Words, owner: map<nat, Owner>, files: map<nat, File>, i: nat, s: Slot)
    requires p > 0 && n < MaxBlocks(p)
    requires Good(p, w, files, owner) && i in files && files[i].live == LiveSlots(p, n)
    requires s in Ancestors(DataSlot(p, n))
    ensures |files[i].ip| == 15
    ensures s in NewSlots(p, n) <==> PtrAt(files[i].ip, w, s) == 0
    ensures s !in NewSlots(p, n) ==> HasBlock(w, owner, i, PtrAt(files[i].ip, w, s), s)
  {
    hide Good, DataSlot, LiveSlots, NewSlots, MaxBlocks, Ancestors, HasBlock, PtrAt;
    PathLive(p, n, s);
    SlotUse(p, w, owner, files, i, s);
  }

  /** A slot that is in use has a block of its own, any other slot holds zero. */
  lemma SlotUse(p: nat, w: Words, owner: map<nat, Owner>, files: map<nat, File>, i: nat, s: Slot)
    requires Good(p, w, files, owner) && i in files && WellFormed(p, s)
    ensures |files[i].ip| == 15
    ensures s !in files[i].live ==> PtrAt(files[i].ip, w, s) == 0
    ensures s in files[i].live ==>
            PtrAt(files[i].ip, w, s) != 0 && HasBlock(w, owner, i, PtrAt(files[i].ip, w, s), s)
            && |w[PtrAt(files[i].ip, w, s)]| == p
  {
    hide PtrAt, WellFormed;
    assert Placed(p, w, owner, i, files[i]);
    if s in files[i].live {
      assert Owns(w, owner, files[i].ip, i, s);
    }
  }

  /** How the pointers found on the way to block `n` tell which blocks are missing: one level. */
  lemma SinglePath(p: nat, n: nat, w: Words, owner: map<nat, Owner>, files: map<nat, File>, i: nat)
    requires p > 0 && 12 <= n < 12 + p
    requires Good(p, w, files, owner) && i in files && files[i].live == LiveSlots(p, n)
    ensures |files[i].ip| == 15 && n < MaxBlocks(p)
    ensures var t := Top(12); var s, b1 := Sub(t, n - 12), files[i].ip[12];
            if b1 == 0 then NewSlots(p, n) == [t, s] else NewSlots(p, n) == [s] && HasBlock(w, owner, i, b1, t)
  {
    OnTheWay(p, n, w, owner, files, i, Top(12));
  }

  /** Two levels. */
  lemma DoublePath(p: nat, n: nat, w: Words, owner: map<nat, Owner>, files: map<nat, File>, i: nat)
    requires p > 0 && 12 + p <= n && n - 12 - p < p * p
    requires Good(p, w, files, owner) && i in files && files[i].live == LiveSlots(p, n)
    ensures |files[i].ip| == 15 && Quot(n - 12 - p, p) < p && n < MaxBlocks(p)
    ensures var pos, pos2 := Quot(n - 12 - p, p), Rem(n - 12 - p, p);
            var u, b1 := Top(13), files[i].ip[13];
            var t := Sub(u, pos);
            var s := Sub(t, pos2);
            if b1 == 0 then NewSlots(p, n) == [u, t, s]
            else
              && HasBlock(w, owner, i, b1, u) && |w[b1]| == p
              && var b2 := w[b1][pos];
                 if b2 == 0 then NewSlots(p, n) == [t, s] else NewSlots(p, n) == [s] && HasBlock(w, owner, i, b2, t)
  {
    var u := Top(13);
    var t := Sub(u, Quot(n - 12 - p, p));
    var s := Sub(t, Rem(n - 12 - p, p));
    hide Quot, Rem, NewSlots, Good, LiveSlots, DataSlot, MaxBlocks, Ancestors;
    DivBound(n - 12 - p, p, p);
    DoubleDataSlot(p, n - 12 - p);
    DoublePathSlots(p, n);
    OnTheWay(p, n, w, owner, files, i, u);
    OnTheWay(p, n, w, owner, files, i, t);
    assert PtrAt(files[i].ip, w, u) == files[i].ip[13];
    if files[i].ip[13] != 0 {
      GoodRow(p, w, files, owner, files[i].ip[13]);
    }
  }

  lemma GoodRow(p: nat, w: Words, files: map<nat, File>, owner: map<nat, Owner>, b: nat)
    requires Good(p, w, files, owner) && b < |w|
    ensures |w[b]| == p
  {
  }

  lemma DoublePathSlots(p: nat, n: nat)
    requires p > 0 && 12 + p <= n && n - 12 - p < p * p
    ensures var u := Top(13);
            var t := Sub(u, Quot(n - 12 - p, p));
            var s := Sub(t, Rem(n - 12 - p, p));
            && t in Ancestors(DataSlot(p, n)) && u in Ancestors(DataSlot(p, n))
            && NewSlots(p, n) == (if s.pos != 0 then [s] else if t.pos != 0 then [t, s] else [u, t, s])
            && (t in NewSlots(p, n) <==> s.pos == 0)
            && (u in NewSlots(p, n) <==> s.pos == 0 && t.pos == 0)
  {
    hide Quot, Rem, DataSlot;
    var u := Top(13);
    var t := Sub(u, Quot(n - 12 - p, p));
    var s := Sub(t, Rem(n - 12 - p, p));
    DoubleDataSlot(p, n - 12 - p);
    assert Ancestors(u) == {u} && Ancestors(t) == {t, u} && Ancestors(s) == {s, t, u};
    assert Chain(u) == [u];
    assert Chain(t) == (if t.pos == 0 then [u] else []) + [t];
  }

  /** `pos`, `pos2` and `pos3` lead from the triple indirect root to block `n`. */
  ghost predicate TriplePositionsOf(p: nat, n: nat, pos: nat, pos2: nat, pos3: nat) {
    p > 0 && pos < p && pos2 < p && pos3 < p && DataSlot(p, n) == Sub(Sub(Sub(Top(14), pos), pos2), pos3)
  }

  lemma TriplePositionsAre(p: nat, n: nat)
    requires p > 0 && 12 + p + p * p <= n < MaxBlocks(p)
    ensures var q: nat := n - 12 - p - p * p;
            TriplePositionsOf(p, n, Quot(Quot(q, p), p), Rem(Quot(q, p), p), Rem(q, p))
  {
    hide Quot, Rem;
    TripleBounds(p, n - 12 - p - p * p);
  }

  lemma TriplePathSlots(p: nat, n: nat, pos: nat, pos2: nat, pos3: nat)
    requires TriplePositionsOf(p, n, pos, pos2, pos3)
    ensures var v := Top(14);
            var u := Sub(v, pos);
            var t := Sub(u, pos2);
            var s := Sub(t, pos3);
            && t in Ancestors(DataSlot(p, n)) && u in Ancestors(DataSlot(p, n)) && v in Ancestors(DataSlot(p, n))
            && NewSlots(p, n) == (if pos3 != 0 then [s] else if pos2 != 0 then [t, s]
                                  else if pos != 0 then [u, t, s] else [v, u, t, s])
            && (t in NewSlots(p, n) <==> pos3 == 0)
            && (u in NewSlots(p, n) <==> pos3 == 0 && pos2 == 0)
            && (v in NewSlots(p, n) <==> pos3 == 0 && pos2 == 0 && pos == 0)
  {
    hide DataSlot;
    var v := Top(14);
    var u := Sub(v, pos);
    var t := Sub(u, pos2);
    var s := Sub(t, pos3);
    assert Ancestors(v) == {v} && Ancestors(u) == {u, v} && Ancestors(t) == {t, u, v} && Ancestors(s) == {s, t, u, v};
    assert Chain(v) == [v];
    assert Chain(u) == (if pos == 0 then [v] else []) + [u];
    assert Chain(t) == (if pos2 == 0 then Chain(u) else []) + [t];
    assert Chain(s) == (if pos3 == 0 then Chain(t) else []) + [s];
  }

  /** Three levels. */
  lemma TriplePath(p: nat, n: nat, w: Words, owner: map<nat, Owner>, files: map<nat, File>, i: nat,
                   pos: nat, pos2: nat, pos3: nat)
    requires TriplePositionsOf(p, n, pos, pos2, pos3) && n < MaxBlocks(p)
    requires Good(p, w, files, owner) && i in files && files[i].live == LiveSlots(p, n)
    ensures |files[i].ip| == 15 && pos < p && pos2 < p && pos3 < p
    ensures var v, b1 := Top(14), files[i].ip[14];
            var u := Sub(v, pos);
            var t := Sub(u, pos2);
            var s := Sub(t, pos3);
            if b1 == 0 then NewSlots(p, n) == [v, u, t, s]
            else
              && HasBlock(w, owner, i, b1, v) && |w[b1]| == p
              && var b2 := w[b1][pos];
                 if b2 == 0 then NewSlots(p, n) == [u, t, s]
                 else
                   && HasBlock(w, owner, i, b2, u) && |w[b2]| == p
                   && var b3 := w[b2][pos2];
                      if b3 == 0 then NewSlots(p, n) == [t, s]
                      else NewSlots(p, n) == [s] && HasBlock(w, owner, i, b3, t)
  {
    var v := Top(14);
    var u := Sub(v, pos);
    var t := Sub(u, pos2);
    TriplePathSlots(p, n, pos, pos2, pos3);
    OnTheWay(p, n, w, owner, files, i, v);
    OnTheWay(p, n, w, owner, files, i, u);
    OnTheWay(p, n, w, owner, files, i, t);
    hide NewSlots, Good, DataSlot, LiveSlots, MaxBlocks;
    var b1 := files[i].ip[14];
    assert PtrAt(files[i].ip, w, v) == b1;
    if b1 != 0 {
      GoodRow(p, w, files, owner, b1);
      assert PtrAt(files[i].ip, w, u) == w[b1][pos];
      if w[b1][pos] != 0 {
        GoodRow(p, w, files, owner, w[b1][pos]);
      }
    }
  }

  /** The outcome of assigning block `n`: all or nothing, by whether there is room for what it needs. */
  twostate predicate Assigned(vol: Volume, n: nat, inode: Inode, ino: nat, files: map<nat, File>, r: int)
    requires vol.p > 0
    reads vol, vol.blocks, inode
  {
    && r == (if old(vol.blocks.totalFree) < |NewSlots(vol.p, n)| then -1 else 0)
    && (r == -1 ==> unchanged(vol) && unchanged(vol.blocks) && unchanged(inode))
    && (r == 0 ==>
          && Holds(vol, inode, ino, files[ino := File(inode.block, LiveSlots(vol.p, n + 1))], n + 1)
          && vol.blocks.totalFree == old(vol.blocks.totalFree) - |NewSlots(vol.p, n)|
          && Widths(vol.blocks.bitmap) == old(Widths(vol.blocks.bitmap))
          && Grown(old(vol.owner), old(vol.disk), vol.owner, vol.disk)
          && TakenInOrder(vol.Numbers(), old(vol.owner), vol.owner))
  }

  /** Closes a branch that has linked new blocks under an existing pointer block `b`. */
  ghost method CloseUnder(vol: Volume, n: nat, inode: Inode, ino: nat, files: map<nat, File>,
                          owner: map<nat, Owner>, disk: Disk, b: nat, cs: seq<nat>)
    requires vol.Consistent() && Formatted(vol.p, disk) && vol.owner == LooseAll(owner, cs)
    requires Good(vol.p, WordsOf(vol.p, disk), files, owner) && Settled(owner)
    requires ino in files && files[ino].ip == inode.block
    requires Extends(vol.p, n, WordsOf(vol.p, disk), owner, files[ino], cs) && |cs| > 0
    requires NewSlots(vol.p, n)[0].Sub? && b in owner && owner[b] == Of(ino, NewSlots(vol.p, n)[0].parent)
    requires Lowest(vol.Numbers(), owner, cs)
    requires vol.Words() == StoreWords(Cleared(vol.p, WordsOf(vol.p, disk), cs), b, NewSlots(vol.p, n), cs)
    modifies vol`owner
    ensures Holds(vol, inode, ino, files[ino := File(inode.block, LiveSlots(vol.p, n + 1))], n + 1)
    ensures Grown(owner, disk, vol.owner, vol.disk) && TakenInOrder(vol.Numbers(), owner, vol.owner)
  {
    hide Volume.Consistent, WordsOf, Good, Grown, GrownWords, Settled, LooseAll, HangOwner, TakenInOrder, Lowest;
    TakenAsHung(vol.Numbers(), vol.p, n, owner, ino, cs, |WordsOf(vol.p, disk)|);
    ExtendUnder(vol.p, n, WordsOf(vol.p, disk), owner, files, ino, b, cs);
    vol.Adopt(HangOwner(vol.owner, ino, NewSlots(vol.p, n), cs));
    vol.Shape();
    GrownBytes(vol.p, owner, disk, vol.owner, vol.disk);
  }

  /** Closes a branch that has put a new root at position `k` of the inode. */
  ghost method CloseRoot(vol: Volume, n: nat, inode: Inode, ino: nat, files: map<nat, File>,
                         owner: map<nat, Owner>, disk: Disk, k: nat, cs: seq<nat>)
    requires vol.Consistent() && Formatted(vol.p, disk) && vol.owner == LooseAll(owner, cs)
    requires Good(vol.p, WordsOf(vol.p, disk), files, owner) && Settled(owner) && ino in files
    requires Extends(vol.p, n, WordsOf(vol.p, disk), owner, files[ino], cs) && |cs| > 0
    requires NewSlots(vol.p, n)[0] == Top(k) && Lowest(vol.Numbers(), owner, cs)
    requires k < |files[ino].ip| && inode.block == files[ino].ip[k := cs[0]]
    requires vol.Words() == StoreWords(Cleared(vol.p, WordsOf(vol.p, disk), cs), cs[0], NewSlots(vol.p, n)[1..],
                                       cs[1..])
    modifies vol`owner
    ensures Holds(vol, inode, ino, files[ino := File(inode.block, LiveSlots(vol.p, n + 1))], n + 1)
    ensures Grown(owner, disk, vol.owner, vol.disk) && TakenInOrder(vol.Numbers(), owner, vol.owner)
  {
    hide Volume.Consistent, WordsOf, Good, Grown, GrownWords, Settled, LooseAll, HangOwner, TakenInOrder, Lowest;
    TakenAsHung(vol.Numbers(), vol.p, n, owner, ino, cs, |WordsOf(vol.p, disk)|);
    ExtendRoot(vol.p, n, WordsOf(vol.p, disk), owner, files, ino, k, cs);
    vol.Adopt(HangOwner(vol.owner, ino, NewSlots(vol.p, n), cs));
    vol.Shape();
    GrownBytes(vol.p, owner, disk, vol.owner, vol.disk);
  }

  /** Every pointer block on the way exists: only the data block is new (the last branch of each level). */
  method AddOneUnder(vol: Volume, n: nat, b: nat, pos: nat, inode: Inode,
                     ghost s: Slot, ghost ino: nat, ghost files: map<nat, File>)
    returns (r: int)
    requires vol.p > 0 && Holds(vol, inode, ino, files, n) && n < MaxBlocks(vol.p)
    requires NewSlots(vol.p, n) == [s] && s.Sub? && s.pos == pos && pos < vol.p
    requires HasBlock(vol.Words(), vol.owner, ino, b, s.parent)
    modifies vol`disk, vol`owner, vol.blocks
    ensures Assigned(vol, n, inode, ino, files, r)
  {
    hide Holds, Tally, Volume.Consistent, WordsOf, Good, Grown, Settled, Fresh, LowestOf, Lowest, TakenInOrder,
         LooseAll, Widths, Cleared, StoreWords, WordPut, AllZero, PutWord, ZeroOne, NewSlots, DataSlot, LiveSlots,
         MaxBlocks;
    HoldsFacts(vol, inode, ino, files, n);
    ghost var p, w, owner, disk := vol.p, vol.Words(), vol.owner, vol.disk;
    vol.Shape();
    if vol.blocks.totalFree < 1 {
      return -1;
    }
    var c := vol.TakeBlock();
    vol.WriteWord(b, pos, c);
    Fresh1(vol.Numbers(), owner, |w|, c);
    UnderWords1(p, w, b, s, c);
    CloseUnder(vol, n, inode, ino, files, owner, disk, b, [c]);
    return 0;
  }

  /** The data block and the pointer block above it are new; they hang from block `b`. */
  method AddTwoUnder(vol: Volume, n: nat, b: nat, pos: nat, pos2: nat, inode: Inode,
                     ghost s: Slot, ghost t: Slot, ghost ino: nat, ghost files: map<nat, File>)
    returns (r: int)
    requires vol.p > 0 && Holds(vol, inode, ino, files, n) && n < MaxBlocks(vol.p)
    requires NewSlots(vol.p, n) == [s, t] && s.Sub? && s.pos == pos && t == Sub(s, pos2) && pos < vol.p && pos2 < vol.p
    requires HasBlock(vol.Words(), vol.owner, ino, b, s.parent)
    modifies vol`disk, vol`owner, vol.blocks
    ensures Assigned(vol, n, inode, ino, files, r)
  {
    hide Holds, Tally, Volume.Consistent, WordsOf, Good, Grown, Settled, Fresh, LowestOf, Lowest, TakenInOrder,
         LooseAll, Widths, Cleared, StoreWords, WordPut, AllZero, PutWord, ZeroOne, NewSlots, DataSlot, LiveSlots,
         MaxBlocks;
    HoldsFacts(vol, inode, ino, files, n);
    ghost var p, w, owner, disk := vol.p, vol.Words(), vol.owner, vol.disk;
    vol.Shape();
    if vol.blocks.totalFree < 2 {
      return -1;
    }
    var c := vol.TakeBlock();
    var d := vol.TakeBlock();
    vol.ZeroBlock(c);
    vol.WriteWord(b, pos, c);
    vol.WriteWord(c, pos2, d);
    Fresh2(vol.Numbers(), owner, |w|, c, d);
    UnderWords2(p, w, b, s, c, t, d);
    CloseUnder(vol, n, inode, ino, files, owner, disk, b, [c, d]);
    return 0;
  }

  /** The data block and the two pointer blocks above it are new; they hang from block `b`. */
  method AddThreeUnder(vol: Volume, n: nat, b: nat, pos: nat, pos2: nat, pos3: nat, inode: Inode,
                       ghost s: Slot, ghost t: Slot, ghost u: Slot, ghost ino: nat, ghost files: map<nat, File>)
    returns (r: int)
    requires vol.p > 0 && Holds(vol, inode, ino, files, n) && n < MaxBlocks(vol.p)
    requires NewSlots(vol.p, n) == [s, t, u] && s.Sub? && s.pos == pos && t == Sub(s, pos2) && u == Sub(t, pos3)
    requires pos < vol.p && pos2 < vol.p && pos3 < vol.p
    requires HasBlock(vol.Words(), vol.owner, ino, b, s.parent)
    modifies vol`disk, vol`owner, vol.blocks
    ensures Assigned(vol, n, inode, ino, files, r)
  {
    hide Holds, Tally, Volume.Consistent, WordsOf, Good, Grown, Settled, Fresh, LowestOf, Lowest, TakenInOrder,
         LooseAll, Widths, Cleared, StoreWords, WordPut, AllZero, PutWord, ZeroOne, NewSlots, DataSlot, LiveSlots,
         MaxBlocks;
    HoldsFacts(vol, inode, ino, files, n);
    ghost var p, w, owner, disk := vol.p, vol.Words(), vol.owner, vol.disk;
    vol.Shape();
    if vol.blocks.totalFree < 3 {
      return -1;
    }
    var c := vol.TakeBlock();
    var d := vol.TakeBlock();
    var e := vol.TakeBlock();
    vol.ZeroBlock(c);
    vol.ZeroBlock(d);
    vol.WriteWord(b, pos, c);
    vol.WriteWord(c, pos2, d);
    vol.WriteWord(d, pos3, e);
    Fresh3(vol.Numbers(), owner, |w|, c, d, e);
    UnderWords3(p, w, b, s, c, t, d, u, e);
    CloseUnder(vol, n, inode, ino, files, owner, disk, b, [c, d, e]);
    return 0;
  }

  method AssignDirect(vol: Volume, n: nat, inode: Inode, ghost ino: nat, ghost files: map<nat, File>)
    returns (r: int)
    requires vol.p > 0 && Holds(vol, inode, ino, files, n) && n < 12
    modifies vol`owner, vol.blocks, inode`block
    ensures Assigned(vol, n, inode, ino, files, r)
  {
    hide Holds, Tally, Volume.Consistent, WordsOf, Good, Grown, Settled, Fresh, LowestOf, Lowest, TakenInOrder,
         LooseAll, Widths, Cleared, StoreWords;
    HoldsFacts(vol, inode, ino, files, n);
    ghost var p, w, owner, s := vol.p, vol.Words(), vol.owner, Top(n);
    vol.Shape();
    OnTheWay(p, n, w, owner, files, ino, s);
    assert NewSlots(p, n) == [s];
    if vol.blocks.totalFree < 1 {
      return -1;
    }
    var b1 := vol.TakeBlock();
    inode.block := inode.block[n := b1];
    Fresh1(vol.Numbers(), owner, |w|, b1);
    RootWords1(p, w, s, b1);
    CloseRoot(vol, n, inode, ino, files, owner, vol.disk, n, [b1]);
    return 0;
  }

  method AssignSingle(vol: Volume, n: nat, inode: Inode, ghost ino: nat, ghost files: map<nat, File>)
    returns (r: int)
    requires vol.p > 0 && Holds(vol, inode, ino, files, n) && 12 <= n < 12 + vol.p
    modifies vol`disk, vol`owner, vol.blocks, inode`block
    ensures Assigned(vol, n, inode, ino, files, r)
  {
    hide Holds, Tally, Volume.Consistent, WordsOf, Good, Grown, Settled, Fresh, LowestOf, Lowest, TakenInOrder,
         LooseAll, Widths, Cleared, StoreWords, WordPut, AllZero, PutWord, ZeroOne, NewSlots, DataSlot, LiveSlots,
         MaxBlocks;
    HoldsFacts(vol, inode, ino, files, n);
    ghost var p, w, owner, disk := vol.p, vol.Words(), vol.owner, vol.disk;
    vol.Shape();
    SinglePath(p, n, w, owner, files, ino);
    var pos := n - 12;
    ghost var s := Sub(Top(12), pos);
    if inode.block[12] == 0 {
      if vol.blocks.totalFree < 2 {
        return -1;
      }
      var b1 := vol.TakeBlock();
      inode.block := inode.block[12 := b1];
      var b2 := vol.TakeBlock();
      vol.ZeroBlock(b1);
      vol.WriteWord(b1, pos, b2);
      Fresh2(vol.Numbers(), owner, |w|, b1, b2);
      RootWords2(p, w, Top(12), b1, s, b2);
      CloseRoot(vol, n, inode, ino, files, owner, disk, 12, [b1, b2]);
      return 0;
    } else {
      r := AddOneUnder(vol, n, inode.block[12], pos, inode, s, ino, files);
    }
  }

  /** First block of the double indirect tree. */
  method StartDouble(vol: Volume, n: nat, pos: nat, pos2: nat, inode: Inode, ghost ino: nat,
                     ghost files: map<nat, File>)
    returns (r: int)
    requires vol.p > 0 && Holds(vol, inode, ino, files, n) && n < MaxBlocks(vol.p) && |inode.block| == 15
    requires pos < vol.p && pos2 < vol.p
    requires NewSlots(vol.p, n) == [Top(13), Sub(Top(13), pos), Sub(Sub(Top(13), pos), pos2)]
    modifies vol`disk, vol`owner, vol.blocks, inode`block
    ensures Assigned(vol, n, inode, ino, files, r)
  {
    hide Holds, Tally, Volume.Consistent, WordsOf, Good, Grown, Settled, Fresh, LowestOf, Lowest, TakenInOrder,
         LooseAll, Widths, Cleared, StoreWords, WordPut, AllZero, PutWord, ZeroOne, NewSlots, DataSlot, LiveSlots,
         MaxBlocks;
    HoldsFacts(vol, inode, ino, files, n);
    ghost var p, w, owner, disk := vol.p, vol.Words(), vol.owner, vol.disk;
    vol.Shape();
    if vol.blocks.totalFree < 3 {
      return -1;
    }
    var b1 := vol.TakeBlock();
    inode.block := inode.block[13 := b1];
    var b2 := vol.TakeBlock();
    var b3 := vol.TakeBlock();
    vol.ZeroBlock(b1);
    vol.ZeroBlock(b2);
    vol.WriteWord(b1, pos, b2);
    vol.WriteWord(b2, pos2, b3);
    ghost var t := Sub(Top(13), pos);
    Fresh3(vol.Numbers(), owner, |w|, b1, b2, b3);
    RootWords3(p, w, Top(13), b1, t, b2, Sub(t, pos2), b3);
    CloseRoot(vol, n, inode, ino, files, owner, disk, 13, [b1, b2, b3]);
    return 0;
  }

  method AssignDouble(vol: Volume, n: nat, inode: Inode, ghost ino: nat, ghost files: map<nat, File>)
    returns (r: int)
    requires vol.p > 0 && Holds(vol, inode, ino, files, n)
    requires 12 + vol.p <= n && n - 12 - vol.p < vol.p * vol.p
    modifies vol`disk, vol`owner, vol.blocks, inode`block
    ensures Assigned(vol, n, inode, ino, files, r)
  {
    hide Holds, Tally, Volume.Consistent, WordsOf, Good, Grown, Widths, WordAt, NewSlots, LiveSlots,
         MaxBlocks, Quot, Rem;
    HoldsFacts(vol, inode, ino, files, n);
    vol.Shape();
    DoublePath(vol.p, n, vol.Words(), vol.owner, files, ino);
    var pos2 := Rem(n - 12 - vol.p, vol.p);
    var pos := Quot(n - 12 - vol.p, vol.p);
    ghost var t := Sub(Top(13), pos);
    ghost var s := Sub(t, pos2);
    if inode.block[13] == 0 {
      r := StartDouble(vol, n, pos, pos2, inode, ino, files);
    } else {
      var b1 := inode.block[13];
      var b2 := vol.ReadWord(b1, pos);
      if b2 == 0 {
        r := AddTwoUnder(vol, n, b1, pos, pos2, inode, t, s, ino, files);
      } else {
        r := AddOneUnder(vol, n, b2, pos2, inode, s, ino, files);
      }
    }
  }

  /** Zeroes three pointer blocks and links each to the next, and the last to the data block. */
  method LinkThree(vol: Volume, b1: nat, pos: nat, b2: nat, pos2: nat, b3: nat, pos3: nat, b4: nat)
    requires vol.Consistent() && b1 < |vol.disk| && b2 < |vol.disk| && b3 < |vol.disk| && b4 < |vol.disk|
    requires pos < vol.p && pos2 < vol.p && pos3 < vol.p
    modifies vol`disk
    ensures vol.Consistent() && |vol.disk| == |old(vol.disk)|
    ensures b1 < |old(vol.Words())| && b2 < |old(vol.Words())| && b3 < |old(vol.Words())|
    ensures var z := ZeroOne(vol.p, ZeroOne(vol.p, ZeroOne(vol.p, old(vol.Words()), b1), b2), b3);
            && pos < |z[b1]| && pos2 < |PutWord(z, b1, pos, b2)[b2]|
            && pos3 < |PutWord(PutWord(z, b1, pos, b2), b2, pos2, b3)[b3]|
            && vol.Words() == PutWord(PutWord(PutWord(z, b1, pos, b2), b2, pos2, b3), b3, pos3, b4)
  {
    hide Volume.Consistent, WordsOf, PutWord, ZeroOne, WordPut, AllZero;
    vol.Shape();
    vol.ZeroBlock(b1);
    vol.ZeroBlock(b2);
    vol.ZeroBlock(b3);
    vol.WriteWord(b1, pos, b2);
    vol.WriteWord(b2, pos2, b3);
    vol.WriteWord(b3, pos3, b4);
  }

  /** First block of the triple indirect tree. */
  method StartTriple(vol: Volume, n: nat, pos: nat, pos2: nat, pos3: nat, inode: Inode,
                     ghost ino: nat, ghost files: map<nat, File>)
    returns (r: int)
    requires vol.p > 0 && Holds(vol, inode, ino, files, n) && n < MaxBlocks(vol.p) && |inode.block| == 15
    requires pos < vol.p && pos2 < vol.p && pos3 < vol.p
    requires var u := Sub(Top(14), pos); NewSlots(vol.p, n) == [Top(14), u, Sub(u, pos2), Sub(Sub(u, pos2), pos3)]
    modifies vol`disk, vol`owner, vol.blocks, inode`block
    ensures Assigned(vol, n, inode, ino, files, r)
  {
    hide Holds, Tally, Volume.Consistent, WordsOf, Good, Grown, Settled, Fresh, LowestOf, Lowest, TakenInOrder,
         LooseAll, Widths, Cleared, StoreWords, WordPut, AllZero, PutWord, ZeroOne, NewSlots, DataSlot, LiveSlots,
         MaxBlocks;
    HoldsFacts(vol, inode, ino, files, n);
    ghost var p, w, owner, disk := vol.p, vol.Words(), vol.owner, vol.disk;
    vol.Shape();
    if vol.blocks.totalFree < 4 {
      return -1;
    }
    var b1 := vol.TakeBlock();
    inode.block := inode.block[14 := b1];
    var b2 := vol.TakeBlock();
    var b3 := vol.TakeBlock();
    var b4 := vol.TakeBlock();
    LinkThree(vol, b1, pos, b2, pos2, b3, pos3, b4);
    ghost var u := Sub(Top(14), pos);
    ghost var t := Sub(u, pos2);
    Fresh4(vol.Numbers(), owner, |w|, b1, b2, b3, b4);
    RootWords4(p, w, Top(14), b1, u, b2, t, b3, Sub(t, pos3), b4);
    CloseRoot(vol, n, inode, ino, files, owner, disk, 14, [b1, b2, b3, b4]);
    return 0;
  }

  method AssignTriple(vol: Volume, n: nat, inode: Inode, ghost ino: nat, ghost files: map<nat, File>)
    returns (r: int)
    requires vol.p > 0 && Holds(vol, inode, ino, files, n) && n < MaxBlocks(vol.p)
    requires 12 + vol.p + vol.p * vol.p <= n
    modifies vol`disk, vol`owner, vol.blocks, inode`block
    ensures Assigned(vol, n, inode, ino, files, r)
  {
    hide Holds, Tally, Volume.Consistent, WordsOf, Good, Grown, Widths, WordAt, NewSlots, LiveSlots,
         MaxBlocks, Quot, Rem, TriplePositionsOf;
    HoldsFacts(vol, inode, ino, files, n);
    vol.Shape();
    var q: nat := n - 12 - vol.p - vol.p * vol.p;
    var pos3 := Rem(q, vol.p);
    var pos2 := Rem(Quot(q, vol.p), vol.p);
    var pos := Quot(Quot(q, vol.p), vol.p);
    TriplePositionsAre(vol.p, n);
    TriplePath(vol.p, n, vol.Words(), vol.owner, files, ino, pos, pos2, pos3);
    ghost var u := Sub(Top(14), pos);
    ghost var t := Sub(u, pos2);
    ghost var s := Sub(t, pos3);
    if inode.block[14] == 0 {
      r := StartTriple(vol, n, pos, pos2, pos3, inode, ino, files);
    } else {
      var b1 := inode.block[14];
      var b2 := vol.ReadWord(b1, pos);
      if b2 == 0 {
        r := AddThreeUnder(vol, n, b1, pos, pos2, pos3, inode, u, t, s, ino, files);
      } else {
        var b3 := vol.ReadWord(b2, pos2);
        if b3 == 0 {
          r := AddTwoUnder(vol, n, b2, pos2, pos3, inode, t, s, ino, files);
        } else {
          r := AddOneUnder(vol, n, b3, pos3, inode, s, ino, files);
        }
      }
    }
  }

  /** `Inode_asignarBloque`: gives the file its block number `n`, with the pointer blocks it needs. */
  method AssignBlock(vol: Volume, n: nat, inode: Inode, ghost ino: nat, ghost files: map<nat, File>)
    returns (r: int)
    requires vol.p > 0 && Holds(vol, inode, ino, files, n) && n < MaxBlocks(vol.p)
    modifies vol`disk, vol`owner, vol.blocks, inode`block
    ensures Assigned(vol, n, inode, ino, files, r)
  {
    hide Holds, Grown, NewSlots, LiveSlots, Widths;
    if n < 12 {
      r := AssignDirect(vol, n, inode, ino, files);
    } else if n - 12 < vol.p {
      r := AssignSingle(vol, n, inode, ino, files);
    } else if n - 12 - vol.p < vol.p * vol.p {
      r := AssignDouble(vol, n, inode, ino, files);
    } else {
      r := AssignTriple(vol, n, inode, ino, files);
    }
  }

  /** The bytes of a block are as they were or have been cleared. */
  predicate Blanked(blk: seq<Byte>, blk': seq<Byte>) {
    |blk'| == |blk| && forall x :: 0 <= x < |blk| ==> blk'[x] == blk[x] || blk'[x] == 0
  }

  /** Blocks were taken off files: what is left belongs where it did, no data or metadata was written, and
      nothing but zeros to pointer blocks. */
  ghost predicate Shrunk(owner: map<nat, Owner>, disk: Disk, owner': map<nat, Owner>, disk': Disk) {
    && |disk'| == |disk| && Within(owner', owner)
    && (forall b :: b in owner && b !in owner' ==> owner[b] != Meta)
    && (forall b :: 0 <= b < |disk| && !IsPointerBlock(owner, b) ==> disk'[b] == disk[b])
    && (forall b :: 0 <= b < |disk| ==> Blanked(disk[b], disk'[b]))
  }

  lemma ErasedBytes(p: nat, blk: seq<Byte>, blk': seq<Byte>)
    requires |blk| == |blk'| == 4 * p && Erased(BlockWords(blk, p), BlockWords(blk', p))
    ensures Blanked(blk, blk')
  {
    forall x | 0 <= x < |blk| ensures blk'[x] == blk[x] || blk'[x] == 0 {
      var k := x / 4;
      assert BlockWords(blk', p)[k] == BlockWords(blk, p)[k] || BlockWords(blk', p)[k] == 0;
      if BlockWords(blk', p)[k] == BlockWords(blk, p)[k] {
        Word32Injective(blk, blk', 4 * k);
      }
      assert x == 4 * k || x == 4 * k + 1 || x == 4 * k + 2 || x == 4 * k + 3;
    }
  }

  lemma ShrunkBytes(p: nat, owner: map<nat, Owner>, disk: Disk, owner': map<nat, Owner>, disk': Disk)
    requires ShrunkWords(owner, WordsOf(p, disk), owner', WordsOf(p, disk'))
    requires Formatted(p, disk) && Formatted(p, disk')
    ensures Shrunk(owner, disk, owner', disk') && Settled(owner')
  {
    hide Erased, Blanked;
    forall b | 0 <= b < |disk| ensures Blanked(disk[b], disk'[b]) {
      assert Erased(WordsOf(p, disk)[b], WordsOf(p, disk')[b]);
      ErasedBytes(p, disk[b], disk'[b]);
    }
    forall b | 0 <= b < |disk| && !IsPointerBlock(owner, b) ensures disk'[b] == disk[b] {
      assert WordsOf(p, disk')[b] == WordsOf(p, disk)[b];
      WordsInjective(disk[b], disk'[b], p);
    }
  }

  /** The outcome of releasing the last block, number `n`, of a file of `n + 1` blocks. */
  twostate predicate Released(vol: Volume, n: nat, inode: Inode, ino: nat, files: map<nat, File>)
    requires vol.p > 0
    reads vol, vol.blocks, inode
  {
    && Holds(vol, inode, ino, files[ino := File(inode.block, LiveSlots(vol.p, n))], n)
    && vol.blocks.totalFree == old(vol.blocks.totalFree) + |NewSlots(vol.p, n)|
    && Widths(vol.blocks.bitmap) == old(Widths(vol.blocks.bitmap))
    && Shrunk(old(vol.owner), old(vol.disk), vol.owner, vol.disk)
  }

  /** Closes the release of block `n`: its pointer and those of the emptied pointer blocks are cleared. */
  lemma CloseRelease(vol: Volume, n: nat, inode: Inode, ino: nat, files: map<nat, File>,
                     owner: map<nat, Owner>, disk: Disk, cs: seq<nat>, bs: seq<nat>)
    requires vol.p > 0 && n < MaxBlocks(vol.p)
    requires vol.Consistent() && Formatted(vol.p, disk) && vol.owner == Without(owner, cs)
    requires Good(vol.p, WordsOf(vol.p, disk), files, owner) && Settled(owner)
    requires ino in files && files[ino].live == LiveSlots(vol.p, n + 1)
    requires ChainBlocks(owner, ino, DataSlot(vol.p, n), cs) && ParentBlocks(owner, ino, DataSlot(vol.p, n), bs)
    requires vol.Words() == ClearWords(WordsOf(vol.p, disk), DataSlot(vol.p, n), bs)
    requires inode.block == DropTop(files[ino].ip, DataSlot(vol.p, n))
    ensures Holds(vol, inode, ino, files[ino := File(inode.block, LiveSlots(vol.p, n))], n)
    ensures Shrunk(owner, disk, vol.owner, vol.disk)
    ensures |cs| == |NewSlots(vol.p, n)|
  {
    hide Volume.Consistent, WordsOf, Good, Shrunk, ShrunkWords, Settled, Without,
         ChainBlocks, ParentBlocks, DataSlot, LiveSlots;
    ShrinkClears(vol.p, n, WordsOf(vol.p, disk), owner, files, ino, cs, bs);
    ChainBlocksLength(owner, ino, DataSlot(vol.p, n), cs);
    vol.Shape();
    ShrunkBytes(vol.p, owner, disk, vol.owner, vol.disk);
  }

  lemma InUse(p: nat, n: nat, w: Words, owner: map<nat, Owner>, files: map<nat, File>, i: nat, s: Slot)
    requires p > 0 && n < MaxBlocks(p)
    requires Good(p, w, files, owner) && i in files && files[i].live == LiveSlots(p, n + 1)
    requires s in Ancestors(DataSlot(p, n))
    ensures |files[i].ip| == 15
    ensures HasBlock(w, owner, i, PtrAt(files[i].ip, w, s), s) && |w[PtrAt(files[i].ip, w, s)]| == p
  {
    hide Good, DataSlot, LiveSlots, NewSlots, MaxBlocks, Ancestors, HasBlock, PtrAt;
    PathLive(p, n, s);
    SlotUse(p, w, owner, files, i, s);
  }

  lemma SingleInUse(p: nat, n: nat, w: Words, owner: map<nat, Owner>, files: map<nat, File>, i: nat)
    requires p > 0 && 12 <= n < 12 + p
    requires Good(p, w, files, owner) && i in files && files[i].live == LiveSlots(p, n + 1)
    ensures |files[i].ip| == 15 && n < MaxBlocks(p) && DataSlot(p, n) == Sub(Top(12), n - 12)
    ensures var b1 := files[i].ip[12];
            && HasBlock(w, owner, i, b1, Top(12)) && |w[b1]| == p
            && HasBlock(w, owner, i, w[b1][n - 12], Sub(Top(12), n - 12))
  {
    InUse(p, n, w, owner, files, i, Top(12));
    InUse(p, n, w, owner, files, i, Sub(Top(12), n - 12));
    assert PtrAt(files[i].ip, w, Top(12)) == files[i].ip[12];
  }

  lemma DoubleInUse(p: nat, n: nat, w: Words, owner: map<nat, Owner>, files: map<nat, File>, i: nat)
    requires p > 0 && 12 + p <= n && n - 12 - p < p * p
    requires Good(p, w, files, owner) && i in files && files[i].live == LiveSlots(p, n + 1)
    ensures |files[i].ip| == 15 && n < MaxBlocks(p) && Quot(n - 12 - p, p) < p
    ensures var pos, pos2, b1 := Quot(n - 12 - p, p), Rem(n - 12 - p, p), files[i].ip[13];
            && DataSlot(p, n) == Sub(Sub(Top(13), pos), pos2)
            && HasBlock(w, owner, i, b1, Top(13)) && |w[b1]| == p
            && HasBlock(w, owner, i, w[b1][pos], Sub(Top(13), pos)) && |w[w[b1][pos]]| == p
            && HasBlock(w, owner, i, w[w[b1][pos]][pos2], Sub(Sub(Top(13), pos), pos2))
  {
    hide Quot, Rem, Good, LiveSlots, DataSlot, MaxBlocks, NewSlots;
    var t := Sub(Top(13), Quot(n - 12 - p, p));
    DivBound(n - 12 - p, p, p);
    DoubleDataSlot(p, n - 12 - p);
    DoublePathSlots(p, n);
    InUse(p, n, w, owner, files, i, Top(13));
    InUse(p, n, w, owner, files, i, t);
    InUse(p, n, w, owner, files, i, DataSlot(p, n));
    assert PtrAt(files[i].ip, w, Top(13)) == files[i].ip[13];
    assert PtrAt(files[i].ip, w, t) == w[files[i].ip[13]][t.pos];
  }

  lemma TripleInUse(p: nat, n: nat, w: Words, owner: map<nat, Owner>, files: map<nat, File>, i: nat,
                    pos: nat, pos2: nat, pos3: nat)
    requires TriplePositionsOf(p, n, pos, pos2, pos3) && n < MaxBlocks(p)
    requires Good(p, w, files, owner) && i in files && files[i].live == LiveSlots(p, n + 1)
    ensures |files[i].ip| == 15 && pos < p && pos2 < p && pos3 < p
    ensures var b1 := files[i].ip[14];
            var u := Sub(Top(14), pos);
            && DataSlot(p, n) == Sub(Sub(u, pos2), pos3)
            && HasBlock(w, owner, i, b1, Top(14)) && |w[b1]| == p
            && var b2 := w[b1][pos];
               && HasBlock(w, owner, i, b2, u) && |w[b2]| == p
               && var b3 := w[b2][pos2];
                  && HasBlock(w, owner, i, b3, Sub(u, pos2)) && |w[b3]| == p
                  && HasBlock(w, owner, i, w[b3][pos3], Sub(Sub(u, pos2), pos3))
  {
    var u := Sub(Top(14), pos);
    var t := Sub(u, pos2);
    TriplePathSlots(p, n, pos, pos2, pos3);
    InUse(p, n, w, owner, files, i, Top(14));
    InUse(p, n, w, owner, files, i, u);
    InUse(p, n, w, owner, files, i, t);
    InUse(p, n, w, owner, files, i, DataSlot(p, n));
    hide Good, LiveSlots;
    var ip, b1 := files[i].ip, files[i].ip[14];
    assert PtrAt(ip, w, Top(14)) == b1;
    assert PtrAt(ip, w, u) == w[b1][pos];
    assert PtrAt(ip, w, t) == w[w[b1][pos]][pos2];
  }

  lemma Without1(owner: map<nat, Owner>, a: nat)
    ensures Without(owner, [a]) == owner - {a}
  {
    assert Without(owner - {a}, []) == owner - {a};
  }

  lemma Without2(owner: map<nat, Owner>, a: nat, b: nat)
    ensures Without(owner, [a, b]) == owner - {b} - {a}
  {
    Without1(owner - {a}, b);
    assert [a, b][1..] == [b] && owner - {a} - {b} == owner - {b} - {a};
  }

  lemma Without3(owner: map<nat, Owner>, a: nat, b: nat, c: nat)
    ensures Without(owner, [a, b, c]) == owner - {b} - {c} - {a}
  {
    Without2(owner - {a}, b, c);
    assert [a, b, c][1..] == [b, c] && owner - {a} - {c} - {b} == owner - {b} - {c} - {a};
  }

  lemma Without4(owner: map<nat, Owner>, a: nat, b: nat, c: nat, d: nat)
    ensures Without(owner, [a, b, c, d]) == owner - {b} - {c} - {d} - {a}
  {
    Without3(owner - {a}, b, c, d);
    assert [a, b, c, d][1..] == [b, c, d] && owner - {a} - {c} - {d} - {b} == owner - {b} - {c} - {d} - {a};
  }

  method ReleaseDirect(vol: Volume, n: nat, inode: Inode, ghost ino: nat, ghost files: map<nat, File>)
    requires vol.p > 0 && Holds(vol, inode, ino, files, n + 1) && n < 12
    modifies vol`owner, vol.blocks, inode`block
    ensures Released(vol, n, inode, ino, files)
  {
    hide Holds, Tally, Volume.Consistent, WordsOf, Good, Shrunk, Settled, Widths, Without;
    HoldsFacts(vol, inode, ino, files, n + 1);
    ghost var p, w, owner := vol.p, vol.Words(), vol.owner;
    vol.Shape();
    InUse(p, n, w, owner, files, ino, Top(n));
    var b1 := inode.block[n];
    inode.block := inode.block[n := 0];
    vol.GiveBlock(b1);
    Without1(owner, b1);
    CloseRelease(vol, n, inode, ino, files, owner, vol.disk, [b1], []);
  }

  method ReleaseSingle(vol: Volume, n: nat, inode: Inode, ghost ino: nat, ghost files: map<nat, File>)
    requires vol.p > 0 && Holds(vol, inode, ino, files, n + 1) && 12 <= n < 12 + vol.p
    modifies vol`disk, vol`owner, vol.blocks, inode`block
    ensures Released(vol, n, inode, ino, files)
  {
    hide Holds, Tally, Volume.Consistent, WordsOf, Good, Shrunk, Settled, Widths, Without, ChainBlocks, ParentBlocks,
         WordAt, WordPut, PutWord, ClearWords, DropTop, DataSlot, LiveSlots, NewSlots;
    HoldsFacts(vol, inode, ino, files, n + 1);
    ghost var p, w, owner, disk, ip := vol.p, vol.Words(), vol.owner, vol.disk, inode.block;
    vol.Shape();
    SingleInUse(p, n, w, owner, files, ino);
    var pos := n - 12;
    var b1 := inode.block[12];
    var b2 := vol.ReadWord(b1, pos);
    ClearSingle(w, owner, ino, ip, Top(12), b1, pos, b2);
    if pos == 0 {
      inode.block := inode.block[12 := 0];
      vol.GiveBlock(b1);
    }
    vol.WriteWord(b1, pos, 0);
    vol.GiveBlock(b2);
    Without1(owner, b2);
    Without2(owner, b2, b1);
    CloseRelease(vol, n, inode, ino, files, owner, disk, if pos == 0 then [b2, b1] else [b2], [b1]);
  }

  method ReleaseDouble(vol: Volume, n: nat, inode: Inode, ghost ino: nat, ghost files: map<nat, File>)
    requires vol.p > 0 && Holds(vol, inode, ino, files, n + 1)
    requires 12 + vol.p <= n && n - 12 - vol.p < vol.p * vol.p
    modifies vol`disk, vol`owner, vol.blocks, inode`block
    ensures Released(vol, n, inode, ino, files)
  {
    hide Holds, Tally, Volume.Consistent, WordsOf, Good, Shrunk, Settled, Widths, Without, ChainBlocks, ParentBlocks,
         WordAt, WordPut, PutWord, ClearWords, DropTop, DataSlot, LiveSlots, NewSlots, MaxBlocks, Quot, Rem;
    HoldsFacts(vol, inode, ino, files, n + 1);
    ghost var p, w, owner, disk, ip := vol.p, vol.Words(), vol.owner, vol.disk, inode.block;
    vol.Shape();
    DoubleInUse(p, n, w, owner, files, ino);
    var pos2 := Rem(n - 12 - vol.p, vol.p);
    var pos := Quot(n - 12 - vol.p, vol.p);
    var b1 := inode.block[13];
    var b2 := vol.ReadWord(b1, pos);
    var b3 := vol.ReadWord(b2, pos2);
    ClearDouble(w, owner, ino, ip, Top(13), b1, pos, b2, pos2, b3);
    if pos2 == 0 {
      vol.WriteWord(b1, pos, 0);
      vol.GiveBlock(b2);
      if pos == 0 {
        inode.block := inode.block[13 := 0];
        vol.GiveBlock(b1);
      }
    }
    vol.WriteWord(b2, pos2, 0);
    vol.GiveBlock(b3);
    Without1(owner, b3);
    Without2(owner, b3, b2);
    Without3(owner, b3, b2, b1);
    ghost var cs := if pos2 != 0 then [b3] else if pos != 0 then [b3, b2] else [b3, b2, b1];
    CloseRelease(vol, n, inode, ino, files, owner, disk, cs, [b2, b1]);
  }

  /** The pointer blocks of the triple indirect tree that are left empty when `pos3` is 0. */
  method ReleaseTripleParents(vol: Volume, inode: Inode, b1: nat, pos: nat, b2: nat, pos2: nat, b3: nat)
    requires vol.Consistent() && |inode.block| == 15 && pos < vol.p && pos2 < vol.p
    requires 0 < b1 < |vol.disk| && 0 < b2 < |vol.disk| && b3 != 0 && b1 != b2 && b1 != b3 && b2 != b3
    requires b1 in vol.owner && b2 in vol.owner && b3 in vol.owner
    modifies vol`disk, vol`owner, vol.blocks, inode`block
    ensures vol.Consistent() && |vol.disk| == old(|vol.disk|)
    ensures Widths(vol.blocks.bitmap) == old(Widths(vol.blocks.bitmap))
    ensures b2 < |old(vol.Words())| && pos2 < |old(vol.Words())[b2]|
    ensures var w := PutWord(old(vol.Words()), b2, pos2, 0);
            && b1 < |w| && pos < |w[b1]| && vol.Words() == (if pos2 == 0 then PutWord(w, b1, pos, 0) else w)
    ensures vol.owner == if pos2 != 0 then old(vol.owner) - {b3}
                         else if pos != 0 then old(vol.owner) - {b3} - {b2} else old(vol.owner) - {b3} - {b2} - {b1}
    ensures inode.block == if pos2 == 0 && pos == 0 then old(inode.block)[14 := 0] else old(inode.block)
    ensures vol.blocks.totalFree == old(vol.blocks.totalFree) + if pos2 != 0 then 1 else if pos != 0 then 2 else 3
  {
    hide Volume.Consistent, WordsOf, Widths, WordPut;
    vol.Shape();
    vol.WriteWord(b2, pos2, 0);
    vol.GiveBlock(b3);
    if pos2 == 0 {
      vol.WriteWord(b1, pos, 0);
      vol.GiveBlock(b2);
      if pos == 0 {
        inode.block := inode.block[14 := 0];
        vol.GiveBlock(b1);
      }
    }
  }

  method ReleaseTriple(vol: Volume, n: nat, inode: Inode, ghost ino: nat, ghost files: map<nat, File>)
    requires vol.p > 0 && Holds(vol, inode, ino, files, n + 1)
    requires 12 + vol.p + vol.p * vol.p <= n < MaxBlocks(vol.p)
    modifies vol`disk, vol`owner, vol.blocks, inode`block
    ensures Released(vol, n, inode, ino, files)
  {
    hide Holds, Tally, Volume.Consistent, WordsOf, Good, Shrunk, Settled, Widths, Without, ChainBlocks, ParentBlocks,
         WordAt, WordPut, PutWord, ClearWords, DropTop, DataSlot, LiveSlots, NewSlots, MaxBlocks,
         Quot, Rem, TriplePositionsOf;
    HoldsFacts(vol, inode, ino, files, n + 1);
    ghost var p, w, owner, disk, ip := vol.p, vol.Words(), vol.owner, vol.disk, inode.block;
    vol.Shape();
    var q: nat := n - 12 - vol.p - vol.p * vol.p;
    var pos3 := Rem(q, vol.p);
    var pos2 := Rem(Quot(q, vol.p), vol.p);
    var pos := Quot(Quot(q, vol.p), vol.p);
    TriplePositionsAre(vol.p, n);
    TripleInUse(p, n, w, owner, files, ino, pos, pos2, pos3);
    var b1 := inode.block[14];
    var b2 := vol.ReadWord(b1, pos);
    var b3 := vol.ReadWord(b2, pos2);
    var b4 := vol.ReadWord(b3, pos3);
    ClearTriple(w, owner, ino, ip, Top(14), b1, pos, b2, pos2, b3, pos3, b4);
    if pos3 == 0 {
      ReleaseTripleParents(vol, inode, b1, pos, b2, pos2, b3);
    }
    vol.WriteWord(b3, pos3, 0);
    vol.GiveBlock(b4);
    Without1(owner, b4);
    Without2(owner, b4, b3);
    Without3(owner, b4, b3, b2);
    Without4(owner, b4, b3, b2, b1);
    ghost var cs := if pos3 != 0 then [b4] else if pos2 != 0 then [b4, b3] else if pos != 0 then [b4, b3, b2] else
      [b4, b3, b2, b1];
    CloseRelease(vol, n, inode, ino, files, owner, disk, cs, [b3, b2, b1]);
  }

  /** `Inode_liberarBloque`: takes block `n`, the last one, off the file, with the pointer blocks left empty. */
  method ReleaseBlock(vol: Volume, n: nat, inode: Inode, ghost ino: nat, ghost files: map<nat, File>)
    requires vol.p > 0 && Holds(vol, inode, ino, files, n + 1) && n < MaxBlocks(vol.p)
    modifies vol`disk, vol`owner, vol.blocks, inode`block
    ensures Released(vol, n, inode, ino, files)
  {
    hide Holds, Shrunk, NewSlots, LiveSlots, Widths;
    if n < 12 {
      ReleaseDirect(vol, n, inode, ino, files);
    } else if n - 12 < vol.p {
      ReleaseSingle(vol, n, inode, ino, files);
    } else if n - 12 - vol.p < vol.p * vol.p {
      ReleaseDouble(vol, n, inode, ino, files);
    } else {
      ReleaseTriple(vol, n, inode, ino, files);
    }
  }
}
