/** Which file, and which place in it, every used block belongs to.  All the reasoning about
    sharing between files and about the four levels of indirection is here; it is independent of
    how many blocks a file has. */
module Ownership {
  import opened BlockTree

  /** `Loose` blocks are marked used but not linked into any file yet. */
  datatype Owner = Meta | Loose | Of(ino: nat, slot: Slot)

  /** The pointers in an inode, with the slots that are in use. */
  datatype File = File(ip: seq<nat>, live: iset<Slot>)

  /** The disk seen as blocks of pointer words. */
  type Words = seq<seq<nat>>

  /** The block number found at a slot by following pointers; 0 when there is none. */
  function PtrAt(ip: seq<nat>, w: Words, s: Slot): nat {
    match s
    case Top(i) => if i < |ip| then ip[i] else 0
    case Sub(q, k) =>
      var b := PtrAt(ip, w, q);
      if 0 < b < |w| && k < |w[b]| then w[b][k] else 0
  }

  ghost predicate Owns(w: Words, owner: map<nat, Owner>, ip: seq<nat>, i: nat, s: Slot) {
    var b := PtrAt(ip, w, s);
    b in owner && owner[b] == Of(i, s)
  }

  ghost predicate WellShaped(p: nat, w: Words, f: File) {
    && |f.ip| == 15
    && (forall s :: s in f.live ==> WellFormed(p, s))
    && (forall s :: s in f.live && s.Sub? ==> s.parent in f.live)
    && (forall s :: WellFormed(p, s) && s !in f.live ==> PtrAt(f.ip, w, s) == 0)
  }

  /** File `i` is well shaped and its slots in use have blocks of their own. */
  ghost predicate Placed(p: nat, w: Words, owner: map<nat, Owner>, i: nat, f: File) {
    && WellShaped(p, w, f)
    && (forall s :: s in f.live ==> Owns(w, owner, f.ip, i, s))
  }

  ghost predicate Reached(w: Words, files: map<nat, File>, o: Owner, b: nat) {
    o.Of? ==>
      && o.ino in files
      && o.slot in files[o.ino].live
      && PtrAt(files[o.ino].ip, w, o.slot) == b
  }

  /** The invariant: slots in use have a block of their own, slots not in use hold zero, and every
      block that a file owns is reachable from it. */
  ghost predicate Good(p: nat, w: Words, files: map<nat, File>, owner: map<nat, Owner>) {
    && (forall b :: 0 <= b < |w| ==> |w[b]| == p)
    && (forall b :: b in owner ==> b < |w|)
    && (0 in owner ==> owner[0] == Meta)
    && (forall i {:trigger Placed(p, w, owner, i, files[i])} :: i in files ==> Placed(p, w, owner, i, files[i]))
    && (forall b {:trigger Reached(w, files, owner[b], b)} :: b in owner ==> Reached(w, files, owner[b], b))
  }

  /** Two views of one file's pointers that agree everywhere. */
  ghost predicate SamePointers(p: nat, ip: seq<nat>, w: Words, ip': seq<nat>, w': Words) {
    && |ip'| == |ip|
    && forall s :: WellFormed(p, s) ==> PtrAt(ip', w', s) == PtrAt(ip, w, s)
  }

  /** As `SamePointers`, except that the pointer at `s` has become `v`. */
  ghost predicate OnePointer(p: nat, ip: seq<nat>, w: Words, ip': seq<nat>, w': Words, s: Slot, v: nat) {
    && |ip'| == |ip|
    && WellFormed(p, s) && PtrAt(ip', w', s) == v
    && forall t :: WellFormed(p, t) && t != s ==> PtrAt(ip', w', t) == PtrAt(ip, w, t)
  }

  /** A file whose pointers did not change keeps its place, if the blocks it owns are still its own. */
  lemma PlacedSame(p: nat, w: Words, owner: map<nat, Owner>, w': Words, owner': map<nat, Owner>, i: nat, f: File)
    requires Placed(p, w, owner, i, f) && SamePointers(p, f.ip, w, f.ip, w')
    requires forall b :: b in owner && owner[b].Of? && owner[b].ino == i ==> b in owner' && owner'[b] == owner[b]
    ensures Placed(p, w', owner', i, f)
  {
    forall s | s in f.live ensures Owns(w', owner', f.ip, i, s) {
      assert Owns(w, owner, f.ip, i, s);
    }
  }

  /** A block that holds pointers of some file. */
  ghost predicate IsPointerBlock(owner: map<nat, Owner>, b: nat) {
    b in owner && owner[b].Of? && Height(owner[b].slot) >= 1
  }

  /** No block is reachable twice. */
  lemma NoSharing(p: nat, w: Words, files: map<nat, File>, owner: map<nat, Owner>, i: nat, s: Slot, j: nat, t: Slot)
    requires Good(p, w, files, owner)
    requires i in files && s in files[i].live && j in files && t in files[j].live
    requires PtrAt(files[i].ip, w, s) == PtrAt(files[j].ip, w, t)
    ensures i == j && s == t
  {
    assert Placed(p, w, owner, i, files[i]) && Placed(p, w, owner, j, files[j]);
    assert Owns(w, owner, files[i].ip, i, s) && Owns(w, owner, files[j].ip, j, t);
  }

  /** Overwriting a block that holds no pointers changes no pointer of any file. */
  lemma {:induction false} ScribbleFrame(p: nat, w: Words, w': Words, owner: map<nat, Owner>, c: nat,
                                         i: nat, f: File, s: Slot)
    requires Placed(p, w, owner, i, f) && WellFormed(p, s)
    requires |w'| == |w| && forall b :: 0 <= b < |w| && b != c ==> w'[b] == w[b]
    requires !IsPointerBlock(owner, c)
    ensures PtrAt(f.ip, w', s) == PtrAt(f.ip, w, s)
    decreases s
  {
    if s.Sub? {
      var q := s.parent;
      ScribbleFrame(p, w, w', owner, c, i, f, q);
      if q in f.live {
        assert Owns(w, owner, f.ip, i, q);
      } else {
        assert PtrAt(f.ip, w, q) == 0;
      }
    }
  }

  lemma Scribble(p: nat, w: Words, w': Words, files: map<nat, File>, owner: map<nat, Owner>, c: nat)
    requires Good(p, w, files, owner)
    requires |w'| == |w| && forall b :: 0 <= b < |w| && b != c ==> w'[b] == w[b]
    requires c < |w| ==> |w'[c]| == p
    requires !IsPointerBlock(owner, c)
    ensures Good(p, w', files, owner)
    ensures forall i :: i in files ==> SamePointers(p, files[i].ip, w, files[i].ip, w')
  {
    forall i | i in files
      ensures SamePointers(p, files[i].ip, w, files[i].ip, w') && Placed(p, w', owner, i, files[i])
    {
      assert Placed(p, w, owner, i, files[i]);
      forall s | WellFormed(p, s) ensures PtrAt(files[i].ip, w', s) == PtrAt(files[i].ip, w, s) {
        ScribbleFrame(p, w, w', owner, c, i, files[i], s);
      }
      PlacedSame(p, w, owner, w', owner, i, files[i]);
    }
    forall b | b in owner ensures Reached(w', files, owner[b], b) {
      assert Reached(w, files, owner[b], b);
    }
  }

  function PutWord(w: Words, b: nat, k: nat, v: nat): Words
    requires b < |w| && k < |w[b]|
  {
    var row: seq<nat> := w[b][k := v];
    w[b := row]
  }

  /** The words of the disk after the pointer at slot `s` is set to `v`. */
  function SetWords(ip: seq<nat>, w: Words, s: Slot, v: nat): Words {
    if s.Top? then w
    else
      var b := PtrAt(ip, w, s.parent);
      if b < |w| && s.pos < |w[b]| then PutWord(w, b, s.pos, v) else w
  }

  /** The pointers in the inode after the pointer at slot `s` is set to `v`. */
  function SetTop(ip: seq<nat>, s: Slot, v: nat): seq<nat> {
    if s.Top? && s.index < |ip| then ip[s.index := v] else ip
  }

  predicate Zeroed(row: seq<nat>) {
    forall k :: 0 <= k < |row| ==> row[k] == 0
  }

  /** A slot whose pointer may be set to `v`: its place exists, nothing hangs below it, and `v` is
      zero or a loose block with nothing below it either. */
  ghost predicate Settable(p: nat, w: Words, owner: map<nat, Owner>, f: File, s: Slot, v: nat) {
    && WellFormed(p, s)
    && (s.Sub? ==> s.parent in f.live)
    && (forall k :: 0 <= k < p ==> Sub(s, k) !in f.live)
    && (v == 0 || (v in owner && owner[v] == Loose && v < |w| && (Height(s) >= 1 ==> Zeroed(w[v]))))
  }

  lemma {:induction false} SetOwn(p: nat, w: Words, owner: map<nat, Owner>, i: nat, f: File,
                                  s: Slot, v: nat, t: Slot)
    requires forall b :: 0 <= b < |w| ==> |w[b]| == p
    requires forall b :: b in owner ==> b < |w|
    requires 0 in owner ==> owner[0] == Meta
    requires Placed(p, w, owner, i, f) && Settable(p, w, owner, f, s, v) && WellFormed(p, t)
    ensures PtrAt(SetTop(f.ip, s, v), SetWords(f.ip, w, s, v), t) == if t == s then v else PtrAt(f.ip, w, t)
    decreases t
  {
    if t.Sub? {
      var q := t.parent;
      SetOwn(p, w, owner, i, f, s, v, q);
      if s.Sub? { assert Owns(w, owner, f.ip, i, s.parent); }
      if q == s {
        assert t == Sub(s, t.pos);
        assert PtrAt(f.ip, w, t) == 0;
      } else if q in f.live {
        assert Owns(w, owner, f.ip, i, q);
      } else {
        assert PtrAt(f.ip, w, q) == 0;
      }
    }
  }

  lemma {:induction false} SetOther(p: nat, w: Words, w': Words, owner: map<nat, Owner>, c: nat,
                                    i: nat, j: nat, g: File, t: Slot)
    requires Placed(p, w, owner, j, g) && j != i && WellFormed(p, t)
    requires |w'| == |w| && forall b :: 0 <= b < |w| && b != c ==> w'[b] == w[b]
    requires c in owner && owner[c].Of? && owner[c].ino == i
    ensures PtrAt(g.ip, w', t) == PtrAt(g.ip, w, t)
    decreases t
  {
    if t.Sub? {
      SetOther(p, w, w', owner, c, i, j, g, t.parent);
      if t.parent in g.live {
        assert Owns(w, owner, g.ip, j, t.parent);
      } else {
        assert PtrAt(g.ip, w, t.parent) == 0;
      }
    }
  }

  /** Setting one pointer of a file changes that pointer only, in that file and in all others. */
  lemma SetPointer(p: nat, w: Words, files: map<nat, File>, owner: map<nat, Owner>, i: nat, s: Slot, v: nat)
    requires Good(p, w, files, owner) && i in files && Settable(p, w, owner, files[i], s, v)
    ensures var ip, w' := files[i].ip, SetWords(files[i].ip, w, s, v);
            && |w'| == |w| && (forall b :: 0 <= b < |w| ==> |w'[b]| == p)
            && OnePointer(p, ip, w, SetTop(ip, s, v), w', s, v)
            && (forall j :: j in files && j != i ==> SamePointers(p, files[j].ip, w, files[j].ip, w'))
  {
    var f := files[i];
    var w' := SetWords(f.ip, w, s, v);
    assert Placed(p, w, owner, i, f);
    forall t | WellFormed(p, t)
      ensures PtrAt(SetTop(f.ip, s, v), w', t) == if t == s then v else PtrAt(f.ip, w, t)
    {
      SetOwn(p, w, owner, i, f, s, v, t);
    }
    forall j, t | j in files && j != i && WellFormed(p, t)
      ensures PtrAt(files[j].ip, w', t) == PtrAt(files[j].ip, w, t)
    {
      if s.Sub? {
        assert Owns(w, owner, f.ip, i, s.parent);
        assert Placed(p, w, owner, j, files[j]);
        SetOther(p, w, w', owner, PtrAt(f.ip, w, s.parent), i, j, files[j], t);
      }
    }
  }

  lemma PlacedAttach(p: nat, w: Words, owner: map<nat, Owner>, w': Words, i: nat, f: File, f': File, s: Slot, c: nat)
    requires Placed(p, w, owner, i, f) && OnePointer(p, f.ip, w, f'.ip, w', s, c)
    requires s.Sub? ==> s.parent in f.live
    requires c !in owner || !owner[c].Of?
    requires f'.live == f.live + iset{s}
    ensures Placed(p, w', owner[c := Of(i, s)], i, f')
  {
    forall t | t in f'.live ensures Owns(w', owner[c := Of(i, s)], f'.ip, i, t) {
      if t != s { assert Owns(w, owner, f.ip, i, t); }
    }
  }

  /** Linking a loose block at an unused slot keeps the invariant. */
  lemma Attach(p: nat, w: Words, files: map<nat, File>, owner: map<nat, Owner>, i: nat, s: Slot, c: nat)
    requires Good(p, w, files, owner) && i in files && Settable(p, w, owner, files[i], s, c)
    requires c != 0 && s !in files[i].live
    ensures Good(p, SetWords(files[i].ip, w, s, c),
                 files[i := File(SetTop(files[i].ip, s, c), files[i].live + iset{s})], owner[c := Of(i, s)])
  {
    var f := files[i];
    var f' := File(SetTop(f.ip, s, c), f.live + iset{s});
    var w', files', owner' := SetWords(f.ip, w, s, c), files[i := f'], owner[c := Of(i, s)];
    SetPointer(p, w, files, owner, i, s, c);
    forall j | j in files' ensures Placed(p, w', owner', j, files'[j]) {
      assert Placed(p, w, owner, j, files[j]);
      if j == i {
        PlacedAttach(p, w, owner, w', i, f, f', s, c);
      } else {
        PlacedSame(p, w, owner, w', owner', j, files[j]);
      }
    }
    forall b | b in owner' ensures Reached(w', files', owner'[b], b) {
      AttachReached(p, w, files, owner, w', files', i, s, c, b);
    }
  }

  lemma AttachReached(p: nat, w: Words, files: map<nat, File>, owner: map<nat, Owner>,
                      w': Words, files': map<nat, File>, i: nat, s: Slot, c: nat, b: nat)
    requires Good(p, w, files, owner) && i in files && s !in files[i].live
    requires i in files' && OnePointer(p, files[i].ip, w, files'[i].ip, w', s, c)
    requires files' == files[i := files'[i]] && files'[i].live == files[i].live + iset{s}
    requires forall j :: j in files && j != i ==> SamePointers(p, files[j].ip, w, files[j].ip, w')
    requires b in owner[c := Of(i, s)]
    ensures Reached(w', files', owner[c := Of(i, s)][b], b)
  {
    if b != c && owner[b].Of? {
      assert Reached(w, files, owner[b], b);
      assert Placed(p, w, owner, owner[b].ino, files[owner[b].ino]);
      assert WellFormed(p, owner[b].slot);
    }
  }

  lemma PlacedDetach(p: nat, w: Words, owner: map<nat, Owner>, w': Words, i: nat, f: File, f': File, s: Slot)
    requires Placed(p, w, owner, i, f) && OnePointer(p, f.ip, w, f'.ip, w', s, 0)
    requires forall k :: 0 <= k < p ==> Sub(s, k) !in f.live
    requires s in f.live && f'.live == f.live - iset{s}
    ensures Placed(p, w', owner[PtrAt(f.ip, w, s) := Loose], i, f')
  {
    assert Owns(w, owner, f.ip, i, s);
    forall t | t in f'.live ensures Owns(w', owner[PtrAt(f.ip, w, s) := Loose], f'.ip, i, t) {
      assert Owns(w, owner, f.ip, i, t);
    }
    forall t | t in f'.live && t.Sub? ensures t.parent in f'.live {
      assert WellFormed(p, t) && t == Sub(t.parent, t.pos);
    }
  }

  /** Clearing the pointer at a used slot with nothing below it leaves its block loose. */
  lemma Detach(p: nat, w: Words, files: map<nat, File>, owner: map<nat, Owner>, i: nat, s: Slot)
    requires Good(p, w, files, owner) && i in files && Settable(p, w, owner, files[i], s, 0)
    requires s in files[i].live
    ensures Good(p, SetWords(files[i].ip, w, s, 0),
                 files[i := File(SetTop(files[i].ip, s, 0), files[i].live - iset{s})],
                 owner[PtrAt(files[i].ip, w, s) := Loose])
  {
    var f := files[i];
    var f' := File(SetTop(f.ip, s, 0), f.live - iset{s});
    var c := PtrAt(f.ip, w, s);
    var w', files', owner' := SetWords(f.ip, w, s, 0), files[i := f'], owner[c := Loose];
    SetPointer(p, w, files, owner, i, s, 0);
    assert Placed(p, w, owner, i, f);
    assert Owns(w, owner, f.ip, i, s);
    forall j | j in files' ensures Placed(p, w', owner', j, files'[j]) {
      assert Placed(p, w, owner, j, files[j]);
      if j == i {
        PlacedDetach(p, w, owner, w', i, f, f', s);
      } else {
        PlacedSame(p, w, owner, w', owner', j, files[j]);
      }
    }
    forall b | b in owner' ensures Reached(w', files', owner'[b], b) {
      DetachReached(p, w, files, owner, w', files', i, s, b);
    }
  }

  lemma DetachReached(p: nat, w: Words, files: map<nat, File>, owner: map<nat, Owner>,
                      w': Words, files': map<nat, File>, i: nat, s: Slot, b: nat)
    requires Good(p, w, files, owner) && i in files && s in files[i].live
    requires i in files' && OnePointer(p, files[i].ip, w, files'[i].ip, w', s, 0)
    requires files' == files[i := files'[i]] && files'[i].live == files[i].live - iset{s}
    requires forall j :: j in files && j != i ==> SamePointers(p, files[j].ip, w, files[j].ip, w')
    requires b in owner[PtrAt(files[i].ip, w, s) := Loose]
    ensures Reached(w', files', owner[PtrAt(files[i].ip, w, s) := Loose][b], b)
  {
    assert Placed(p, w, owner, i, files[i]);
    assert Owns(w, owner, files[i].ip, i, s);
    if b != PtrAt(files[i].ip, w, s) && owner[b].Of? {
      assert Reached(w, files, owner[b], b);
      assert Placed(p, w, owner, owner[b].ino, files[owner[b].ino]);
      assert WellFormed(p, owner[b].slot);
    }
  }

  lemma TakeLoose(p: nat, w: Words, files: map<nat, File>, owner: map<nat, Owner>, c: nat)
    requires Good(p, w, files, owner) && c !in owner && 0 < c < |w|
    ensures Good(p, w, files, owner[c := Loose])
  {
    var owner' := owner[c := Loose];
    forall i | i in files ensures Placed(p, w, owner', i, files[i]) {
      assert Placed(p, w, owner, i, files[i]);
      PlacedSame(p, w, owner, w, owner', i, files[i]);
    }
    forall b | b in owner' ensures Reached(w, files, owner'[b], b) {
      assert b in owner ==> Reached(w, files, owner[b], b);
    }
  }

  lemma DropLoose(p: nat, w: Words, files: map<nat, File>, owner: map<nat, Owner>, c: nat)
    requires Good(p, w, files, owner) && c in owner && owner[c] == Loose
    ensures Good(p, w, files, owner - {c})
  {
    forall i | i in files ensures Placed(p, w, owner - {c}, i, files[i]) {
      assert Placed(p, w, owner, i, files[i]);
      PlacedSame(p, w, owner, w, owner - {c}, i, files[i]);
    }
    forall b | b in owner - {c} ensures Reached(w, files, owner[b], b) {
      assert Reached(w, files, owner[b], b);
    }
  }

  /** `small` owns nothing that `big` does not own in the same way. */
  ghost predicate Within(small: map<nat, Owner>, big: map<nat, Owner>) {
    forall b :: b in small ==> b in big && big[b] == small[b]
  }

  /** Ownership fixes pointers: if what a file owned is still owned the same way, the file's used
      slots still hold the same block numbers. */
  lemma PointerKept(p: nat, w: Words, files: map<nat, File>, owner: map<nat, Owner>,
                    w': Words, files': map<nat, File>, owner': map<nat, Owner>, i: nat, s: Slot)
    requires Good(p, w, files, owner) && Good(p, w', files', owner') && Within(owner, owner')
    requires i in files && s in files[i].live
    ensures i in files' && s in files'[i].live
    ensures PtrAt(files'[i].ip, w', s) == PtrAt(files[i].ip, w, s)
  {
    assert Placed(p, w, owner, i, files[i]);
    assert Owns(w, owner, files[i].ip, i, s);
    var b := PtrAt(files[i].ip, w, s);
    assert Reached(w', files', owner'[b], b);
  }

  /** The reserved blocks are the same. */
  ghost predicate SameMeta(owner: map<nat, Owner>, owner': map<nat, Owner>) {
    forall b :: (b in owner && owner[b] == Meta) <==> (b in owner' && owner'[b] == Meta)
  }

  lemma SameMetaTrans(owner0: map<nat, Owner>, owner1: map<nat, Owner>, owner2: map<nat, Owner>)
    requires SameMeta(owner0, owner1) && SameMeta(owner1, owner2)
    ensures SameMeta(owner0, owner2)
  {
  }

  lemma SameMetaRefl(owner: map<nat, Owner>)
    ensures SameMeta(owner, owner)
  {
  }

  ghost predicate Settled(owner: map<nat, Owner>) {
    forall b :: b in owner ==> !owner[b].Loose?
  }

  /** Growing some files and then shrinking them back to the slots they had gives every block back
      to the owner it had at first. */
  lemma GrowShrinkRestores(p: nat, w0: Words, files0: map<nat, File>, owner0: map<nat, Owner>,
                           w1: Words, files1: map<nat, File>, owner1: map<nat, Owner>,
                           w2: Words, files2: map<nat, File>, owner2: map<nat, Owner>)
    requires Good(p, w0, files0, owner0) && Good(p, w1, files1, owner1) && Good(p, w2, files2, owner2)
    requires Within(owner0, owner1) && Within(owner2, owner1)
    requires Settled(owner0) && Settled(owner2)
    requires forall b :: b in owner0 && owner0[b] == Meta <==> b in owner2 && owner2[b] == Meta
    requires files2.Keys == files0.Keys && forall i :: i in files0 ==> files2[i].live == files0[i].live
    ensures owner2 == owner0
    ensures forall i :: i in files0 ==> SamePointers(p, files0[i].ip, w0, files2[i].ip, w2)
    ensures forall i :: i in files0 ==> files2[i].ip == files0[i].ip
  {
    forall i, s | i in files0 && s in files0[i].live
      ensures PtrAt(files2[i].ip, w2, s) == PtrAt(files0[i].ip, w0, s)
    {
      PointerKept(p, w0, files0, owner0, w1, files1, owner1, i, s);
      PointerKept(p, w2, files2, owner2, w1, files1, owner1, i, s);
    }
    forall b | b in owner0 ensures b in owner2 && owner2[b] == owner0[b] {
      assert Reached(w0, files0, owner0[b], b);
      OwnerKept(p, w0, files0, owner0, w2, files2, owner2, b);
    }
    forall b | b in owner2 ensures b in owner0 && owner2[b] == owner0[b] {
      assert Reached(w2, files2, owner2[b], b);
      OwnerKept(p, w2, files2, owner2, w0, files0, owner0, b);
    }
    forall i | i in files0
      ensures SamePointers(p, files0[i].ip, w0, files2[i].ip, w2) && files2[i].ip == files0[i].ip
    {
      assert Placed(p, w0, owner0, i, files0[i]) && Placed(p, w2, owner2, i, files2[i]);
      forall s | WellFormed(p, s) ensures PtrAt(files2[i].ip, w2, s) == PtrAt(files0[i].ip, w0, s) {
        assert s in files0[i].live <==> s in files2[i].live;
      }
      forall k | 0 <= k < 15 ensures files2[i].ip[k] == files0[i].ip[k] {
        assert WellFormed(p, Top(k));
      }
    }
  }

  lemma OwnerKept(p: nat, w: Words, files: map<nat, File>, owner: map<nat, Owner>,
                  w': Words, files': map<nat, File>, owner': map<nat, Owner>, b: nat)
    requires Good(p, w, files, owner) && Good(p, w', files', owner') && b in owner && !owner[b].Loose?
    requires owner[b] == Meta ==> b in owner' && owner'[b] == Meta
    requires owner[b].Of? ==> owner[b].ino in files && owner[b].ino in files'
                              && owner[b].slot in files'[owner[b].ino].live
                              && PtrAt(files'[owner[b].ino].ip, w', owner[b].slot) ==
                                 PtrAt(files[owner[b].ino].ip, w, owner[b].slot)
    ensures b in owner' && owner'[b] == owner[b]
  {
    if owner[b].Of? {
      var i, s := owner[b].ino, owner[b].slot;
      assert Reached(w, files, owner[b], b);
      assert Placed(p, w', owner', i, files'[i]);
      assert Owns(w', owner', files'[i].ip, i, s);
    }
  }
}
