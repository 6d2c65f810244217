/** Where each block of a file hangs in the inode: twelve direct pointers, then a single, a
    double and a triple indirect tree.  `p` is the number of pointers that fit in a block. */
module BlockTree {
  import opened Arithmetic

  /** A place in the tree of one file.  `Top(i)` is what `i_block[i]` points to; `Sub(s, k)` is
      what the k-th word of the pointer block at `s` points to. */
  datatype Slot = Top(index: nat) | Sub(parent: Slot, pos: nat)

  /** How many levels of pointers lie below a slot; 0 for a data block. */
  function Height(s: Slot): int {
    match s
    case Top(i) => if i < 12 then 0 else i - 11
    case Sub(q, _) => Height(q) - 1
  }

  predicate WellFormed(p: nat, s: Slot) {
    match s
    case Top(i) => i < 15
    case Sub(q, k) => WellFormed(p, q) && Height(q) >= 1 && k < p
  }

  /** The number of data blocks below a full subtree of height `h`. */
  function Span(p: nat, h: int): nat {
    if h <= 0 then 1 else p * Span(p, h - 1)
  }

  function MaxBlocks(p: nat): nat {
    12 + p + p * p + p * p * p
  }

  /** The logical index of the first data block below a slot. */
  function First(p: nat, s: Slot): nat {
    match s
    case Top(i) => if i <= 12 then i else if i == 13 then 12 + p else 12 + p + p * p
    case Sub(q, k) => First(p, q) + k * Span(p, Height(s))
  }

  /** The slot of logical block `n`, with the positions as the program computes them. */
  function DataSlot(p: nat, n: nat): Slot
    requires p > 0
  {
    if n < 12 then Top(n)
    else if n - 12 < p then Sub(Top(12), n - 12)
    else if n - 12 - p < p * p then
      var q := n - 12 - p;
      Sub(Sub(Top(13), Quot(q, p)), Rem(q, p))
    else
      var q: nat := n - 12 - p - p * p;
      Sub(Sub(Sub(Top(14), Quot(Quot(q, p), p)), Rem(Quot(q, p), p)), Rem(q, p))
  }

  lemma SpanValues(p: nat)
    ensures Span(p, 0) == 1 && Span(p, 1) == p && Span(p, 2) == p * p && Span(p, 3) == p * p * p
  {
    assert Span(p, 1) == p * Span(p, 0);
    assert Span(p, 2) == p * Span(p, 1);
    assert Span(p, 3) == p * Span(p, 2);
    assert p * (p * p) == p * p * p;
  }

  lemma SingleLevel(p: nat, c: nat)
    ensures First(p, Sub(Top(12), c)) == 12 + c
    ensures Height(Sub(Top(12), c)) == 0
  {
    var s := Sub(Top(12), c);
    assert Height(s) == 0;
    assert First(p, s) == 12 + c * Span(p, 0);
  }

  lemma DoubleLevel(p: nat, b: nat, c: nat)
    ensures First(p, Sub(Sub(Top(13), b), c)) == 12 + p + (b * p + c)
    ensures Height(Sub(Sub(Top(13), b), c)) == 0
  {
    SpanValues(p);
    var r := Sub(Top(13), b);
    assert Height(r) == 1 && First(p, r) == 12 + p + b * p;
    var s := Sub(r, c);
    assert Height(s) == 0 && First(p, s) == First(p, r) + c * Span(p, 0);
  }

  lemma TripleLevel(p: nat, a: nat, b: nat, c: nat)
    ensures First(p, Sub(Sub(Sub(Top(14), a), b), c)) == 12 + p + p * p + ((a * p + b) * p + c)
    ensures Height(Sub(Sub(Sub(Top(14), a), b), c)) == 0
  {
    SpanValues(p);
    var q := Sub(Top(14), a);
    assert Height(q) == 2 && First(p, q) == 12 + p + p * p + a * Span(p, 2);
    var r := Sub(q, b);
    assert Height(r) == 1 && First(p, r) == First(p, q) + b * Span(p, 1);
    var s := Sub(r, c);
    assert Height(s) == 0 && First(p, s) == First(p, r) + c * Span(p, 0);
    assert a * (p * p) + b * p == (a * p + b) * p;
  }

  lemma TripleBounds(p: nat, q: nat)
    requires p > 0 && q < p * p * p
    ensures Quot(Quot(q, p), p) < p
    ensures (Quot(Quot(q, p), p) * p + Rem(Quot(q, p), p)) * p + Rem(q, p) == q
  {
    hide Quot, Rem;
    DivBound(q, p, p * p);
    DivBound(Quot(q, p), p, p);
  }

  lemma TriplePositions(p: nat, a: nat, b: nat, c: nat)
    requires a < p && b < p && c < p
    ensures var q := (a * p + b) * p + c;
            && q < p * p * p
            && Quot(Quot(q, p), p) == a && Rem(Quot(q, p), p) == b && Rem(q, p) == c
  {
    hide Quot, Rem;
    DivMod(p, a * p + b, c);
    DivMod(p, a, b);
    RowBound(a, b, p, p);
    RowBound(a * p + b, c, p * p, p);
  }

  /** Every logical index a file can have gets a well-formed data slot that starts at it. */
  lemma DataSlotSound(p: nat, n: nat)
    requires p > 0 && n < MaxBlocks(p)
    ensures WellFormed(p, DataSlot(p, n))
    ensures Height(DataSlot(p, n)) == 0
    ensures First(p, DataSlot(p, n)) == n
  {
    hide Quot, Rem;
    if n < 12 {
    } else if n < 12 + p {
      SingleLevel(p, n - 12);
    } else if n - 12 - p < p * p {
      DoubleSlotSound(p, n - 12 - p);
    } else {
      TripleSlotSound(p, n - 12 - p - p * p);
    }
  }

  lemma DoubleSlotSound(p: nat, q: nat)
    requires p > 0 && q < p * p
    ensures var s := Sub(Sub(Top(13), Quot(q, p)), Rem(q, p));
            WellFormed(p, s) && Height(s) == 0 && First(p, s) == 12 + p + q
  {
    hide Quot, Rem, First;
    DivBound(q, p, p);
    DoubleLevel(p, Quot(q, p), Rem(q, p));
    assert WellFormed(p, Top(13)) && Height(Top(13)) == 2;
    assert WellFormed(p, Sub(Top(13), Quot(q, p)));
  }

  lemma TripleWellFormed(p: nat, a: nat, b: nat, c: nat)
    requires a < p && b < p && c < p
    ensures WellFormed(p, Sub(Sub(Sub(Top(14), a), b), c))
  {
    var s := Top(14);
    assert WellFormed(p, s) && Height(s) == 3;
    var t := Sub(s, a);
    assert WellFormed(p, t) && Height(t) == 2;
    var u := Sub(t, b);
    assert WellFormed(p, u) && Height(u) == 1;
  }

  lemma TripleSlotSound(p: nat, q: nat)
    requires p > 0 && q < p * p * p
    ensures var s := Sub(Sub(Sub(Top(14), Quot(Quot(q, p), p)), Rem(Quot(q, p), p)), Rem(q, p));
            WellFormed(p, s) && Height(s) == 0 && First(p, s) == 12 + p + p * p + q
  {
    hide First, WellFormed, Height, Quot, Rem;
    TripleBounds(p, q);
    TripleLevel(p, Quot(Quot(q, p), p), Rem(Quot(q, p), p), Rem(q, p));
    TripleWellFormed(p, Quot(Quot(q, p), p), Rem(Quot(q, p), p), Rem(q, p));
  }

  lemma HeightNonNegative(p: nat, s: Slot)
    requires WellFormed(p, s)
    ensures 0 <= Height(s) <= 3
  {
  }

  /** The four forms that a data slot can take. */
  lemma DataSlotShape(p: nat, s: Slot)
    requires WellFormed(p, s) && Height(s) == 0
    ensures s.Top? ==> s.index < 12
    ensures s.Sub? ==> s.pos < p
    ensures s.Sub? && s.parent.Top? ==> s.parent == Top(12)
    ensures s.Sub? && s.parent.Sub? ==> s.parent.pos < p
    ensures s.Sub? && s.parent.Sub? && s.parent.parent.Top? ==> s.parent.parent == Top(13)
    ensures s.Sub? && s.parent.Sub? && s.parent.parent.Sub? ==>
              s.parent.parent.parent == Top(14) && s.parent.parent.pos < p
  {
    if s.Sub? {
      var q := s.parent;
      assert Height(q) == 1 && WellFormed(p, q);
      if q.Sub? {
        var r := q.parent;
        assert Height(r) == 2 && WellFormed(p, r);
        if r.Sub? {
          assert Height(r.parent) == 3 && WellFormed(p, r.parent);
          if r.parent.Sub? {
            HeightNonNegative(p, r.parent.parent);
          }
        }
      }
    }
  }

  /** A data slot is determined by its logical index, so distinct indexes never share a place. */
  lemma DataSlotUnique(p: nat, s: Slot)
    requires p > 0 && WellFormed(p, s) && Height(s) == 0
    ensures First(p, s) < MaxBlocks(p)
    ensures s == DataSlot(p, First(p, s))
  {
    DataSlotShape(p, s);
    match s {
      case Top(i) =>
      case Sub(Top(_), c) => SingleSlotUnique(p, c);
      case Sub(Sub(Top(_), b), c) => DoubleSlotUnique(p, b, c);
      case Sub(Sub(Sub(_, a), b), c) => TripleSlotUnique(p, a, b, c);
    }
  }

  lemma SingleSlotUnique(p: nat, c: nat)
    requires c < p
    ensures var s := Sub(Top(12), c); First(p, s) < MaxBlocks(p) && s == DataSlot(p, First(p, s))
  {
    SingleLevel(p, c);
  }

  lemma DoubleSlotUnique(p: nat, b: nat, c: nat)
    requires b < p && c < p
    ensures var s := Sub(Sub(Top(13), b), c); First(p, s) < MaxBlocks(p) && s == DataSlot(p, First(p, s))
  {
    hide First, Quot, Rem, DataSlot, MaxBlocks;
    DoubleLevel(p, b, c);
    DivMod(p, b, c);
    RowBound(b, c, p, p);
    DoubleDataSlot(p, b * p + c);
  }

  lemma DoubleDataSlot(p: nat, q: nat)
    requires p > 0 && q < p * p
    ensures DataSlot(p, 12 + p + q) == Sub(Sub(Top(13), Quot(q, p)), Rem(q, p)) && 12 + p + q < MaxBlocks(p)
  {
    hide Quot, Rem;
    assert p * p * p >= 0;
  }

  lemma TripleSlotUnique(p: nat, a: nat, b: nat, c: nat)
    requires a < p && b < p && c < p
    ensures var s := Sub(Sub(Sub(Top(14), a), b), c);
            First(p, s) < MaxBlocks(p) && s == DataSlot(p, First(p, s))
  {
    hide First, Quot, Rem, DataSlot, MaxBlocks;
    TriplePositions(p, a, b, c);
    TripleLevel(p, a, b, c);
    TripleIndexUnique(p, a, b, c, (a * p + b) * p + c);
  }

  lemma TripleIndexUnique(p: nat, a: nat, b: nat, c: nat, q: nat)
    requires p > 0 && q < p * p * p
    requires Quot(Quot(q, p), p) == a && Rem(Quot(q, p), p) == b && Rem(q, p) == c
    requires First(p, Sub(Sub(Sub(Top(14), a), b), c)) == 12 + p + p * p + q
    ensures var s := Sub(Sub(Sub(Top(14), a), b), c);
            First(p, s) < MaxBlocks(p) && s == DataSlot(p, First(p, s))
  {
    hide First, Quot, Rem, DataSlot;
    TripleDataSlot(p, q);
  }

  lemma TripleDataSlot(p: nat, q: nat)
    requires p > 0
    ensures DataSlot(p, 12 + p + p * p + q) ==
            Sub(Sub(Sub(Top(14), Quot(Quot(q, p), p)), Rem(Quot(q, p), p)), Rem(q, p))
  {
  }

  /** A subtree starts where its first child starts, and its other children start later. */
  lemma FirstOfChild(p: nat, s: Slot)
    requires p > 0 && WellFormed(p, s) && s.Sub?
    ensures First(p, s.parent) <= First(p, s)
    ensures First(p, s) == First(p, s.parent) <==> s.pos == 0
  {
    SpanPositive(p, Height(s));
    assert s.pos > 0 ==> s.pos * Span(p, Height(s)) > 0;
  }

  lemma SpanPositive(p: nat, h: int)
    requires p > 0
    ensures Span(p, h) > 0
  {
    if h > 0 {
      SpanPositive(p, h - 1);
    }
  }

  function Ancestors(s: Slot): set<Slot> {
    {s} + if s.Sub? then Ancestors(s.parent) else {}
  }

  /** The pointer blocks of which a slot is the very first entry, outermost first, and the slot itself. */
  function Chain(s: Slot): seq<Slot> {
    (if s.Sub? && s.pos == 0 then Chain(s.parent) else []) + [s]
  }

  /** The slots that start to exist when a file grows from `n` to `n + 1` blocks. */
  function NewSlots(p: nat, n: nat): seq<Slot>
    requires p > 0
  {
    Chain(DataSlot(p, n))
  }

  /** The slots in use in a hole-free file of `n` blocks. */
  ghost function LiveSlots(p: nat, n: nat): iset<Slot> {
    iset s: Slot | WellFormed(p, s) && First(p, s) < n
  }

  /** Whatever starts at block `n` is on the way from the data slot of `n` to the inode. */
  lemma {:induction false} StartsAt(p: nat, n: nat, s: Slot)
    requires p > 0 && WellFormed(p, s) && First(p, s) == n
    ensures n < MaxBlocks(p) && s in Chain(DataSlot(p, n))
    decreases Height(s)
  {
    HeightNonNegative(p, s);
    if Height(s) == 0 {
      DataSlotUnique(p, s);
    } else {
      var t := Sub(s, 0);
      StartsAt(p, n, t);
      ChainClosed(DataSlot(p, n), t);
    }
  }

  lemma ChainClosed(s: Slot, a: Slot)
    requires a in Chain(s) && a.Sub? && a.pos == 0
    ensures a.parent in Chain(s)
  {
    if a != s {
      ChainClosed(s.parent, a);
    }
  }

  lemma ChainStarts(p: nat, s: Slot, a: Slot)
    requires p > 0 && WellFormed(p, s) && a in Chain(s)
    ensures WellFormed(p, a) && First(p, a) == First(p, s)
  {
    if a != s {
      FirstOfChild(p, s);
      ChainStarts(p, s.parent, a);
    }
  }

  /** Growing by one block adds exactly the new data slot and the pointer blocks that start with it. */
  lemma LiveGrows(p: nat, n: nat)
    requires p > 0 && n < MaxBlocks(p)
    ensures LiveSlots(p, n + 1) == LiveSlots(p, n) + (iset s | s in NewSlots(p, n))
    ensures LiveSlots(p, n) == LiveSlots(p, n + 1) - (iset s | s in NewSlots(p, n))
  {
    DataSlotSound(p, n);
    forall s | s in NewSlots(p, n) ensures WellFormed(p, s) && First(p, s) == n {
      ChainStarts(p, DataSlot(p, n), s);
    }
    forall s | WellFormed(p, s) && First(p, s) == n ensures s in NewSlots(p, n) {
      StartsAt(p, n, s);
    }
  }

  /** A slot on the way to block `n` is in use before `n` is added unless it starts at `n`. */
  lemma AncestorLive(p: nat, s: Slot, a: Slot)
    requires p > 0 && WellFormed(p, s) && a in Ancestors(s)
    ensures WellFormed(p, a) && First(p, a) <= First(p, s)
    ensures First(p, a) < First(p, s) <==> a !in Chain(s)
  {
    if a in Chain(s) {
      ChainStarts(p, s, a);
    } else {
      FirstOfChild(p, s);
      AncestorLive(p, s.parent, a);
    }
  }

  /** The slots on the way to block `n` are in use once the file has `n + 1` blocks, and before that
      unless they are new with it. */
  lemma PathLive(p: nat, n: nat, s: Slot)
    requires p > 0 && n < MaxBlocks(p) && s in Ancestors(DataSlot(p, n))
    ensures WellFormed(p, s) && s in LiveSlots(p, n + 1)
    ensures s in LiveSlots(p, n) <==> s !in NewSlots(p, n)
  {
    hide DataSlot, MaxBlocks, First, WellFormed, Ancestors, Chain;
    DataSlotSound(p, n);
    AncestorLive(p, DataSlot(p, n), s);
  }

  lemma LiveClosed(p: nat, n: nat, s: Slot)
    requires p > 0 && s in LiveSlots(p, n) && s.Sub?
    ensures s.parent in LiveSlots(p, n)
  {
    FirstOfChild(p, s);
  }
}
