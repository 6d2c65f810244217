/** Hanging a chain of new blocks into a file, and taking one off again: what
    `Inode_asignarBloque` and `Inode_liberarBloque` do to the pointers in each of their branches. */
module Linking {
  import opened BlockTree
  import opened Ownership

  /** The inode pointers after blocks `cs` are stored at `slots`, first to last. */
  function HangTop(ip: seq<nat>, slots: seq<Slot>, cs: seq<nat>): seq<nat>
    requires |slots| == |cs|
    decreases |slots|
  {
    if slots == [] then ip else HangTop(SetTop(ip, slots[0], cs[0]), slots[1..], cs[1..])
  }

  /** The pointer words after blocks `cs` are stored at `slots`, first to last. */
  function HangWords(ip: seq<nat>, w: Words, slots: seq<Slot>, cs: seq<nat>): Words
    requires |slots| == |cs|
    decreases |slots|
  {
    if slots == [] then w
    else HangWords(SetTop(ip, slots[0], cs[0]), SetWords(ip, w, slots[0], cs[0]), slots[1..], cs[1..])
  }

  function HangOwner(owner: map<nat, Owner>, i: nat, slots: seq<Slot>, cs: seq<nat>): map<nat, Owner>
    requires |slots| == |cs|
    decreases |slots|
  {
    if slots == [] then owner else HangOwner(owner[cs[0] := Of(i, slots[0])], i, slots[1..], cs[1..])
  }

  function HangLive(live: iset<Slot>, slots: seq<Slot>): iset<Slot> {
    if slots == [] then live else HangLive(live + iset{slots[0]}, slots[1..])
  }

  /** Each slot hangs from the one before it. */
  ghost predicate Descends(slots: seq<Slot>) {
    forall j :: 0 < j < |slots| ==> slots[j].Sub? && slots[j].parent == slots[j - 1]
  }

  ghost predicate Hangable(p: nat, w: Words, owner: map<nat, Owner>, f: File, slots: seq<Slot>, cs: seq<nat>) {
    && |slots| == |cs| && Descends(slots)
    && (|slots| > 0 && slots[0].Sub? ==> slots[0].parent in f.live)
    && (forall j :: 0 <= j < |slots| ==>
          && WellFormed(p, slots[j]) && slots[j] !in f.live
          && (forall k :: 0 <= k < p ==> Sub(slots[j], k) !in f.live)
          && cs[j] != 0 && cs[j] < |w| && cs[j] in owner && owner[cs[j]] == Loose
          && (Height(slots[j]) >= 1 ==> Zeroed(w[cs[j]])))
    && (forall j, l :: 0 <= j < l < |cs| ==> cs[j] != cs[l])
  }

  lemma {:induction false} HeightDown(slots: seq<Slot>, j: nat)
    requires Descends(slots) && j < |slots|
    ensures Height(slots[j]) == Height(slots[0]) - j
  {
    if j > 0 {
      HeightDown(slots, j - 1);
      assert slots[j] == Sub(slots[j - 1], slots[j].pos);
    }
  }

  /** After the first block of a chain is linked, the rest can be linked. */
  lemma HangableRest(p: nat, w: Words, files: map<nat, File>,
                     owner: map<nat, Owner>, i: nat, slots: seq<Slot>, cs: seq<nat>)
    requires Good(p, w, files, owner) && i in files
    requires Hangable(p, w, owner, files[i], slots, cs) && |slots| > 0
    ensures var s, c, f := slots[0], cs[0], files[i];
            Hangable(p, SetWords(f.ip, w, s, c), owner[c := Of(i, s)],
                     File(SetTop(f.ip, s, c), f.live + iset{s}), slots[1..], cs[1..])
  {
    var s, c, f := slots[0], cs[0], files[i];
    var w' := SetWords(f.ip, w, s, c);
    assert Placed(p, w, owner, i, f);
    if s.Sub? { assert Owns(w, owner, f.ip, i, s.parent); }
    forall j | 0 < j < |slots|
      ensures slots[j] != s && (forall k :: 0 <= k < p ==> Sub(slots[j], k) != s)
      ensures w'[cs[j]] == w[cs[j]]
    {
      HeightDown(slots, j);
      forall k | 0 <= k < p ensures Sub(slots[j], k) != s {
        assert Height(Sub(slots[j], k)) == Height(slots[j]) - 1;
      }
    }
  }

  /** Linking a chain of new blocks, each below the one before, keeps the invariant. */
  lemma {:induction false} Hang(p: nat, w: Words, files: map<nat, File>, owner: map<nat, Owner>, i: nat,
                                slots: seq<Slot>, cs: seq<nat>)
    requires Good(p, w, files, owner) && i in files
    requires Hangable(p, w, owner, files[i], slots, cs)
    ensures Good(p, HangWords(files[i].ip, w, slots, cs),
                 files[i := File(HangTop(files[i].ip, slots, cs), HangLive(files[i].live, slots))],
                 HangOwner(owner, i, slots, cs))
    decreases |slots|
  {
    hide Good;
    if slots == [] {
      assert files[i := File(files[i].ip, files[i].live)] == files;
    } else {
      var s, c, f := slots[0], cs[0], files[i];
      var f' := File(SetTop(f.ip, s, c), f.live + iset{s});
      var w', files', owner' := SetWords(f.ip, w, s, c), files[i := f'], owner[c := Of(i, s)];
      HangableRest(p, w, files, owner, i, slots, cs);
      Attach(p, w, files, owner, i, s, c);
      Hang(p, w', files', owner', i, slots[1..], cs[1..]);
      var last := File(HangTop(f.ip, slots, cs), HangLive(f.live, slots));
      assert files'[i := last] == files[i := last];
    }
  }

  /** Marks the blocks `cs` as taken but not linked. */
  function LooseAll(owner: map<nat, Owner>, cs: seq<nat>): map<nat, Owner>
    decreases |cs|
  {
    if cs == [] then owner else LooseAll(owner[cs[0] := Loose], cs[1..])
  }

  ghost predicate Fresh(owner: map<nat, Owner>, cs: seq<nat>, size: nat) {
    && (forall j :: 0 <= j < |cs| ==> 0 < cs[j] < size && cs[j] !in owner)
    && (forall j, l :: 0 <= j < l < |cs| ==> cs[j] != cs[l])
  }

  lemma FreshNone(owner: map<nat, Owner>, size: nat)
    ensures Fresh(owner, [], size) && LooseAll(owner, []) == owner
  {
  }

  lemma {:induction false} LooseAllKeys(owner: map<nat, Owner>, cs: seq<nat>, b: nat)
    ensures b in LooseAll(owner, cs) <==> b in owner || b in cs
    decreases |cs|
  {
    if cs != [] {
      LooseAllKeys(owner[cs[0] := Loose], cs[1..], b);
    }
  }

  lemma {:induction false} LooseAllSnoc(owner: map<nat, Owner>, cs: seq<nat>, b: nat)
    ensures LooseAll(owner, cs + [b]) == LooseAll(owner, cs)[b := Loose]
    decreases |cs|
  {
    if cs == [] {
      assert LooseAll(owner[b := Loose], []) == owner[b := Loose];
    } else {
      LooseAllSnoc(owner[cs[0] := Loose], cs[1..], b);
      assert (cs + [b])[1..] == cs[1..] + [b];
    }
  }

  lemma FreshStep(owner: map<nat, Owner>, cs: seq<nat>, size: nat, b: nat)
    requires Fresh(owner, cs, size) && b !in LooseAll(owner, cs) && 0 < b < size
    ensures Fresh(owner, cs + [b], size) && b !in cs && b !in owner
    ensures LooseAll(owner, cs + [b]) == LooseAll(owner, cs)[b := Loose]
  {
    hide LooseAll;
    LooseAllKeys(owner, cs, b);
    LooseAllSnoc(owner, cs, b);
  }

  /** Block `b` is the lowest of the numbers `all` that have no owner. */
  ghost predicate LowestOf(all: iset<nat>, owner: map<nat, Owner>, b: nat) {
    forall m :: m in all && m !in owner ==> b <= m
  }

  /** Each of the blocks was the lowest without an owner, once those before it were taken. */
  ghost predicate Lowest(all: iset<nat>, owner: map<nat, Owner>, cs: seq<nat>) {
    forall i, m :: 0 <= i < |cs| && m in all && m !in owner && m !in cs[..i] ==> cs[i] <= m
  }

  lemma LowestStep(all: iset<nat>, owner: map<nat, Owner>, cs: seq<nat>, b: nat)
    requires Lowest(all, owner, cs) && LowestOf(all, LooseAll(owner, cs), b)
    ensures Lowest(all, owner, cs + [b])
  {
    forall i, m | 0 <= i <= |cs| && m in all && m !in owner && m !in (cs + [b])[..i] ensures (cs + [b])[i] <= m {
      assert (cs + [b])[..i] == cs[..i];
      if i == |cs| {
        LooseAllKeys(owner, cs, m);
      }
    }
  }

  /** Blocks have been taken from the lowest number on, each before the blocks that hang from it. */
  ghost predicate TakenInOrder(all: iset<nat>, owner: map<nat, Owner>, owner': map<nat, Owner>) {
    forall b, m | b in owner' && b !in owner && m in all && m !in owner :: LeftBy(owner', m, owner'[b]) ==> b < m
  }

  /** Block `m` is left without an owner, or hangs below what the owner `above` says. */
  ghost predicate LeftBy(owner': map<nat, Owner>, m: nat, above: Owner) {
    m in owner' ==> Below(owner'[m], above)
  }

  ghost predicate Below(o: Owner, above: Owner) {
    o.Of? && above.Of? && Height(o.slot) < Height(above.slot)
  }

  lemma TakenAsHung(all: iset<nat>, p: nat, n: nat, owner: map<nat, Owner>, i: nat, cs: seq<nat>, size: nat)
    requires p > 0 && n < MaxBlocks(p) && |cs| == |NewSlots(p, n)| && Fresh(owner, cs, size)
    requires Lowest(all, owner, cs)
    ensures TakenInOrder(all, owner, HangOwner(LooseAll(owner, cs), i, NewSlots(p, n), cs))
  {
    hide LooseAll, HangOwner, NewSlots, MaxBlocks, Height, Lowest, Fresh;
    var slots, loose := NewSlots(p, n), LooseAll(owner, cs);
    var owner' := HangOwner(loose, i, slots, cs);
    FreshApart(owner, cs, size);
    HangOwnerIs(loose, i, slots, cs);
    HeightsFall(p, n);
    forall b, m | b in owner' && b !in owner && m in all && m !in owner && LeftBy(owner', m, owner'[b]) ensures b < m {
      LooseAllKeys(owner, cs, b);
      LooseAllKeys(owner, cs, m);
      var j :| 0 <= j < |cs| && cs[j] == b;
      LowestAt(all, owner, cs, j, m);
    }
  }

  lemma FreshApart(owner: map<nat, Owner>, cs: seq<nat>, size: nat)
    requires Fresh(owner, cs, size)
    ensures forall j, l :: 0 <= j < l < |cs| ==> cs[j] != cs[l]
  {
  }

  lemma LowestAt(all: iset<nat>, owner: map<nat, Owner>, cs: seq<nat>, j: nat, m: nat)
    requires Lowest(all, owner, cs) && j < |cs| && m in all && m !in owner
    requires forall l :: 0 <= l < j ==> cs[l] != m
    ensures cs[j] <= m
  {
  }

  lemma HeightsFall(p: nat, n: nat)
    requires p > 0
    ensures forall l, j :: 0 <= l < j < |NewSlots(p, n)| ==> Height(NewSlots(p, n)[l]) > Height(NewSlots(p, n)[j])
  {
    ChainFalls(DataSlot(p, n));
  }

  lemma {:induction false} ChainFalls(s: Slot)
    ensures forall l, j :: 0 <= l < j < |Chain(s)| ==> Height(Chain(s)[l]) > Height(Chain(s)[j])
    ensures Chain(s)[|Chain(s)| - 1] == s
  {
    if s.Sub? && s.pos == 0 {
      ChainFalls(s.parent);
    }
  }

  lemma Fresh1(all: iset<nat>, owner: map<nat, Owner>, size: nat, a: nat)
    requires a !in owner && 0 < a < size && LowestOf(all, owner, a)
    ensures Fresh(owner, [a], size) && LooseAll(owner, [a]) == owner[a := Loose] && Lowest(all, owner, [a])
  {
    FreshNone(owner, size);
    FreshStep(owner, [], size, a);
    LowestStep(all, owner, [], a);
    assert [] + [a] == [a];
  }

  lemma Fresh2(all: iset<nat>, owner: map<nat, Owner>, size: nat, a: nat, b: nat)
    requires a !in owner && 0 < a < size && b !in owner[a := Loose] && 0 < b < size
    requires LowestOf(all, owner, a) && LowestOf(all, owner[a := Loose], b)
    ensures Fresh(owner, [a, b], size) && LooseAll(owner, [a, b]) == owner[a := Loose][b := Loose]
    ensures Lowest(all, owner, [a, b])
  {
    hide LowestOf, Lowest;
    Fresh1(all, owner, size, a);
    FreshStep(owner, [a], size, b);
    LowestStep(all, owner, [a], b);
    assert [a] + [b] == [a, b];
  }

  lemma Fresh3(all: iset<nat>, owner: map<nat, Owner>, size: nat, a: nat, b: nat, c: nat)
    requires a !in owner && 0 < a < size && b !in owner[a := Loose] && 0 < b < size
    requires c !in owner[a := Loose][b := Loose] && 0 < c < size
    requires LowestOf(all, owner, a) && LowestOf(all, owner[a := Loose], b)
    requires LowestOf(all, owner[a := Loose][b := Loose], c)
    ensures Fresh(owner, [a, b, c], size) && LooseAll(owner, [a, b, c]) == owner[a := Loose][b := Loose][c := Loose]
    ensures Lowest(all, owner, [a, b, c])
  {
    hide LowestOf, Lowest;
    Fresh2(all, owner, size, a, b);
    FreshStep(owner, [a, b], size, c);
    LowestStep(all, owner, [a, b], c);
    assert [a, b] + [c] == [a, b, c];
  }

  lemma Fresh4(all: iset<nat>, owner: map<nat, Owner>, size: nat, a: nat, b: nat, c: nat, d: nat)
    requires a !in owner && 0 < a < size && b !in owner[a := Loose] && 0 < b < size
    requires c !in owner[a := Loose][b := Loose] && 0 < c < size
    requires d !in owner[a := Loose][b := Loose][c := Loose] && 0 < d < size
    requires LowestOf(all, owner, a) && LowestOf(all, owner[a := Loose], b)
    requires LowestOf(all, owner[a := Loose][b := Loose], c)
    requires LowestOf(all, owner[a := Loose][b := Loose][c := Loose], d)
    ensures Fresh(owner, [a, b, c, d], size)
    ensures LooseAll(owner, [a, b, c, d]) == owner[a := Loose][b := Loose][c := Loose][d := Loose]
    ensures Lowest(all, owner, [a, b, c, d])
  {
    hide LowestOf, Lowest;
    Fresh3(all, owner, size, a, b, c);
    FreshStep(owner, [a, b, c], size, d);
    LowestStep(all, owner, [a, b, c], d);
    assert [a, b, c] + [d] == [a, b, c, d];
  }

  /** Taking fresh blocks and overwriting them disturbs no file. */
  lemma {:induction false} LooseAllKeeps(p: nat, w: Words, w': Words,
                                         files: map<nat, File>, owner: map<nat, Owner>, cs: seq<nat>)
    requires Good(p, w, files, owner) && Fresh(owner, cs, |w|)
    requires |w'| == |w| && forall b :: 0 <= b < |w| ==> |w'[b]| == p && (b !in cs ==> w'[b] == w[b])
    ensures Good(p, w', files, LooseAll(owner, cs))
    ensures forall b :: b in owner && b !in cs ==> b in LooseAll(owner, cs) && LooseAll(owner, cs)[b] == owner[b]
    ensures forall b :: b in LooseAll(owner, cs) ==> b in owner || b in cs
    ensures forall b :: b in cs ==> b in LooseAll(owner, cs) && LooseAll(owner, cs)[b] == Loose
    decreases |cs|
  {
    if cs == [] {
      assert w' == w;
    } else {
      var c := cs[0];
      var w1 := w[c := w'[c]];
      TakeLoose(p, w, files, owner, c);
      Scribble(p, w, w1, files, owner[c := Loose], c);
      hide Good;
      LooseAllKeeps(p, w1, w', files, owner[c := Loose], cs[1..]);
    }
  }

  lemma {:induction false} HangOwnerIs(owner: map<nat, Owner>, i: nat, slots: seq<Slot>, cs: seq<nat>)
    requires |slots| == |cs| && forall j, l :: 0 <= j < l < |cs| ==> cs[j] != cs[l]
    ensures forall j :: 0 <= j < |cs| ==>
            cs[j] in HangOwner(owner, i, slots, cs) && HangOwner(owner, i, slots, cs)[cs[j]] == Of(i, slots[j])
    ensures forall b :: b in owner && b !in cs ==>
            b in HangOwner(owner, i, slots, cs) && HangOwner(owner, i, slots, cs)[b] == owner[b]
    ensures HangOwner(owner, i, slots, cs).Keys == owner.Keys + (set b | b in cs)
    decreases |cs|
  {
    if cs != [] {
      var owner1 := owner[cs[0] := Of(i, slots[0])];
      HangOwnerIs(owner1, i, slots[1..], cs[1..]);
      var r := HangOwner(owner, i, slots, cs);
      assert cs[0] !in cs[1..];
      forall j | 0 <= j < |cs| ensures cs[j] in r && r[cs[j]] == Of(i, slots[j]) {
        if j > 0 { assert cs[j] == cs[1..][j - 1]; }
      }
      assert forall b :: b in cs <==> b == cs[0] || b in cs[1..];
    }
  }

  lemma {:induction false} HangLiveIs(live: iset<Slot>, slots: seq<Slot>, s: Slot)
    ensures s in HangLive(live, slots) <==> s in live || s in slots
  {
    if slots != [] {
      HangLiveIs(live + iset{slots[0]}, slots[1..], s);
    }
  }

  lemma HangableFirst(p: nat, w: Words, owner: map<nat, Owner>, f: File, slots: seq<Slot>, cs: seq<nat>)
    requires Hangable(p, w, owner, f, slots, cs) && slots != []
    ensures |cs| == |slots| && WellFormed(p, slots[0]) && (slots[0].Sub? ==> slots[0].parent in f.live)
    ensures Settable(p, w, owner, f, slots[0], cs[0]) && cs[0] != 0 && slots[0] !in f.live
    ensures forall l :: 0 < l < |cs| ==> cs[0] != cs[l]
  {
  }

  /** Setting the pointer at a slot writes a pointer block, if anything. */
  lemma SetWordsFrame(p: nat, w: Words, files: map<nat, File>, owner: map<nat, Owner>, i: nat, s: Slot, v: nat, b: nat)
    requires Good(p, w, files, owner) && i in files && WellFormed(p, s) && (s.Sub? ==> s.parent in files[i].live)
    requires b < |w| && !IsPointerBlock(owner, b)
    ensures var w' := SetWords(files[i].ip, w, s, v); |w'| == |w| && w'[b] == w[b]
  {
    assert Placed(p, w, owner, i, files[i]);
    if s.Sub? {
      assert Owns(w, owner, files[i].ip, i, s.parent);
      assert Height(s.parent) >= 1;
    }
  }

  /** Linking a chain writes the new blocks and the pointer block that the chain hangs from, only. */
  lemma {:induction false} HangWordsFrame(p: nat, w: Words, files: map<nat, File>, owner: map<nat, Owner>, i: nat,
                                          slots: seq<Slot>, cs: seq<nat>, b: nat)
    requires Good(p, w, files, owner) && i in files
    requires Hangable(p, w, owner, files[i], slots, cs)
    requires b < |w| && !IsPointerBlock(owner, b) && (b in cs ==> b == cs[|cs| - 1])
    ensures var w' := HangWords(files[i].ip, w, slots, cs); |w'| == |w| && w'[b] == w[b]
    decreases |slots|
  {
    hide Good, Settable, SetWords, SetTop, WellFormed;
    if slots != [] {
      var s, c, f := slots[0], cs[0], files[i];
      var f' := File(SetTop(f.ip, s, c), f.live + iset{s});
      var w', files', owner' := SetWords(f.ip, w, s, c), files[i := f'], owner[c := Of(i, s)];
      HangableFirst(p, w, owner, f, slots, cs);
      SetWordsFrame(p, w, files, owner, i, s, c, b);
      if |slots| == 1 {
        assert HangWords(f'.ip, w', slots[1..], cs[1..]) == w';
      } else {
        HangableRest(p, w, files, owner, i, slots, cs);
        Attach(p, w, files, owner, i, s, c);
        hide Hangable;
        assert cs[1..][|cs| - 2] == cs[|cs| - 1] && b != c;
        HangWordsFrame(p, w', files', owner', i, slots[1..], cs[1..], b);
      }
    }
  }

  /** Blocks were added to files: no owned block changed hands and only pointer blocks were written. */
  ghost predicate GrownWords(owner: map<nat, Owner>, w: Words, owner': map<nat, Owner>, w': Words) {
    && |w'| == |w| && Within(owner, owner') && Settled(owner')
    && (forall b :: b in owner' && b !in owner ==> owner'[b] != Meta)
    && (forall b :: 0 <= b < |w| && !IsPointerBlock(owner', b) ==> w'[b] == w[b])
  }

  function ZeroRow(p: nat): (row: seq<nat>)
    ensures |row| == p && Zeroed(row)
  {
    seq(p, _ => 0)
  }

  /** The words after the blocks `zs` are filled with zeros. */
  function ZeroAll(p: nat, w: Words, zs: seq<nat>): Words
    decreases |zs|
  {
    if zs == [] then w else ZeroAll(p, if zs[0] < |w| then w[zs[0] := ZeroRow(p)] else w, zs[1..])
  }

  lemma {:induction false} ZeroAllIs(p: nat, w: Words, zs: seq<nat>)
    requires forall b :: 0 <= b < |w| ==> |w[b]| == p
    ensures var wz := ZeroAll(p, w, zs);
            && |wz| == |w|
            && (forall b :: 0 <= b < |w| ==> |wz[b]| == p)
            && (forall b :: 0 <= b < |w| && b !in zs ==> wz[b] == w[b])
            && (forall b :: b in zs && b < |w| ==> Zeroed(wz[b]))
    decreases |zs|
  {
    if zs != [] {
      var w' := if zs[0] < |w| then w[zs[0] := ZeroRow(p)] else w;
      ZeroAllIs(p, w', zs[1..]);
    }
  }

  /** What every branch of `Inode_asignarBloque` rests on: one fresh block in `cs` for each slot that
      is new with block `n`; all but the last, the data block, are zeroed, and then they are linked. */
  ghost predicate Extends(p: nat, n: nat, w: Words, owner: map<nat, Owner>, f: File, cs: seq<nat>) {
    && p > 0 && n < MaxBlocks(p) && f.live == LiveSlots(p, n)
    && |cs| == |NewSlots(p, n)| && Fresh(owner, cs, |w|)
  }

  function Cleared(p: nat, w: Words, cs: seq<nat>): Words
    requires |cs| > 0
  {
    ZeroAll(p, w, cs[..|cs| - 1])
  }

  lemma ClearedIs(p: nat, w: Words, owner: map<nat, Owner>, cs: seq<nat>)
    requires |cs| > 0 && Fresh(owner, cs, |w|)
    requires forall b :: 0 <= b < |w| ==> |w[b]| == p
    ensures var wz := Cleared(p, w, cs);
            && |wz| == |w| && (forall b :: 0 <= b < |w| ==> |wz[b]| == p && (b !in cs ==> wz[b] == w[b]))
            && wz[cs[|cs| - 1]] == w[cs[|cs| - 1]]
            && (forall j :: 0 <= j < |cs| - 1 ==> Zeroed(wz[cs[j]]))
  {
    hide ZeroAll, Zeroed;
    var zs := cs[..|cs| - 1];
    ZeroAllIs(p, w, zs);
    assert cs[|cs| - 1] !in zs;
    forall j | 0 <= j < |cs| - 1 ensures cs[j] in zs {
      assert zs[j] == cs[j];
    }
  }

  lemma {:induction false} ChainDescends(s: Slot)
    ensures |Chain(s)| > 0 && Chain(s)[|Chain(s)| - 1] == s && Descends(Chain(s))
    decreases s
  {
    if s.Sub? && s.pos == 0 {
      ChainDescends(s.parent);
    }
  }

  lemma NewSlotUnused(p: nat, n: nat, s: Slot)
    requires p > 0 && n < MaxBlocks(p) && s in NewSlots(p, n)
    ensures WellFormed(p, s) && s !in LiveSlots(p, n)
    ensures forall k :: 0 <= k < p ==> Sub(s, k) !in LiveSlots(p, n)
    ensures s.Sub? ==> s.parent in LiveSlots(p, n) || s.parent in NewSlots(p, n)
  {
    DataSlotSound(p, n);
    ChainStarts(p, DataSlot(p, n), s);
    forall k | 0 <= k < p ensures Sub(s, k) !in LiveSlots(p, n) {
      if Sub(s, k) in LiveSlots(p, n) {
        LiveClosed(p, n, Sub(s, k));
      }
    }
    if s.Sub? {
      FirstOfChild(p, s);
      if s.pos == 0 {
        ChainClosed(DataSlot(p, n), s);
      }
    }
  }

  lemma ExtendsSlots(p: nat, n: nat, live: iset<Slot>)
    requires p > 0 && n < MaxBlocks(p) && live == LiveSlots(p, n)
    ensures var slots := NewSlots(p, n);
            && |slots| > 0 && Descends(slots)
            && (slots[0].Sub? ==> slots[0].parent in live)
            && (forall j :: 0 <= j < |slots| ==> WellFormed(p, slots[j]) && slots[j] !in live)
            && (forall j, k :: 0 <= j < |slots| && 0 <= k < p ==> Sub(slots[j], k) !in live)
            && (forall j :: 0 <= j < |slots| && Height(slots[j]) >= 1 ==> j < |slots| - 1)
  {
    var slots := NewSlots(p, n);
    ChainDescends(DataSlot(p, n));
    hide LiveSlots, NewSlots, MaxBlocks, WellFormed;
    DataSlotSound(p, n);
    forall j | 0 <= j < |slots|
      ensures WellFormed(p, slots[j]) && slots[j] !in live
      ensures forall k :: 0 <= k < p ==> Sub(slots[j], k) !in live
    {
      assert slots[j] in slots;
      NewSlotUnused(p, n, slots[j]);
    }
    assert slots[0] in slots;
    NewSlotUnused(p, n, slots[0]);
    if slots[0].Sub? {
      ParentNotBelow(slots);
    }
  }

  lemma ExtendsHangable(p: nat, n: nat, w: Words, owner: map<nat, Owner>, files: map<nat, File>, i: nat, cs: seq<nat>)
    requires Good(p, w, files, owner) && i in files && Extends(p, n, w, owner, files[i], cs)
    ensures |cs| > 0 && Hangable(p, Cleared(p, w, cs), LooseAll(owner, cs), files[i], NewSlots(p, n), cs)
    ensures Good(p, Cleared(p, w, cs), files, LooseAll(owner, cs))
  {
    hide Good, LooseAll, LiveSlots, NewSlots, MaxBlocks, WellFormed, Height, Descends, Cleared, Zeroed;
    RowsHaveLength(p, w, files, owner);
    ExtendsSlots(p, n, files[i].live);
    ClearedIs(p, w, owner, cs);
    LooseAllKeeps(p, w, Cleared(p, w, cs), files, owner, cs);
    assert forall j :: 0 <= j < |cs| ==> cs[j] in cs;
  }

  lemma RowsHaveLength(p: nat, w: Words, files: map<nat, File>, owner: map<nat, Owner>)
    requires Good(p, w, files, owner)
    ensures forall b :: 0 <= b < |w| ==> |w[b]| == p
  {
  }

  lemma ParentNotBelow(slots: seq<Slot>)
    requires |slots| > 0 && Descends(slots) && slots[0].Sub?
    ensures slots[0].parent !in slots
  {
    forall j | 0 <= j < |slots| ensures slots[j] != slots[0].parent {
      HeightDown(slots, j);
    }
  }

  /** Assigning block `n`: the file has one block more, every other pointer of every file is as it
      was, and no block that anyone owned is lost. */
  lemma ExtendKeeps(p: nat, n: nat, w: Words, owner: map<nat, Owner>, files: map<nat, File>, i: nat, cs: seq<nat>)
    requires Good(p, w, files, owner) && Settled(owner) && i in files
    requires Extends(p, n, w, owner, files[i], cs) && |cs| > 0
    ensures var slots := NewSlots(p, n);
            var w' := HangWords(files[i].ip, Cleared(p, w, cs), slots, cs);
            var owner' := HangOwner(LooseAll(owner, cs), i, slots, cs);
            && Good(p, w', files[i := File(HangTop(files[i].ip, slots, cs), LiveSlots(p, n + 1))], owner')
            && GrownWords(owner, w, owner', w')
            && owner'.Keys == LooseAll(owner, cs).Keys
  {
    hide Good, Settled, GrownWords, Cleared, LooseAll, NewSlots, HangWords, HangTop, HangLive, HangOwner, LiveSlots,
         MaxBlocks, Fresh;
    var slots, wz, loose := NewSlots(p, n), Cleared(p, w, cs), LooseAll(owner, cs);
    ExtendsHangable(p, n, w, owner, files, i, cs);
    Hang(p, wz, files, loose, i, slots, cs);
    HangOwnerIs(loose, i, slots, cs);
    LiveGrows(p, n);
    forall s ensures s in HangLive(files[i].live, slots) <==> s in LiveSlots(p, n + 1) {
      HangLiveIs(files[i].live, slots, s);
    }
    assert HangLive(files[i].live, slots) == LiveSlots(p, n + 1);
    ExtendGrows(p, n, w, owner, files, i, cs);
  }

  lemma ExtendGrows(p: nat, n: nat, w: Words, owner: map<nat, Owner>, files: map<nat, File>, i: nat, cs: seq<nat>)
    requires Good(p, w, files, owner) && Settled(owner) && i in files
    requires Extends(p, n, w, owner, files[i], cs) && |cs| > 0
    ensures GrownWords(owner, w, HangOwner(LooseAll(owner, cs), i, NewSlots(p, n), cs),
                       HangWords(files[i].ip, Cleared(p, w, cs), NewSlots(p, n), cs))
  {
    var wz := Cleared(p, w, cs);
    ClearedIs(p, w, owner, cs);
    hide Good, Hangable, HangOwner, LooseAll, HangWords, Settled, NewSlots, Cleared, LiveSlots, MaxBlocks;
    var slots, loose := NewSlots(p, n), LooseAll(owner, cs);
    var w' := HangWords(files[i].ip, wz, slots, cs);
    ExtendsHangable(p, n, w, owner, files, i, cs);
    LooseAllKeeps(p, w, wz, files, owner, cs);
    HangWordsLength(files[i].ip, wz, slots, cs);
    HangOwnerIs(loose, i, slots, cs);
    ChainAbove(p, n);
    var owner' := HangOwner(loose, i, slots, cs);
    forall b | 0 <= b < |w| && !IsPointerBlock(owner', b) ensures w'[b] == w[b] {
      LastIsData(p, loose, owner', i, slots, cs, b);
      HangWordsFrame(p, wz, files, loose, i, slots, cs, b);
    }
    ExtendOwner(p, w, wz, files, owner, i, slots, cs);
  }

  /** Of the slots that are new with block `n`, all but the last have others below them. */
  lemma ChainAbove(p: nat, n: nat)
    requires p > 0 && n < MaxBlocks(p)
    ensures forall j :: 0 <= j < |NewSlots(p, n)| - 1 ==> Height(NewSlots(p, n)[j]) >= 1
  {
    hide MaxBlocks, WellFormed, Height, DataSlot;
    var slots := NewSlots(p, n);
    ExtendsSlots(p, n, LiveSlots(p, n));
    forall j | 0 <= j < |slots| - 1 ensures Height(slots[j]) >= 1 {
      ParentHeight(p, slots[j + 1]);
    }
  }

  lemma ParentHeight(p: nat, s: Slot)
    requires WellFormed(p, s) && s.Sub?
    ensures Height(s.parent) >= 1
  {
  }

  /** Of the new blocks only the last, the data block, does not hold pointers. */
  lemma LastIsData(p: nat, loose: map<nat, Owner>, owner': map<nat, Owner>, i: nat,
                   slots: seq<Slot>, cs: seq<nat>, b: nat)
    requires |slots| == |cs| > 0 && !IsPointerBlock(owner', b)
    requires forall j :: 0 <= j < |slots| - 1 ==> Height(slots[j]) >= 1
    requires forall j :: 0 <= j < |cs| ==> cs[j] in owner' && owner'[cs[j]] == Of(i, slots[j])
    requires forall c :: c in loose && c !in cs ==> c in owner' && owner'[c] == loose[c]
    requires forall c :: c in cs ==> c in loose && loose[c] == Loose
    ensures !IsPointerBlock(loose, b) && (b in cs ==> b == cs[|cs| - 1])
  {
    hide Height;
  }

  lemma ExtendOwner(p: nat, w: Words, wz: Words, files: map<nat, File>, owner: map<nat, Owner>, i: nat,
                    slots: seq<Slot>, cs: seq<nat>)
    requires Good(p, w, files, owner) && Settled(owner) && Fresh(owner, cs, |w|) && |slots| == |cs|
    requires |wz| == |w| && forall b :: 0 <= b < |w| ==> |wz[b]| == p && (b !in cs ==> wz[b] == w[b])
    ensures var owner' := HangOwner(LooseAll(owner, cs), i, slots, cs);
            Within(owner, owner') && Settled(owner') && forall b :: b in owner' && b !in owner ==> owner'[b] != Meta
  {
    hide Good, HangOwner, LooseAll;
    var loose := LooseAll(owner, cs);
    var owner' := HangOwner(loose, i, slots, cs);
    LooseAllKeeps(p, w, wz, files, owner, cs);
    HangOwnerIs(loose, i, slots, cs);
    forall b | b in owner' ensures owner'[b] != Loose && (b !in owner ==> owner'[b] != Meta) {
      if b in cs {
        var j :| 0 <= j < |cs| && cs[j] == b;
      } else {
        assert b in loose && b in owner;
      }
    }
  }

  lemma {:induction false} HangWordsLength(ip: seq<nat>, w: Words, slots: seq<Slot>, cs: seq<nat>)
    requires |slots| == |cs|
    ensures |HangWords(ip, w, slots, cs)| == |w|
    decreases |slots|
  {
    if slots != [] {
      HangWordsLength(SetTop(ip, slots[0], cs[0]), SetWords(ip, w, slots[0], cs[0]), slots[1..], cs[1..]);
    }
  }

  /** The words after `cs[0]` is stored in block `b`, `cs[1]` in block `cs[0]`, and so on, each at the
      position its slot has in the slot above. */
  function StoreWords(w: Words, b: nat, slots: seq<Slot>, cs: seq<nat>): Words
    requires |slots| == |cs|
    decreases |slots|
  {
    if slots == [] then w
    else
      var k := if slots[0].Sub? then slots[0].pos else 0;
      var w' := if b < |w| && k < |w[b]| then PutWord(w, b, k, cs[0]) else w;
      StoreWords(w', cs[0], slots[1..], cs[1..])
  }

  lemma {:induction false} HangUnder(p: nat, w: Words, files: map<nat, File>, owner: map<nat, Owner>, i: nat,
                                     b: nat, slots: seq<Slot>, cs: seq<nat>)
    requires Good(p, w, files, owner) && i in files && Hangable(p, w, owner, files[i], slots, cs)
    requires |slots| > 0 && slots[0].Sub? && b in owner && owner[b] == Of(i, slots[0].parent)
    ensures HangWords(files[i].ip, w, slots, cs) == StoreWords(w, b, slots, cs)
    ensures HangTop(files[i].ip, slots, cs) == files[i].ip
    decreases |slots|
  {
    var s, c, f := slots[0], cs[0], files[i];
    var f' := File(SetTop(f.ip, s, c), f.live + iset{s});
    assert Reached(w, files, owner[b], b);
    HangableRest(p, w, files, owner, i, slots, cs);
    Attach(p, w, files, owner, i, s, c);
    assert SetWords(f.ip, w, s, c) == if b < |w| && s.pos < |w[b]| then PutWord(w, b, s.pos, c) else w;
    hide Good, Hangable;
    if |slots| > 1 {
      assert slots[1..][0].parent == s;
      HangUnder(p, SetWords(f.ip, w, s, c), files[i := f'], owner[c := Of(i, s)], i, c, slots[1..], cs[1..]);
    }
  }

  predicate Fits(w: Words, b: nat, s: Slot) {
    s.Sub? && b < |w| && s.pos < |w[b]|
  }

  lemma Store1(w: Words, b: nat, s: Slot, c: nat)
    requires Fits(w, b, s)
    ensures StoreWords(w, b, [s], [c]) == PutWord(w, b, s.pos, c)
  {
    assert StoreWords(PutWord(w, b, s.pos, c), c, [], []) == PutWord(w, b, s.pos, c);
  }

  lemma Store2(w: Words, b: nat, s: Slot, c: nat, t: Slot, d: nat)
    requires Fits(w, b, s) && Fits(PutWord(w, b, s.pos, c), c, t)
    ensures StoreWords(w, b, [s, t], [c, d]) == PutWord(PutWord(w, b, s.pos, c), c, t.pos, d)
  {
    Store1(PutWord(w, b, s.pos, c), c, t, d);
    assert [s, t][1..] == [t] && [c, d][1..] == [d];
  }

  lemma Store3(w: Words, b: nat, s: Slot, c: nat, t: Slot, d: nat, u: Slot, e: nat)
    requires Fits(w, b, s) && Fits(PutWord(w, b, s.pos, c), c, t)
    requires Fits(PutWord(PutWord(w, b, s.pos, c), c, t.pos, d), d, u)
    ensures StoreWords(w, b, [s, t, u], [c, d, e]) ==
            PutWord(PutWord(PutWord(w, b, s.pos, c), c, t.pos, d), d, u.pos, e)
  {
    Store2(PutWord(w, b, s.pos, c), c, t, d, u, e);
    assert [s, t, u][1..] == [t, u] && [c, d, e][1..] == [d, e];
  }

  function ZeroOne(p: nat, w: Words, b: nat): Words
    requires b < |w|
  {
    w[b := ZeroRow(p)]
  }

  lemma ZeroAllStep(p: nat, w: Words, z: nat, zs: seq<nat>)
    requires z < |w|
    ensures ZeroAll(p, w, [z] + zs) == ZeroAll(p, ZeroOne(p, w, z), zs)
  {
    assert ([z] + zs)[1..] == zs;
  }

  lemma Cleared1(p: nat, w: Words, a: nat)
    ensures Cleared(p, w, [a]) == w
  {
    assert [a][..0] == [];
  }

  lemma Cleared2(p: nat, w: Words, a: nat, b: nat)
    requires a < |w|
    ensures Cleared(p, w, [a, b]) == ZeroOne(p, w, a)
  {
    assert [a, b][..1] == [a] + [];
    ZeroAllStep(p, w, a, []);
  }

  lemma Cleared3(p: nat, w: Words, a: nat, b: nat, c: nat)
    requires a < |w| && b < |w|
    ensures Cleared(p, w, [a, b, c]) == ZeroOne(p, ZeroOne(p, w, a), b)
  {
    assert [a, b, c][..2] == [a] + ([b] + []);
    ZeroAllStep(p, w, a, [b] + []);
    ZeroAllStep(p, ZeroOne(p, w, a), b, []);
  }

  lemma Cleared4(p: nat, w: Words, a: nat, b: nat, c: nat, d: nat)
    requires a < |w| && b < |w| && c < |w|
    ensures Cleared(p, w, [a, b, c, d]) == ZeroOne(p, ZeroOne(p, ZeroOne(p, w, a), b), c)
  {
    assert [a, b, c, d][..3] == [a] + ([b] + ([c] + []));
    ZeroAllStep(p, w, a, [b] + ([c] + []));
    ZeroAllStep(p, ZeroOne(p, w, a), b, [c] + []);
    ZeroAllStep(p, ZeroOne(p, ZeroOne(p, w, a), b), c, []);
  }

  /** The words that each branch leaves, by how many blocks are new and what they hang from. */
  lemma UnderWords1(p: nat, w: Words, b: nat, s: Slot, c: nat)
    requires Fits(w, b, s)
    ensures StoreWords(Cleared(p, w, [c]), b, [s], [c]) == PutWord(w, b, s.pos, c)
  {
    Cleared1(p, w, c);
    Store1(w, b, s, c);
  }

  lemma UnderWords2(p: nat, w: Words, b: nat, s: Slot, c: nat, t: Slot, d: nat)
    requires c < |w| && b < |w| && |w[b]| == p && b != c && s.Sub? && s.pos < p && t.Sub? && t.pos < p
    ensures StoreWords(Cleared(p, w, [c, d]), b, [s, t], [c, d]) ==
            PutWord(PutWord(ZeroOne(p, w, c), b, s.pos, c), c, t.pos, d)
  {
    Cleared2(p, w, c, d);
    Store2(ZeroOne(p, w, c), b, s, c, t, d);
  }

  lemma UnderWords3(p: nat, w: Words, b: nat, s: Slot, c: nat, t: Slot, d: nat, u: Slot, e: nat)
    requires c < |w| && d < |w| && b < |w| && |w[b]| == p && b != c && b != d && c != d
    requires s.Sub? && s.pos < p && t.Sub? && t.pos < p && u.Sub? && u.pos < p
    ensures StoreWords(Cleared(p, w, [c, d, e]), b, [s, t, u], [c, d, e]) ==
            PutWord(PutWord(PutWord(ZeroOne(p, ZeroOne(p, w, c), d), b, s.pos, c), c, t.pos, d), d, u.pos, e)
  {
    Cleared3(p, w, c, d, e);
    Store3(ZeroOne(p, ZeroOne(p, w, c), d), b, s, c, t, d, u, e);
  }

  lemma RootWords1(p: nat, w: Words, r: Slot, a: nat)
    ensures StoreWords(Cleared(p, w, [a]), a, [r][1..], [a][1..]) == w
  {
    Cleared1(p, w, a);
  }

  lemma RootWords2(p: nat, w: Words, r: Slot, a: nat, s: Slot, c: nat)
    requires a < |w| && s.Sub? && s.pos < p
    ensures StoreWords(Cleared(p, w, [a, c]), a, [r, s][1..], [a, c][1..]) == PutWord(ZeroOne(p, w, a), a, s.pos, c)
  {
    Cleared2(p, w, a, c);
    assert [r, s][1..] == [s] && [a, c][1..] == [c];
    Store1(ZeroOne(p, w, a), a, s, c);
  }

  lemma RootWords3(p: nat, w: Words, r: Slot, a: nat, s: Slot, c: nat, t: Slot, d: nat)
    requires a < |w| && c < |w| && a != c && s.Sub? && s.pos < p && t.Sub? && t.pos < p
    ensures StoreWords(Cleared(p, w, [a, c, d]), a, [r, s, t][1..], [a, c, d][1..]) ==
            PutWord(PutWord(ZeroOne(p, ZeroOne(p, w, a), c), a, s.pos, c), c, t.pos, d)
  {
    Cleared3(p, w, a, c, d);
    assert [r, s, t][1..] == [s, t] && [a, c, d][1..] == [c, d];
    Store2(ZeroOne(p, ZeroOne(p, w, a), c), a, s, c, t, d);
  }

  lemma RootWords4(p: nat, w: Words, r: Slot, a: nat, s: Slot, c: nat, t: Slot, d: nat, u: Slot, e: nat)
    requires a < |w| && c < |w| && d < |w| && a != c && a != d && c != d
    requires s.Sub? && s.pos < p && t.Sub? && t.pos < p && u.Sub? && u.pos < p
    ensures StoreWords(Cleared(p, w, [a, c, d, e]), a, [r, s, t, u][1..], [a, c, d, e][1..]) ==
            PutWord(PutWord(PutWord(ZeroOne(p, ZeroOne(p, ZeroOne(p, w, a), c), d), a, s.pos, c), c, t.pos, d),
                    d, u.pos, e)
  {
    Cleared4(p, w, a, c, d, e);
    assert [r, s, t, u][1..] == [s, t, u] && [a, c, d, e][1..] == [c, d, e];
    Store3(ZeroOne(p, ZeroOne(p, ZeroOne(p, w, a), c), d), a, s, c, t, d, u, e);
  }

  /** Linking below an existing pointer block `b`. */
  lemma ExtendUnder(p: nat, n: nat, w: Words, owner: map<nat, Owner>,
                    files: map<nat, File>, i: nat, b: nat, cs: seq<nat>)
    requires Good(p, w, files, owner) && Settled(owner) && i in files
    requires Extends(p, n, w, owner, files[i], cs) && |cs| > 0
    requires NewSlots(p, n)[0].Sub? && b in owner && owner[b] == Of(i, NewSlots(p, n)[0].parent)
    ensures var slots := NewSlots(p, n);
            var w' := StoreWords(Cleared(p, w, cs), b, slots, cs);
            var owner' := HangOwner(LooseAll(owner, cs), i, slots, cs);
            && Good(p, w', files[i := File(files[i].ip, LiveSlots(p, n + 1))], owner')
            && GrownWords(owner, w, owner', w') && owner'.Keys == LooseAll(owner, cs).Keys
  {
    ClearedIs(p, w, owner, cs);
    hide Good, LiveSlots, NewSlots, GrownWords, HangOwner, LooseAll, Cleared;
    ExtendKeeps(p, n, w, owner, files, i, cs);
    LooseAllKeeps(p, w, Cleared(p, w, cs), files, owner, cs);
    ExtendsHangable(p, n, w, owner, files, i, cs);
    HangUnder(p, Cleared(p, w, cs), files, LooseAll(owner, cs), i, b, NewSlots(p, n), cs);
  }

  /** Linking a new root `cs[0]` at position `k` of the inode, and the rest below it. */
  lemma ExtendRoot(p: nat, n: nat, w: Words, owner: map<nat, Owner>,
                   files: map<nat, File>, i: nat, k: nat, cs: seq<nat>)
    requires Good(p, w, files, owner) && Settled(owner) && i in files
    requires Extends(p, n, w, owner, files[i], cs) && |cs| > 0
    requires NewSlots(p, n)[0] == Top(k)
    ensures var slots := NewSlots(p, n);
            var w' := StoreWords(Cleared(p, w, cs), cs[0], slots[1..], cs[1..]);
            var owner' := HangOwner(LooseAll(owner, cs), i, slots, cs);
            && k < |files[i].ip|
            && Good(p, w', files[i := File(files[i].ip[k := cs[0]], LiveSlots(p, n + 1))], owner')
            && GrownWords(owner, w, owner', w') && owner'.Keys == LooseAll(owner, cs).Keys
  {
    var f, c, loose, wz, slots := files[i], cs[0], LooseAll(owner, cs), Cleared(p, w, cs), NewSlots(p, n);
    assert Placed(p, w, owner, i, f);
    ExtendKeeps(p, n, w, owner, files, i, cs);
    ExtendsHangable(p, n, w, owner, files, i, cs);
    hide Good, LiveSlots, NewSlots, GrownWords, HangOwner, LooseAll, Cleared;
    Attach(p, wz, files, loose, i, Top(k), c);
    HangableRest(p, wz, files, loose, i, slots, cs);
    if |slots| > 1 {
      assert slots[1..][0].parent == Top(k);
      HangUnder(p, wz, files[i := File(f.ip[k := c], f.live + iset{Top(k)})], loose[c := Of(i, Top(k))],
                i, c, slots[1..], cs[1..]);
    }
  }

  /** The inode pointers after the pointer at `s` is cleared, and the one above it if `s` was its
      first entry, and so on up. */
  function DropTop(ip: seq<nat>, s: Slot): seq<nat>
    decreases s
  {
    var ip' := SetTop(ip, s, 0);
    if s.Sub? && s.pos == 0 then DropTop(ip', s.parent) else ip'
  }

  function DropWords(ip: seq<nat>, w: Words, s: Slot): Words
    decreases s
  {
    var w' := SetWords(ip, w, s, 0);
    if s.Sub? && s.pos == 0 then DropWords(SetTop(ip, s, 0), w', s.parent) else w'
  }

  function DropLive(live: iset<Slot>, s: Slot): iset<Slot>
    decreases s
  {
    var live' := live - iset{s};
    if s.Sub? && s.pos == 0 then DropLive(live', s.parent) else live'
  }

  /** What is still owned once the blocks `cs` are given up. */
  function Without(owner: map<nat, Owner>, cs: seq<nat>): map<nat, Owner>
    decreases |cs|
  {
    if cs == [] then owner else Without(owner - {cs[0]}, cs[1..])
  }

  /** `cs` are the blocks of file `i` at `s` and at the slots above it that `s` is the first entry of. */
  ghost predicate ChainBlocks(owner: map<nat, Owner>, i: nat, s: Slot, cs: seq<nat>)
    decreases s
  {
    && |cs| > 0 && cs[0] in owner && owner[cs[0]] == Of(i, s)
    && if s.Sub? && s.pos == 0 then ChainBlocks(owner, i, s.parent, cs[1..]) else |cs| == 1
  }

  /** Nothing in use hangs below the chain that starts at `s`, except the chain itself. */
  ghost predicate Bare(live: iset<Slot>, s: Slot)
    decreases s
  {
    && s in live && (forall k :: Sub(s, k) !in live)
    && (s.Sub? && s.pos == 0 ==> Bare(live - iset{s}, s.parent))
  }

  lemma {:induction false} ChainBlocksRest(owner: map<nat, Owner>, i: nat, s: Slot, cs: seq<nat>, c: nat, t: Slot)
    requires ChainBlocks(owner, i, s, cs)
    requires c in owner && owner[c] == Of(i, t) && Height(t) < Height(s)
    ensures ChainBlocks(owner - {c}, i, s, cs)
    decreases s
  {
    if s.Sub? && s.pos == 0 {
      ChainBlocksRest(owner, i, s.parent, cs[1..], c, t);
    }
  }

  /** Clearing the pointers of a chain, from the bottom up, and giving its blocks up keeps the invariant. */
  lemma {:induction false} Drop(p: nat, w: Words, files: map<nat, File>, owner: map<nat, Owner>, i: nat,
                                s: Slot, cs: seq<nat>)
    requires Good(p, w, files, owner) && i in files
    requires ChainBlocks(owner, i, s, cs) && Bare(files[i].live, s)
    ensures Good(p, DropWords(files[i].ip, w, s), files[i := File(DropTop(files[i].ip, s), DropLive(files[i].live, s))],
                 Without(owner, cs))
    decreases s
  {
    hide Good;
    var f := files[i];
    DropFirst(p, w, files, owner, i, s, cs[0]);
    if s.Sub? && s.pos == 0 {
      var f' := File(SetTop(f.ip, s, 0), f.live - iset{s});
      var files' := files[i := f'];
      ChainBlocksRest(owner, i, s.parent, cs[1..], cs[0], s);
      Drop(p, SetWords(f.ip, w, s, 0), files', owner - {cs[0]}, i, s.parent, cs[1..]);
      var last := File(DropTop(f.ip, s), DropLive(f.live, s));
      assert files'[i := last] == files[i := last];
    } else {
      assert Without(owner, cs) == owner - {cs[0]};
    }
  }

  lemma DropFirst(p: nat, w: Words, files: map<nat, File>, owner: map<nat, Owner>, i: nat, s: Slot, c: nat)
    requires Good(p, w, files, owner) && i in files
    requires s in files[i].live && c in owner && owner[c] == Of(i, s)
    requires forall k :: Sub(s, k) !in files[i].live
    ensures var f := files[i];
            Good(p, SetWords(f.ip, w, s, 0), files[i := File(SetTop(f.ip, s, 0), f.live - iset{s})], owner - {c})
  {
    var f := files[i];
    var f' := File(SetTop(f.ip, s, 0), f.live - iset{s});
    assert Placed(p, w, owner, i, f);
    assert Reached(w, files, owner[c], c);
    Detach(p, w, files, owner, i, s);
    hide Good;
    DropLoose(p, SetWords(f.ip, w, s, 0), files[i := f'], owner[c := Loose], c);
    assert owner[c := Loose] - {c} == owner - {c};
  }

  lemma {:induction false} DropLiveIs(live: iset<Slot>, s: Slot, t: Slot)
    ensures t in DropLive(live, s) <==> t in live && t !in Chain(s)
    decreases s
  {
    if s.Sub? && s.pos == 0 {
      DropLiveIs(live - iset{s}, s.parent, t);
    }
  }

  lemma {:induction false} WithoutIs(owner: map<nat, Owner>, cs: seq<nat>)
    ensures forall b :: b in Without(owner, cs) <==> b in owner && b !in cs
    ensures Within(Without(owner, cs), owner)
    decreases |cs|
  {
    if cs != [] {
      WithoutIs(owner - {cs[0]}, cs[1..]);
    }
  }

  lemma {:induction false} ChainBlocksOf(owner: map<nat, Owner>, i: nat, s: Slot, cs: seq<nat>, b: nat)
    requires ChainBlocks(owner, i, s, cs) && b in cs
    ensures b in owner && owner[b].Of? && owner[b].ino == i && owner[b].slot in Chain(s)
    decreases s
  {
    if b != cs[0] {
      ChainBlocksOf(owner, i, s.parent, cs[1..], b);
    }
  }

  lemma LiveFacts(p: nat, w: Words, files: map<nat, File>, owner: map<nat, Owner>, i: nat, s: Slot)
    requires Good(p, w, files, owner) && i in files && s in files[i].live
    ensures WellFormed(p, s) && (s.Sub? ==> s.parent in files[i].live)
  {
    assert Placed(p, w, owner, i, files[i]);
  }

  /** Dropping a chain writes pointer blocks only. */
  lemma {:induction false} DropWordsFrame(p: nat, w: Words, files: map<nat, File>, owner: map<nat, Owner>, i: nat,
                                          s: Slot, cs: seq<nat>, b: nat)
    requires Good(p, w, files, owner) && i in files
    requires ChainBlocks(owner, i, s, cs) && Bare(files[i].live, s)
    requires b < |w| && !IsPointerBlock(owner, b)
    ensures var w' := DropWords(files[i].ip, w, s); |w'| == |w| && w'[b] == w[b]
    decreases s
  {
    hide Good, SetWords, SetTop;
    var f := files[i];
    LiveFacts(p, w, files, owner, i, s);
    SetWordsFrame(p, w, files, owner, i, s, 0, b);
    DropFirst(p, w, files, owner, i, s, cs[0]);
    if s.Sub? && s.pos == 0 {
      var f' := File(SetTop(f.ip, s, 0), f.live - iset{s});
      ChainBlocksRest(owner, i, s.parent, cs[1..], cs[0], s);
      DropWordsFrame(p, SetWords(f.ip, w, s, 0), files[i := f'], owner - {cs[0]}, i, s.parent, cs[1..], b);
    }
  }

  /** The words of a block are as they were or have been cleared. */
  predicate Erased(row: seq<nat>, row': seq<nat>) {
    |row'| == |row| && forall k :: 0 <= k < |row| ==> row'[k] == row[k] || row'[k] == 0
  }

  lemma {:induction false} DropWordsErase(ip: seq<nat>, w: Words, s: Slot, b: nat)
    requires b < |w|
    ensures |DropWords(ip, w, s)| == |w| && Erased(w[b], DropWords(ip, w, s)[b])
    decreases s
  {
    if s.Sub? && s.pos == 0 {
      DropWordsErase(SetTop(ip, s, 0), SetWords(ip, w, s, 0), s.parent, b);
    }
  }

  /** Blocks were taken off files: what is left belongs where it did and only pointer blocks were written,
      with zeros. */
  ghost predicate ShrunkWords(owner: map<nat, Owner>, w: Words, owner': map<nat, Owner>, w': Words) {
    && |w'| == |w| && Within(owner', owner) && Settled(owner')
    && (forall b :: b in owner && b !in owner' ==> owner[b] != Meta)
    && (forall b :: 0 <= b < |w| && !IsPointerBlock(owner, b) ==> w'[b] == w[b])
    && (forall b :: 0 <= b < |w| ==> Erased(w[b], w'[b]))
  }

  lemma LaterChildUnused(p: nat, n: nat, s: Slot, k: nat)
    requires p > 0 && n < MaxBlocks(p) && s in NewSlots(p, n) && k > 0
    ensures Sub(s, k) !in LiveSlots(p, n + 1)
  {
    DataSlotSound(p, n);
    ChainStarts(p, DataSlot(p, n), s);
    if WellFormed(p, Sub(s, k)) {
      FirstOfChild(p, Sub(s, k));
    }
  }

  /** In a file of `n + 1` blocks, what starts at block `n` is a single path. */
  lemma {:induction false} NewSlotsBare(p: nat, n: nat, live: iset<Slot>, s: Slot)
    requires p > 0 && n < MaxBlocks(p) && s in NewSlots(p, n) && live <= LiveSlots(p, n + 1)
    requires forall t :: t in NewSlots(p, n) && Height(t) >= Height(s) ==> t in live
    requires Sub(s, 0) !in live
    ensures Bare(live, s)
    decreases s
  {
    hide NewSlots, LiveSlots, MaxBlocks;
    forall k: nat ensures Sub(s, k) !in live {
      if k > 0 {
        LaterChildUnused(p, n, s, k);
      }
    }
    if s.Sub? && s.pos == 0 {
      NewSlotParent(p, n, s);
      assert s == Sub(s.parent, 0) && Height(s) < Height(s.parent);
      NewSlotsBare(p, n, live - iset{s}, s.parent);
    }
  }

  lemma NewSlotParent(p: nat, n: nat, s: Slot)
    requires p > 0 && s in NewSlots(p, n) && s.Sub? && s.pos == 0
    ensures s.parent in NewSlots(p, n)
  {
    ChainClosed(DataSlot(p, n), s);
  }

  /** Releasing the last block of a file: the file has one block less, every other pointer of every
      file is as it was, and exactly the pointer blocks left empty are given up with it. */
  lemma ShrinkKeeps(p: nat, n: nat, w: Words, owner: map<nat, Owner>, files: map<nat, File>, i: nat, cs: seq<nat>)
    requires p > 0 && n < MaxBlocks(p) && i in files && files[i].live == LiveSlots(p, n + 1)
    requires Good(p, w, files, owner) && Settled(owner)
    requires ChainBlocks(owner, i, DataSlot(p, n), cs)
    ensures var s := DataSlot(p, n);
            var w', owner' := DropWords(files[i].ip, w, s), Without(owner, cs);
            && Good(p, w', files[i := File(DropTop(files[i].ip, s), LiveSlots(p, n))], owner')
            && ShrunkWords(owner, w, owner', w')
  {
    hide Good;
    var s := DataSlot(p, n);
    DataSlotSound(p, n);
    LiveGrows(p, n);
    NewSlotsBare(p, n, files[i].live, s);
    Drop(p, w, files, owner, i, s, cs);
    forall t ensures t in DropLive(files[i].live, s) <==> t in LiveSlots(p, n) {
      DropLiveIs(files[i].live, s, t);
    }
    assert DropLive(files[i].live, s) == LiveSlots(p, n);
    ShrinkOwner(owner, i, s, cs);
    hide Bare, ChainBlocks, Without, DropWords;
    DropWordsLength(files[i].ip, w, s);
    forall b | 0 <= b < |w| && !IsPointerBlock(owner, b) ensures DropWords(files[i].ip, w, s)[b] == w[b] {
      DropWordsFrame(p, w, files, owner, i, s, cs, b);
    }
    forall b | 0 <= b < |w| ensures Erased(w[b], DropWords(files[i].ip, w, s)[b]) {
      DropWordsErase(files[i].ip, w, s, b);
    }
  }

  lemma {:induction false} DropWordsLength(ip: seq<nat>, w: Words, s: Slot)
    ensures |DropWords(ip, w, s)| == |w|
    decreases s
  {
    if s.Sub? && s.pos == 0 {
      DropWordsLength(SetTop(ip, s, 0), SetWords(ip, w, s, 0), s.parent);
    }
  }

  lemma ShrinkOwner(owner: map<nat, Owner>, i: nat, s: Slot, cs: seq<nat>)
    requires ChainBlocks(owner, i, s, cs) && Settled(owner)
    ensures var owner' := Without(owner, cs);
            && Within(owner', owner) && Settled(owner')
            && forall b :: b in owner && b !in owner' ==> owner[b] != Meta
  {
    hide Without, ChainBlocks;
    WithoutIs(owner, cs);
    forall b | b in owner && b in cs ensures owner[b] != Meta {
      ChainBlocksOf(owner, i, s, cs, b);
    }
  }

  /** `bs` are the blocks of the slots above `s`, nearest first. */
  ghost predicate ParentBlocks(owner: map<nat, Owner>, i: nat, s: Slot, bs: seq<nat>)
    decreases s
  {
    s.Sub? ==>
      |bs| > 0 && bs[0] in owner && owner[bs[0]] == Of(i, s.parent) && ParentBlocks(owner, i, s.parent, bs[1..])
  }

  /** The words after the pointer at `s` is cleared in its pointer block, and so on up. */
  function ClearWords(w: Words, s: Slot, bs: seq<nat>): Words
    decreases s
  {
    if s.Top? || |bs| == 0 then w
    else
      var w' := if bs[0] < |w| && s.pos < |w[bs[0]]| then PutWord(w, bs[0], s.pos, 0) else w;
      if s.pos == 0 then ClearWords(w', s.parent, bs[1..]) else w'
  }

  lemma {:induction false} ParentBlocksRest(owner: map<nat, Owner>, i: nat, s: Slot, bs: seq<nat>, c: nat, t: Slot)
    requires ParentBlocks(owner, i, s, bs)
    requires c in owner && owner[c] == Of(i, t) && Height(t) <= Height(s)
    ensures ParentBlocks(owner - {c}, i, s, bs)
    decreases s
  {
    if s.Sub? {
      ParentBlocksRest(owner, i, s.parent, bs[1..], c, t);
    }
  }

  lemma {:induction false} DropIsClear(p: nat, w: Words, files: map<nat, File>, owner: map<nat, Owner>, i: nat,
                                       s: Slot, cs: seq<nat>, bs: seq<nat>)
    requires Good(p, w, files, owner) && i in files
    requires ChainBlocks(owner, i, s, cs) && Bare(files[i].live, s) && ParentBlocks(owner, i, s, bs)
    ensures DropWords(files[i].ip, w, s) == ClearWords(w, s, bs)
    decreases s
  {
    var f := files[i];
    if s.Sub? {
      assert Reached(w, files, owner[bs[0]], bs[0]);
      DropFirst(p, w, files, owner, i, s, cs[0]);
      hide Good;
      if s.pos == 0 {
        var f' := File(SetTop(f.ip, s, 0), f.live - iset{s});
        ChainBlocksRest(owner, i, s.parent, cs[1..], cs[0], s);
        ParentBlocksRest(owner, i, s.parent, bs[1..], cs[0], s);
        DropIsClear(p, SetWords(f.ip, w, s, 0), files[i := f'], owner - {cs[0]}, i, s.parent, cs[1..], bs[1..]);
      }
    }
  }

  /** `ShrinkKeeps` with the words written out. */
  lemma ShrinkClears(p: nat, n: nat, w: Words, owner: map<nat, Owner>,
                     files: map<nat, File>, i: nat, cs: seq<nat>, bs: seq<nat>)
    requires p > 0 && n < MaxBlocks(p) && i in files && files[i].live == LiveSlots(p, n + 1)
    requires Good(p, w, files, owner) && Settled(owner)
    requires ChainBlocks(owner, i, DataSlot(p, n), cs) && ParentBlocks(owner, i, DataSlot(p, n), bs)
    ensures var s := DataSlot(p, n);
            var w', owner' := ClearWords(w, s, bs), Without(owner, cs);
            && Good(p, w', files[i := File(DropTop(files[i].ip, s), LiveSlots(p, n))], owner')
            && ShrunkWords(owner, w, owner', w')
  {
    hide Good, ShrunkWords, ParentBlocks, ChainBlocks;
    ShrinkKeeps(p, n, w, owner, files, i, cs);
    DataSlotSound(p, n);
    LiveGrows(p, n);
    NewSlotsBare(p, n, files[i].live, DataSlot(p, n));
    DropIsClear(p, w, files, owner, i, DataSlot(p, n), cs, bs);
  }

  lemma PutCommutes(w: Words, a: nat, j: nat, x: nat, b: nat, k: nat, y: nat)
    requires a != b && a < |w| && j < |w[a]| && b < |w| && k < |w[b]|
    ensures PutWord(PutWord(w, a, j, x), b, k, y) == PutWord(PutWord(w, b, k, y), a, j, x)
  {
  }

  lemma {:induction false} ChainBlocksLength(owner: map<nat, Owner>, i: nat, s: Slot, cs: seq<nat>)
    requires ChainBlocks(owner, i, s, cs)
    ensures |cs| == |Chain(s)|
    decreases s
  {
    if s.Sub? && s.pos == 0 {
      ChainBlocksLength(owner, i, s.parent, cs[1..]);
    }
  }

  /** Block `b` is the block of file `i` at slot `s`. */
  ghost predicate HasBlock(w: Words, owner: map<nat, Owner>, i: nat, b: nat, s: Slot) {
    0 < b < |w| && b in owner && owner[b] == Of(i, s)
  }

  /** Clearing the last block of the single indirect tree, written out. */
  lemma ClearSingle(w: Words, owner: map<nat, Owner>, i: nat, ip: seq<nat>, t: Slot, b1: nat, pos: nat, b2: nat)
    requires t.Top? && t.index < |ip| && HasBlock(w, owner, i, b1, t) && HasBlock(w, owner, i, b2, Sub(t, pos))
    requires pos < |w[b1]|
    ensures var s := Sub(t, pos);
            && ParentBlocks(owner, i, s, [b1])
            && ChainBlocks(owner, i, s, if pos == 0 then [b2, b1] else [b2])
            && ClearWords(w, s, [b1]) == PutWord(w, b1, pos, 0)
            && DropTop(ip, s) == if pos == 0 then ip[t.index := 0] else ip
  {
    var s := Sub(t, pos);
    assert ParentBlocks(owner, i, t, []) && [b1][1..] == [];
    if pos == 0 {
      assert ChainBlocks(owner, i, t, [b1]) && [b2, b1][1..] == [b1];
    }
  }

  lemma ClearDouble(w: Words, owner: map<nat, Owner>, i: nat, ip: seq<nat>, u: Slot,
                    b1: nat, pos: nat, b2: nat, pos2: nat, b3: nat)
    requires u.Top? && u.index < |ip| && HasBlock(w, owner, i, b1, u) && pos < |w[b1]|
    requires HasBlock(w, owner, i, b2, Sub(u, pos)) && pos2 < |w[b2]|
    requires HasBlock(w, owner, i, b3, Sub(Sub(u, pos), pos2))
    ensures var s := Sub(Sub(u, pos), pos2);
            && ParentBlocks(owner, i, s, [b2, b1])
            && ChainBlocks(owner, i, s, if pos2 != 0 then [b3] else if pos != 0 then [b3, b2] else [b3, b2, b1])
            && (pos2 != 0 ==> ClearWords(w, s, [b2, b1]) == PutWord(w, b2, pos2, 0))
            && (pos2 == 0 ==> ClearWords(w, s, [b2, b1]) == PutWord(PutWord(w, b1, pos, 0), b2, pos2, 0))
            && DropTop(ip, s) == if pos2 == 0 && pos == 0 then ip[u.index := 0] else ip
  {
    var t := Sub(u, pos);
    var s := Sub(t, pos2);
    assert [b2, b1][1..] == [b1];
    ClearSingle(w, owner, i, ip, u, b1, pos, b2);
    if pos2 == 0 {
      var w' := PutWord(w, b2, pos2, 0);
      ClearSingle(w', owner, i, ip, u, b1, pos, b2);
      PutCommutes(w, b1, pos, 0, b2, pos2, 0);
      assert [b3, b2][1..] == [b2] && [b3, b2, b1][1..] == [b2, b1];
    }
  }

  lemma ClearTriple(w: Words, owner: map<nat, Owner>, i: nat, ip: seq<nat>, v: Slot,
                    b1: nat, pos: nat, b2: nat, pos2: nat, b3: nat, pos3: nat, b4: nat)
    requires v.Top? && v.index < |ip| && HasBlock(w, owner, i, b1, v) && pos < |w[b1]|
    requires HasBlock(w, owner, i, b2, Sub(v, pos)) && pos2 < |w[b2]|
    requires HasBlock(w, owner, i, b3, Sub(Sub(v, pos), pos2)) && pos3 < |w[b3]|
    requires HasBlock(w, owner, i, b4, Sub(Sub(Sub(v, pos), pos2), pos3))
    ensures var s := Sub(Sub(Sub(v, pos), pos2), pos3);
            && ParentBlocks(owner, i, s, [b3, b2, b1])
            && ChainBlocks(owner, i, s, if pos3 != 0 then [b4] else if pos2 != 0 then [b4, b3]
                                        else if pos != 0 then [b4, b3, b2] else [b4, b3, b2, b1])
            && (pos3 != 0 ==> ClearWords(w, s, [b3, b2, b1]) == PutWord(w, b3, pos3, 0))
            && (pos3 == 0 && pos2 != 0 ==>
                  ClearWords(w, s, [b3, b2, b1]) == PutWord(PutWord(w, b2, pos2, 0), b3, pos3, 0))
            && (pos3 == 0 && pos2 == 0 ==>
                  ClearWords(w, s, [b3, b2, b1]) == PutWord(PutWord(PutWord(w, b2, pos2, 0), b1, pos, 0), b3, pos3, 0))
            && DropTop(ip, s) == (if pos3 == 0 && pos2 == 0 && pos == 0 then ip[v.index := 0] else ip)
            && b1 != b2 && b1 != b3 && b1 != b4 && b2 != b3 && b2 != b4 && b3 != b4
  {
    var u := Sub(v, pos);
    var t := Sub(u, pos2);
    var s := Sub(t, pos3);
    assert [b3, b2, b1][1..] == [b2, b1];
    ClearDouble(w, owner, i, ip, v, b1, pos, b2, pos2, b3);
    if pos3 == 0 {
      var w' := PutWord(w, b3, pos3, 0);
      ClearDouble(w', owner, i, ip, v, b1, pos, b2, pos2, b3);
      PutCommutes(w, b2, pos2, 0, b3, pos3, 0);
      PutCommutes(w, b1, pos, 0, b3, pos3, 0);
      PutCommutes(w, b1, pos, 0, b2, pos2, 0);
      PutCommutes(PutWord(w, b1, pos, 0), b2, pos2, 0, b3, pos3, 0);
      assert [b4, b3][1..] == [b3] && [b4, b3, b2][1..] == [b3, b2] && [b4, b3, b2, b1][1..] == [b3, b2, b1];
    }
  }
}
