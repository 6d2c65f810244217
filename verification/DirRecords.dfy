/** The records of one directory block (rfs/Dir.c): a 4-byte inode number, a 2-byte record length, a
    1-byte name length, a 1-byte file type and the name.  A record with inode 0 is a deleted one. */
module DirRecords {
  import opened Bytes

  /** An entry as a listing shows it. */
  datatype Entry = Entry(name: seq<Byte>, inode: nat)

  const HEADER: nat := 8

  predicate Aligned(n: nat) {
    n % 4 == 0
  }

  function Round4(n: nat): (r: nat)
    ensures Aligned(r) && n <= r < n + 4
  {
    if n % 4 != 0 then (n / 4 + 1) * 4 else n
  }

  predicate HasHeader(blk: seq<Byte>, off: nat) {
    off + HEADER <= |blk|
  }

  function InodeAt(blk: seq<Byte>, off: nat): (inode: nat)
    ensures inode < TWO32
  {
    if HasHeader(blk, off) then Word32(blk, off) else 0
  }

  function LengthAt(blk: seq<Byte>, off: nat): (length: nat)
    ensures length < TWO16
  {
    if HasHeader(blk, off) then Word16(blk, off + 4) else 0
  }

  function NameLengthAt(blk: seq<Byte>, off: nat): nat {
    if HasHeader(blk, off) then blk[off + 6] else 0
  }

  /** The room a record needs for its header and its name. */
  function NeedAt(blk: seq<Byte>, off: nat): nat {
    Round4(HEADER + NameLengthAt(blk, off))
  }

  /** The record at `off` is aligned, holds its header and name, and ends inside the block. */
  predicate RecordAt(blk: seq<Byte>, off: nat) {
    && HasHeader(blk, off) && Aligned(off) && Aligned(LengthAt(blk, off))
    && NeedAt(blk, off) <= LengthAt(blk, off) && off + LengthAt(blk, off) <= |blk|
  }

  /** The block is tiled by records from `off` to its end. */
  predicate Tiled(blk: seq<Byte>, off: nat)
    decreases |blk| - off
  {
    off == |blk| || (RecordAt(blk, off) && Tiled(blk, off + LengthAt(blk, off)))
  }

  function NameAt(blk: seq<Byte>, off: nat): seq<Byte>
    requires RecordAt(blk, off)
  {
    blk[off + HEADER..off + HEADER + NameLengthAt(blk, off)]
  }

  /** What the record at `off` contributes to a listing. */
  function EntryAt(blk: seq<Byte>, off: nat): seq<Entry> {
    if !RecordAt(blk, off) || InodeAt(blk, off) == 0 then [] else [Entry(NameAt(blk, off), InodeAt(blk, off))]
  }

  /** The entries of the block from `off` on, deleted ones left out (`Dir_listar`). */
  function Entries(blk: seq<Byte>, off: nat): seq<Entry>
    decreases |blk| - off
  {
    if !RecordAt(blk, off) then [] else EntryAt(blk, off) + Entries(blk, off + LengthAt(blk, off))
  }

  /** `off` is where a record starts, or the end, in the walk from `from`. */
  predicate Reaches(blk: seq<Byte>, from: nat, off: nat)
    decreases |blk| - from
  {
    from == off || (from < off <= |blk| && RecordAt(blk, from) && Reaches(blk, from + LengthAt(blk, from), off))
  }

  /** The entries between `from` and `off`. */
  function EntriesTo(blk: seq<Byte>, from: nat, off: nat): seq<Entry>
    decreases |blk| - from
  {
    if from == off || !RecordAt(blk, from) then [] else
      EntryAt(blk, from) + EntriesTo(blk, from + LengthAt(blk, from), off)
  }

  /** Two blocks that agree on the bytes from `lo` to `hi`. */
  predicate Agree(blk: seq<Byte>, blk': seq<Byte>, lo: nat, hi: nat) {
    |blk'| == |blk| && hi <= |blk| && forall k :: lo <= k < hi ==> blk'[k] == blk[k]
  }

  lemma RecordSame(blk: seq<Byte>, blk': seq<Byte>, off: nat)
    requires RecordAt(blk, off) && Agree(blk, blk', off, off + LengthAt(blk, off))
    ensures RecordAt(blk', off) && LengthAt(blk', off) == LengthAt(blk, off) && EntryAt(blk', off) == EntryAt(blk, off)
    ensures InodeAt(blk', off) == InodeAt(blk, off) && NeedAt(blk', off) == NeedAt(blk, off)
  {
    assert blk'[off + 4] == blk[off + 4] && blk'[off + 5] == blk[off + 5] && blk'[off + 6] == blk[off + 6];
    assert blk'[off] == blk[off] && blk'[off + 1] == blk[off + 1];
    assert blk'[off + 2] == blk[off + 2] && blk'[off + 3] == blk[off + 3];
    assert NameAt(blk', off) == NameAt(blk, off);
  }

  /** What follows a point in the block depends on the bytes after it only. */
  lemma {:induction false} SuffixSame(blk: seq<Byte>, blk': seq<Byte>, off: nat)
    requires Tiled(blk, off) && Agree(blk, blk', off, |blk|)
    ensures Tiled(blk', off) && Entries(blk', off) == Entries(blk, off)
    decreases |blk| - off
  {
    hide Word16, Word32, Round4;
    if off != |blk| {
      RecordSame(blk, blk', off);
      hide EntryAt, NameLengthAt, InodeAt;
      SuffixSame(blk, blk', off + LengthAt(blk, off));
    }
  }

  lemma {:induction false} WalkSame(blk: seq<Byte>, blk': seq<Byte>, from: nat, off: nat)
    requires Reaches(blk, from, off) && off <= |blk| && Agree(blk, blk', 0, off)
    ensures Reaches(blk', from, off) && EntriesTo(blk', from, off) == EntriesTo(blk, from, off)
    decreases |blk| - from
  {
    hide Word16, Word32, Round4;
    if from != off {
      ReachesNext(blk, from, off);
      RecordSame(blk, blk', from);
      hide EntryAt, NameLengthAt, InodeAt;
      WalkSame(blk, blk', from + LengthAt(blk, from), off);
    }
  }

  lemma {:induction false} TiledTo(blk: seq<Byte>, from: nat, off: nat)
    requires Reaches(blk, from, off) && off <= |blk| && Tiled(blk, off)
    ensures Tiled(blk, from) && Entries(blk, from) == EntriesTo(blk, from, off) + Entries(blk, off)
    decreases |blk| - from
  {
    hide Word16, Word32, Round4, EntryAt, NameLengthAt;
    if from != off {
      ReachesNext(blk, from, off);
      var next := from + LengthAt(blk, from);
      TiledTo(blk, next, off);
      assert Tiled(blk, from);
      assert Entries(blk, from) == EntryAt(blk, from) + Entries(blk, next);
      assert EntriesTo(blk, from, off) == EntryAt(blk, from) + EntriesTo(blk, next, off);
    }
  }

  /** What precedes a record boundary depends on the bytes before it only. */
  lemma PrefixSame(blk: seq<Byte>, blk': seq<Byte>, from: nat, off: nat)
    requires Reaches(blk, from, off) && off <= |blk| && Agree(blk, blk', 0, off) && Tiled(blk', off)
    ensures Tiled(blk', from) && Entries(blk', from) == EntriesTo(blk, from, off) + Entries(blk', off)
  {
    WalkSame(blk, blk', from, off);
    TiledTo(blk', from, off);
  }

  lemma ReachesNext(blk: seq<Byte>, from: nat, off: nat)
    requires Reaches(blk, from, off) && from != off
    ensures RecordAt(blk, from) && from + LengthAt(blk, from) <= off
    ensures Reaches(blk, from + LengthAt(blk, from), off)
  {
  }

  /** A walk that reaches a record can go on to the next one. */
  lemma {:induction false} ReachesStep(blk: seq<Byte>, from: nat, off: nat)
    requires Reaches(blk, from, off) && off <= |blk| && RecordAt(blk, off)
    ensures Reaches(blk, from, off + LengthAt(blk, off))
    ensures EntriesTo(blk, from, off + LengthAt(blk, off)) == EntriesTo(blk, from, off) + EntryAt(blk, off)
    decreases |blk| - from
  {
    hide Word16, Word32, Round4, EntryAt, NameLengthAt, InodeAt;
    var next := off + LengthAt(blk, off);
    if from == off {
      assert Reaches(blk, next, next) && EntriesTo(blk, next, next) == [];
    } else {
      ReachesNext(blk, from, off);
      ReachesStep(blk, from + LengthAt(blk, from), off);
    }
  }

  lemma {:induction false} TiledFrom(blk: seq<Byte>, from: nat, off: nat)
    requires Tiled(blk, from) && Reaches(blk, from, off) && off <= |blk|
    ensures Tiled(blk, off) && Entries(blk, from) == EntriesTo(blk, from, off) + Entries(blk, off)
    decreases |blk| - from
  {
    hide Word16, Word32, Round4, EntryAt, NameLengthAt;
    if from != off {
      ReachesNext(blk, from, off);
      var next := from + LengthAt(blk, from);
      TiledFrom(blk, next, off);
      assert Entries(blk, from) == EntryAt(blk, from) + Entries(blk, next);
      assert EntriesTo(blk, from, off) == EntryAt(blk, from) + EntriesTo(blk, next, off);
    }
  }

  /** The eight header bytes (`serializarDir` without a name). */
  function Header(inode: nat, length: nat, nameLength: Byte, fileType: Byte): (h: seq<Byte>)
    requires inode < TWO32 && length < TWO16
    ensures |h| == HEADER
  {
    Encode32(inode) + Encode16(length) + [nameLength, fileType]
  }

  lemma HeaderReads(blk: seq<Byte>, off: nat, inode: nat, length: nat, nameLength: Byte, fileType: Byte)
    requires HasHeader(blk, off) && inode < TWO32 && length < TWO16
    ensures var blk' := Patch(blk, off, Header(inode, length, nameLength, fileType));
            && HasHeader(blk', off) && InodeAt(blk', off) == inode && LengthAt(blk', off) == length
            && NameLengthAt(blk', off) == nameLength
  {
    var h := Header(inode, length, nameLength, fileType);
    var blk' := Patch(blk, off, h);
    assert forall k :: 0 <= k < 8 ==> blk'[off + k] == h[k];
    assert h[0..4] == Encode32(inode) && h[4..6] == Encode16(length) && h[6] == nameLength;
    assert Word32(blk', off) == Word32(Encode32(inode), 0) by {
      assert blk'[off + 0] == Encode32(inode)[0] && blk'[off + 1] == Encode32(inode)[1];
      assert blk'[off + 2] == Encode32(inode)[2] && blk'[off + 3] == Encode32(inode)[3];
    }
    assert Word16(blk', off + 4) == Word16(Encode16(length), 0) by {
      assert blk'[off + 4] == h[4] == Encode16(length)[0] && blk'[off + 5] == h[5] == Encode16(length)[1];
    }
  }

  /** The block after a new record is split off the end of the record at `off`. */
  function Split(blk: seq<Byte>, off: nat, inode: nat, name: seq<Byte>): (blk': seq<Byte>)
    requires RecordAt(blk, off) && |name| < 256 && inode < TWO32 && |blk| < TWO16
    requires HasRoom(blk, off, Round4(HEADER + |name|))
    ensures |blk'| == |blk|
  {
    var need := NeedAt(blk, off);
    var shorter := Patch(blk, off, Header(InodeAt(blk, off), need, blk[off + 6], blk[off + 7]));
    Patch(shorter, off + need, Header(inode, LengthAt(blk, off) - need, |name|, 0) + name)
  }

  lemma OneRecord(blk: seq<Byte>, off: nat)
    requires RecordAt(blk, off) && Tiled(blk, off + LengthAt(blk, off))
    ensures off + LengthAt(blk, off) <= |blk|
    ensures Tiled(blk, off) && Entries(blk, off) == EntryAt(blk, off) + Entries(blk, off + LengthAt(blk, off))
  {
  }

  /** `after` is `before` with one element inserted. */
  ghost predicate Inserted<T(!new)>(before: seq<T>, after: seq<T>, e: T) {
    exists k :: InsertedAt(before, after, e, k)
  }

  predicate InsertedAt<T(==)>(before: seq<T>, after: seq<T>, e: T, k: int) {
    0 <= k <= |before| && after == before[..k] + [e] + before[k..]
  }

  lemma InsertedBetween<T(!new)>(pre: seq<T>, mid: seq<T>, post: seq<T>, e: T)
    ensures Inserted(pre + (mid + post), pre + (mid + ([e] + post)), e)
  {
    var before := pre + (mid + post);
    assert before[..|pre| + |mid|] == pre + mid && before[|pre| + |mid|..] == post;
    assert pre + (mid + ([e] + post)) == (pre + mid) + [e] + post;
    assert InsertedAt(before, pre + (mid + ([e] + post)), e, |pre| + |mid|);
  }

  /** Splitting keeps the tiling and adds exactly the new entry, after the one it was split off. */
  lemma SplitAdds(blk: seq<Byte>, off: nat, inode: nat, name: seq<Byte>)
    requires Tiled(blk, 0) && Reaches(blk, 0, off) && RecordAt(blk, off)
    requires |name| < 256 && 0 < inode < TWO32 && |blk| < TWO16
    requires HasRoom(blk, off, Round4(HEADER + |name|))
    ensures Tiled(Split(blk, off, inode, name), 0)
    ensures Inserted(Entries(blk, 0), Entries(Split(blk, off, inode, name), 0), Entry(name, inode))
  {
    var need := NeedAt(blk, off);
    hide *;
    SplitRecords(blk, off, inode, name);
    RecordEnds(blk, off);
    SplitInto(blk, Split(blk, off, inode, name), off, need, Entry(name, inode));
  }

  lemma RecordEnds(blk: seq<Byte>, off: nat)
    requires RecordAt(blk, off)
    ensures HEADER <= NeedAt(blk, off) <= LengthAt(blk, off) && off + LengthAt(blk, off) <= |blk|
  {
  }

  lemma SplitInto(blk: seq<Byte>, blk': seq<Byte>, off: nat, need: nat, e: Entry)
    requires Tiled(blk, 0) && Reaches(blk, 0, off) && RecordAt(blk, off)
    requires off + LengthAt(blk, off) <= |blk| && need <= LengthAt(blk, off)
    requires Agree(blk, blk', 0, off) && Agree(blk, blk', off + LengthAt(blk, off), |blk|)
    requires RecordAt(blk', off) && LengthAt(blk', off) == need && EntryAt(blk', off) == EntryAt(blk, off)
    requires RecordAt(blk', off + need) && LengthAt(blk', off + need) == LengthAt(blk, off) - need
    requires EntryAt(blk', off + need) == [e]
    ensures Tiled(blk', 0) && Inserted(Entries(blk, 0), Entries(blk', 0), e)
  {
    var next := off + LengthAt(blk, off);
    hide *;
    TiledAt(blk, off);
    SplitTail(blk, blk', off, need, next, e);
    PrefixSame(blk, blk', 0, off);
    InsertedBetween(EntriesTo(blk, 0, off), EntryAt(blk, off), Entries(blk, next), e);
  }

  lemma TiledAt(blk: seq<Byte>, off: nat)
    requires Tiled(blk, 0) && Reaches(blk, 0, off) && RecordAt(blk, off)
    ensures Tiled(blk, off + LengthAt(blk, off))
    ensures Entries(blk, 0) == EntriesTo(blk, 0, off) + (EntryAt(blk, off) + Entries(blk, off + LengthAt(blk, off)))
  {
    TiledFrom(blk, 0, off);
  }

  lemma SplitTail(blk: seq<Byte>, blk': seq<Byte>, off: nat, need: nat, next: nat, e: Entry)
    requires Tiled(blk, next) && next <= |blk| && Agree(blk, blk', next, |blk|) && RecordAt(blk, off)
    requires RecordAt(blk', off) && LengthAt(blk', off) == need && EntryAt(blk', off) == EntryAt(blk, off)
    requires RecordAt(blk', off + need) && off + need + LengthAt(blk', off + need) == next
    requires EntryAt(blk', off + need) == [e]
    ensures Tiled(blk', off) && Entries(blk', off) == EntryAt(blk, off) + ([e] + Entries(blk, next))
  {
    hide RecordAt, LengthAt, EntryAt, Entries, Tiled, Agree;
    SuffixSame(blk, blk', next);
    OneRecord(blk', off + need);
    OneRecord(blk', off);
  }

  lemma Sum4(a: nat, b: nat)
    requires Aligned(a) && Aligned(b)
    ensures Aligned(a + b) && (a >= b ==> Aligned(a - b))
  {
    var x, y := a / 4, b / 4;
    MultipleOf4(a + b, x + y);
    if a >= b {
      MultipleOf4(a - b, x - y);
    }
  }

  lemma MultipleOf4(n: nat, q: nat)
    requires n == 4 * q
    ensures Aligned(n)
  {
  }

  /** The two records that a split leaves. */
  lemma SplitRecords(blk: seq<Byte>, off: nat, inode: nat, name: seq<Byte>)
    requires RecordAt(blk, off) && |name| < 256 && 0 < inode < TWO32 && |blk| < TWO16
    requires HasRoom(blk, off, Round4(HEADER + |name|))
    ensures var blk', need := Split(blk, off, inode, name), NeedAt(blk, off);
            && Agree(blk, blk', 0, off) && Agree(blk, blk', off + LengthAt(blk, off), |blk|)
            && RecordAt(blk', off) && LengthAt(blk', off) == need && EntryAt(blk', off) == EntryAt(blk, off)
            && RecordAt(blk', off + need) && LengthAt(blk', off + need) == LengthAt(blk, off) - need
            && EntryAt(blk', off + need) == [Entry(name, inode)]
  {
    hide Word16, Word32, Round4, Aligned, Header, InodeAt, LengthAt, NameLengthAt;
    var need, blk' := NeedAt(blk, off), Split(blk, off, inode, name);
    var rest := LengthAt(blk, off) - need;
    var h := Header(InodeAt(blk, off), need, blk[off + 6], blk[off + 7]);
    var shorter := Patch(blk, off, h);
    Sum4(off, need);
    Sum4(LengthAt(blk, off), need);
    NameLengthIs(blk, off);
    HeaderReads(blk, off, InodeAt(blk, off), need, blk[off + 6], blk[off + 7]);
    FirstRecord(blk, shorter, blk', off);
    NewRecord(shorter, off + need, inode, rest, name);
  }

  lemma NameLengthIs(blk: seq<Byte>, off: nat)
    requires HasHeader(blk, off)
    ensures NameLengthAt(blk, off) == blk[off + 6]
  {
  }

  /** Writing a header and a name makes a record. */
  lemma NewRecord(blk: seq<Byte>, off: nat, inode: nat, length: nat, name: seq<Byte>)
    requires |name| < 256 && 0 < inode < TWO32 && length < TWO16
    requires Aligned(off) && Aligned(length) && Round4(HEADER + |name|) <= length && off + length <= |blk|
    ensures var blk' := Patch(blk, off, Header(inode, length, |name|, 0) + name);
            RecordAt(blk', off) && LengthAt(blk', off) == length && EntryAt(blk', off) == [Entry(name, inode)]
  {
    hide Word16, Word32, Round4, Aligned, Header, InodeAt, LengthAt, NameLengthAt;
    var g := Header(inode, length, |name|, 0);
    var mid, blk' := Patch(blk, off, g), Patch(blk, off, g + name);
    HeaderReads(blk, off, inode, length, |name|, 0);
    assert Agree(mid, blk', off, off + HEADER);
    HeaderSame(mid, blk', off);
    assert blk'[off + HEADER..off + HEADER + |name|] == name;
    SecondRecord(blk', off, inode, length, name);
  }

  lemma SecondRecord(blk: seq<Byte>, off: nat, inode: nat, length: nat, name: seq<Byte>)
    requires HasHeader(blk, off) && InodeAt(blk, off) == inode != 0 && LengthAt(blk, off) == length
    requires NameLengthAt(blk, off) == |name|
    requires Aligned(off) && Aligned(length) && Round4(HEADER + |name|) <= length && off + length <= |blk|
    requires blk[off + HEADER..off + HEADER + |name|] == name
    ensures RecordAt(blk, off) && EntryAt(blk, off) == [Entry(name, inode)]
  {
    hide Word16, Word32;
  }

  lemma HeaderSame(blk: seq<Byte>, blk': seq<Byte>, off: nat)
    requires HasHeader(blk, off) && Agree(blk, blk', off, off + HEADER)
    ensures InodeAt(blk', off) == InodeAt(blk, off) && LengthAt(blk', off) == LengthAt(blk, off)
    ensures NameLengthAt(blk', off) == NameLengthAt(blk, off)
  {
    assert blk'[off + 4] == blk[off + 4] && blk'[off + 5] == blk[off + 5] && blk'[off + 6] == blk[off + 6];
    assert blk'[off] == blk[off] && blk'[off + 1] == blk[off + 1];
    assert blk'[off + 2] == blk[off + 2] && blk'[off + 3] == blk[off + 3];
  }

  lemma FirstRecord(blk: seq<Byte>, shorter: seq<Byte>, blk': seq<Byte>, off: nat)
    requires RecordAt(blk, off) && |shorter| == |blk| && Agree(shorter, blk', off, off + NeedAt(blk, off))
    requires Agree(blk, shorter, off + HEADER, off + NeedAt(blk, off))
    requires InodeAt(shorter, off) == InodeAt(blk, off) && LengthAt(shorter, off) == NeedAt(blk, off)
    requires NameLengthAt(shorter, off) == NameLengthAt(blk, off)
    ensures RecordAt(blk', off) && LengthAt(blk', off) == NeedAt(blk, off) && EntryAt(blk', off) == EntryAt(blk, off)
  {
    HeaderSame(shorter, blk', off);
    hide InodeAt, LengthAt, NameLengthAt;
    assert NameAt(blk', off) == NameAt(blk, off);
  }

  /** The header of a record that has swallowed the one that follows it. */
  function MergeHeader(blk: seq<Byte>, prev: nat): (h: seq<Byte>)
    requires RecordAt(blk, prev) && RecordAt(blk, prev + LengthAt(blk, prev)) && |blk| < TWO16
    ensures |h| == HEADER
  {
    Header(InodeAt(blk, prev), LengthAt(blk, prev) + LengthAt(blk, prev + LengthAt(blk, prev)), blk[prev + 6],
           blk[prev + 7])
  }

  function Merge(blk: seq<Byte>, prev: nat): (blk': seq<Byte>)
    requires RecordAt(blk, prev) && RecordAt(blk, prev + LengthAt(blk, prev)) && |blk| < TWO16
    ensures |blk'| == |blk|
  {
    Patch(blk, prev, MergeHeader(blk, prev))
  }

  /** The header of a record marked deleted. */
  function KillHeader(blk: seq<Byte>, off: nat): (h: seq<Byte>)
    requires RecordAt(blk, off)
    ensures |h| == HEADER
  {
    Header(0, LengthAt(blk, off), blk[off + 6], blk[off + 7])
  }

  function Kill(blk: seq<Byte>, off: nat): (blk': seq<Byte>)
    requires RecordAt(blk, off)
    ensures |blk'| == |blk|
  {
    Patch(blk, off, KillHeader(blk, off))
  }

  lemma MergedRecord(blk: seq<Byte>, prev: nat)
    requires RecordAt(blk, prev) && RecordAt(blk, prev + LengthAt(blk, prev)) && |blk| < TWO16
    ensures var blk', next := Merge(blk, prev), prev + LengthAt(blk, prev);
            && Agree(blk, blk', 0, prev) && Agree(blk, blk', next + LengthAt(blk, next), |blk|)
            && RecordAt(blk', prev) && LengthAt(blk', prev) == LengthAt(blk, prev) + LengthAt(blk, next)
            && EntryAt(blk', prev) == EntryAt(blk, prev)
  {
    hide Word16, Word32, Round4, Aligned, Header, InodeAt, LengthAt, NameLengthAt;
    var next := prev + LengthAt(blk, prev);
    Sum4(LengthAt(blk, prev), LengthAt(blk, next));
    NameLengthIs(blk, prev);
    HeaderReads(blk, prev, InodeAt(blk, prev), LengthAt(blk, prev) + LengthAt(blk, next), blk[prev + 6], blk[prev + 7]);
    assert NameAt(Merge(blk, prev), prev) == NameAt(blk, prev);
  }

  lemma KilledRecord(blk: seq<Byte>, off: nat)
    requires RecordAt(blk, off)
    ensures var blk' := Kill(blk, off);
            && Agree(blk, blk', 0, off) && Agree(blk, blk', off + LengthAt(blk, off), |blk|)
            && RecordAt(blk', off) && LengthAt(blk', off) == LengthAt(blk, off) && EntryAt(blk', off) == []
  {
    hide Word16, Word32, Round4, Aligned, Header, InodeAt, LengthAt, NameLengthAt;
    NameLengthIs(blk, off);
    HeaderReads(blk, off, 0, LengthAt(blk, off), blk[off + 6], blk[off + 7]);
  }

  /** No entry of the list has this inode. */
  predicate NoInode(list: seq<Entry>, inode: nat) {
    forall k :: 0 <= k < |list| ==> list[k].inode != inode
  }

  /** The list without its first entry that has this inode. */
  function WithoutFirst(list: seq<Entry>, inode: nat): seq<Entry> {
    if list == [] then []
    else if list[0].inode == inode then list[1..]
    else [list[0]] + WithoutFirst(list[1..], inode)
  }

  lemma {:induction false} WithoutFirstAt(pre: seq<Entry>, e: Entry, post: seq<Entry>)
    requires NoInode(pre, e.inode)
    ensures WithoutFirst(pre + ([e] + post), e.inode) == pre + post
  {
    if pre == [] {
      assert pre + ([e] + post) == [e] + post && pre + post == post;
    } else {
      assert (pre + ([e] + post))[1..] == pre[1..] + ([e] + post);
      WithoutFirstAt(pre[1..], e, post);
      assert [pre[0]] + (pre[1..] + post) == pre + post;
    }
  }

  lemma {:induction false} WithoutNone(list: seq<Entry>, inode: nat)
    requires NoInode(list, inode)
    ensures WithoutFirst(list, inode) == list
  {
    if list != [] {
      WithoutNone(list[1..], inode);
    }
  }

  /** Merging the first record with this inode into the one before it removes exactly its entry. */
  lemma MergeRemoves(blk: seq<Byte>, prev: nat, inode: nat)
    requires Tiled(blk, 0) && Reaches(blk, 0, prev) && RecordAt(blk, prev) && |blk| < TWO16
    requires RecordAt(blk, prev + LengthAt(blk, prev)) && InodeAt(blk, prev + LengthAt(blk, prev)) == inode != 0
    requires Reaches(blk, 0, prev + LengthAt(blk, prev))
    requires NoInode(EntriesTo(blk, 0, prev + LengthAt(blk, prev)), inode)
    ensures Tiled(Merge(blk, prev), 0) && Entries(Merge(blk, prev), 0) == WithoutFirst(Entries(blk, 0), inode)
  {
    var next := prev + LengthAt(blk, prev);
    var e := Entry(NameAt(blk, next), inode);
    assert EntryAt(blk, next) == [e];
    hide *;
    ReachesStep(blk, 0, prev);
    RecordEnds(blk, prev);
    RecordEnds(blk, next);
    MergedRecord(blk, prev);
    MergeInto(blk, Merge(blk, prev), prev, next);
    TiledAt(blk, next);
    WithoutFirstAt(EntriesTo(blk, 0, next), e, Entries(blk, next + LengthAt(blk, next)));
  }

  lemma MergeInto(blk: seq<Byte>, blk': seq<Byte>, prev: nat, next: nat)
    requires Tiled(blk, 0) && Reaches(blk, 0, prev) && RecordAt(blk, prev) && next == prev + LengthAt(blk, prev)
    requires RecordAt(blk, next) && Reaches(blk, 0, next) && next + LengthAt(blk, next) <= |blk|
    requires Agree(blk, blk', 0, prev) && Agree(blk, blk', next + LengthAt(blk, next), |blk|)
    requires RecordAt(blk', prev) && prev + LengthAt(blk', prev) == next + LengthAt(blk, next)
    requires EntryAt(blk', prev) == EntryAt(blk, prev)
    ensures Tiled(blk', 0) && Tiled(blk, next + LengthAt(blk, next))
    ensures Entries(blk', 0) == EntriesTo(blk, 0, next) + Entries(blk, next + LengthAt(blk, next))
  {
    var after := next + LengthAt(blk, next);
    hide *;
    TiledAt(blk, next);
    SuffixSame(blk, blk', after);
    OneRecord(blk', prev);
    PrefixSame(blk, blk', 0, prev);
    ReachesStep(blk, 0, prev);
    Regroup(EntriesTo(blk, 0, prev), EntryAt(blk, prev), Entries(blk, after));
  }

  lemma Regroup<T>(a: seq<T>, b: seq<T>, c: seq<T>)
    ensures a + (b + c) == a + b + c
  {
  }

  lemma FirstInUse(blk: seq<Byte>)
    requires Tiled(blk, 0) && RecordAt(blk, 0) && InodeAt(blk, 0) != 0
    ensures LengthAt(blk, 0) <= |blk| && Tiled(blk, 0 + LengthAt(blk, 0))
    ensures EntryAt(blk, 0) == [Entry(NameAt(blk, 0), InodeAt(blk, 0))]
  {
    hide Word16, Word32, Round4, Aligned;
  }

  /** Marking the first record deleted removes exactly its entry. */
  lemma KillRemoves(blk: seq<Byte>)
    requires Tiled(blk, 0) && RecordAt(blk, 0) && InodeAt(blk, 0) != 0
    ensures Tiled(Kill(blk, 0), 0) && Entries(Kill(blk, 0), 0) == WithoutFirst(Entries(blk, 0), InodeAt(blk, 0))
  {
    hide *;
    FirstInUse(blk);
    var blk', next, e := Kill(blk, 0), LengthAt(blk, 0), Entry(NameAt(blk, 0), InodeAt(blk, 0));
    OneRecord(blk, 0);
    KilledRecord(blk, 0);
    SuffixSame(blk, blk', next);
    OneRecord(blk', 0);
    assert [] + Entries(blk', 0 + next) == Entries(blk', next);
    WithoutFirstAt([], e, Entries(blk, next));
    assert [] + ([e] + Entries(blk, next)) == [e] + Entries(blk, next);
  }

  /** Taking the added entry out again restores the list, if its inode was not listed before. */
  lemma InsertThenRemove(before: seq<Entry>, after: seq<Entry>, e: Entry)
    requires Inserted(before, after, e) && NoInode(before, e.inode)
    ensures WithoutFirst(after, e.inode) == before
  {
    var k :| InsertedAt(before, after, e, k);
    assert after == before[..k] + ([e] + before[k..]);
    WithoutFirstAt(before[..k], e, before[k..]);
  }

  /** The records that start before `limit` have less than `need` bytes to spare. */
  predicate NoRoom(blk: seq<Byte>, limit: nat, need: nat) {
    forall x: nat :: x < limit && Reaches(blk, 0, x) && RecordAt(blk, x) ==> !HasRoom(blk, x, need)
  }

  predicate HasRoom(blk: seq<Byte>, off: nat, need: nat) {
    LengthAt(blk, off) - NeedAt(blk, off) >= need
  }

  lemma {:induction false} ReachesGap(blk: seq<Byte>, from: nat, off: nat, x: nat)
    requires Reaches(blk, from, off) && Reaches(blk, from, x) && off <= x
    ensures Reaches(blk, off, x)
    decreases |blk| - from
  {
    hide Word16, Round4, NeedAt;
    if from != off {
      RecordEnds(blk, from);
      ReachesGap(blk, from + LengthAt(blk, from), off, x);
    }
  }

  lemma NoRoomStep(blk: seq<Byte>, off: nat, need: nat)
    requires NoRoom(blk, off, need) && Reaches(blk, 0, off) && RecordAt(blk, off) && !HasRoom(blk, off, need)
    ensures NoRoom(blk, off + LengthAt(blk, off), need)
  {
    hide RecordAt, LengthAt, HasRoom;
    forall x: nat | x < off + LengthAt(blk, off) && Reaches(blk, 0, x) && RecordAt(blk, x)
      ensures !HasRoom(blk, x, need) {
      if off < x {
        ReachesGap(blk, 0, off, x);
      }
    }
  }

  /** The first record with room for a new one behind it (inner loop of `Dir_crearNuevaEntrada`). */
  method FindRoom(blk: seq<Byte>, need: nat) returns (found: bool, off: nat)
    requires Tiled(blk, 0)
    ensures found ==> Reaches(blk, 0, off) && RecordAt(blk, off) && HasRoom(blk, off, need) && NoRoom(blk, off, need)
    ensures !found ==> NoRoom(blk, |blk|, need)
  {
    hide Word16, Word32, Round4, RecordAt, LengthAt, NeedAt, NoRoom;
    found, off := false, 0;
    NoRoomStart(blk, need);
    while off < |blk| && !found
      invariant off <= |blk| && Reaches(blk, 0, off) && Tiled(blk, off)
      invariant NoRoom(blk, off, need)
      invariant found ==> RecordAt(blk, off) && HasRoom(blk, off, need)
      decreases |blk| - off, !found
    {
      RecordEnds(blk, off);
      if HasRoom(blk, off, need) {
        found := true;
      } else {
        ReachesStep(blk, 0, off);
        NoRoomStep(blk, off, need);
        off := off + LengthAt(blk, off);
      }
    }
  }

  lemma NoRoomStart(blk: seq<Byte>, need: nat)
    ensures NoRoom(blk, 0, need)
  {
  }

  /** The first record with this inode, and the record before it (loops of `Dir_borrarEntrada`). */
  method FindInode(blk: seq<Byte>, inode: nat) returns (found: bool, off: nat, prev: nat)
    requires Tiled(blk, 0) && |blk| > 0 && inode != 0
    ensures !found ==> NoInode(Entries(blk, 0), inode)
    ensures found ==> Reaches(blk, 0, off) && RecordAt(blk, off) && InodeAt(blk, off) == inode
    ensures found ==> NoInode(EntriesTo(blk, 0, off), inode)
    ensures found ==> if off == 0 then prev == 0
                      else Reaches(blk, 0, prev) && RecordAt(blk, prev) && prev + LengthAt(blk, prev) == off
  {
    hide Word16, Word32, Round4, RecordAt, LengthAt, NeedAt, NameAt, InodeAt;
    RecordEnds(blk, 0);
    found, off, prev := false, 0, 0;
    if InodeAt(blk, 0) == inode {
      found := true;
    } else {
      ReachesStep(blk, 0, 0);
      off := off + LengthAt(blk, 0);
    }
    while off < |blk| && !found
      invariant off <= |blk| && Reaches(blk, 0, off) && Tiled(blk, off)
      invariant NoInode(EntriesTo(blk, 0, off), inode)
      invariant found ==> RecordAt(blk, off) && InodeAt(blk, off) == inode
      invariant if off == 0 then prev == 0 && found
                else Reaches(blk, 0, prev) && RecordAt(blk, prev) && prev + LengthAt(blk, prev) == off
      decreases |blk| - off, !found
    {
      RecordEnds(blk, off);
      if InodeAt(blk, off) == inode {
        found := true;
      } else {
        ReachesStep(blk, 0, off);
        prev := off;
        off := off + LengthAt(blk, off);
      }
    }
    if !found {
      TiledFrom(blk, 0, off);
      EndOfBlock(blk);
    }
  }

  /** Lists a block (inner loop of `Dir_listar`). */
  method ListBlock(blk: seq<Byte>) returns (list: seq<Entry>)
    requires Tiled(blk, 0)
    ensures list == Entries(blk, 0)
  {
    hide Word16, Word32, Round4, RecordAt, LengthAt, NeedAt, NameAt, InodeAt, EntryAt;
    list := [];
    var off := 0;
    while off < |blk|
      invariant off <= |blk| && Reaches(blk, 0, off) && Tiled(blk, off)
      invariant list == EntriesTo(blk, 0, off)
      decreases |blk| - off
    {
      RecordEnds(blk, off);
      ReachesStep(blk, 0, off);
      list := list + EntryAt(blk, off);
      off := off + LengthAt(blk, off);
    }
    TiledFrom(blk, 0, off);
    EndOfBlock(blk);
  }

  lemma EndOfBlock(blk: seq<Byte>)
    ensures !RecordAt(blk, |blk|)
  {
  }

  /** One record fills the block. */
  predicate Sole(blk: seq<Byte>, e: Entry) {
    RecordAt(blk, 0) && LengthAt(blk, 0) == |blk| && EntryAt(blk, 0) == [e]
  }

  /** A block that holds a single record. */
  lemma SoleRecord(blk: seq<Byte>, inode: nat, name: seq<Byte>)
    requires |name| < 256 && 0 < inode < TWO32 && Aligned(|blk|) && Round4(HEADER + |name|) <= |blk| < TWO16
    ensures var blk' := Patch(blk, 0, Header(inode, |blk|, |name|, 0) + name);
            Tiled(blk', 0) && Entries(blk', 0) == [Entry(name, inode)] && Sole(blk', Entry(name, inode))
  {
    NewRecord(blk, 0, inode, |blk|, name);
    var blk' := Patch(blk, 0, Header(inode, |blk|, |name|, 0) + name);
    hide RecordAt, LengthAt, EntryAt, Header, Round4, Word16, Word32;
    assert Tiled(blk', |blk'|) && Entries(blk', |blk'|) == [];
    OneRecord(blk', 0);
  }

  /** Splitting a block with one record: the old entry, and then the new one. */
  lemma SoleSplit(blk: seq<Byte>, off: nat, e: Entry, inode: nat, name: seq<Byte>)
    requires Sole(blk, e) && Reaches(blk, 0, off) && RecordAt(blk, off) && HasRoom(blk, off, Round4(HEADER + |name|))
    requires |name| < 256 && 0 < inode < TWO32 && |blk| < TWO16
    ensures off == 0 && Entries(Split(blk, off, inode, name), 0) == [e, Entry(name, inode)]
  {
    SoleReaches(blk, off, e);
    hide Word16, Word32, NameLengthAt, InodeAt, Reaches;
    var need, blk' := NeedAt(blk, 0), Split(blk, 0, inode, name);
    SplitRecords(blk, 0, inode, name);
    assert need + LengthAt(blk', need) == |blk'|;
    hide RecordAt, LengthAt, EntryAt, Split, Round4;
    EndOfBlock(blk');
    OneRecord(blk', need);
    assert 0 + need == need;
    OneRecord(blk', 0);
  }

  lemma SoleReaches(blk: seq<Byte>, off: nat, e: Entry)
    requires Sole(blk, e) && Reaches(blk, 0, off) && RecordAt(blk, off)
    ensures off == 0
  {
    hide Word16, Word32, EntryAt, Round4;
  }

  lemma SoleRoom(blk: seq<Byte>, e: Entry, need: nat)
    requires Sole(blk, e) && Round4(HEADER + |e.name|) + need <= |blk|
    ensures RecordAt(blk, 0) && HasRoom(blk, 0, need)
  {
    hide Word16, Word32, Round4;
    assert EntryAt(blk, 0)[0].name == NameAt(blk, 0);
  }

  /** Which byte of a record is which. */
  lemma RecordBytes(blk: seq<Byte>, off: nat)
    requires off + 8 <= |blk|
    ensures var a: int, b: int, c: int, d: int := blk[off], blk[off + 1], blk[off + 2], blk[off + 3];
            InodeAt(blk, off) == a + 256 * (b + 256 * (c + 256 * d))
    ensures var lo: int, hi: int := blk[off + 4], blk[off + 5]; LengthAt(blk, off) == lo + 256 * hi
    ensures var length: int := blk[off + 6]; NeedAt(blk, off) == (8 + length + 3) / 4 * 4
    ensures RecordAt(blk, off) ==>
              off + 8 + blk[off + 6] <= |blk| && NameAt(blk, off) == blk[off + 8..off + 8 + blk[off + 6]]
  {
    WordBytes(blk, off);
    HalfBytes(blk, off + 4);
    if RecordAt(blk, off) {
      RecordEnds(blk, off);
    }
  }

  /** A record starts at `off` whose length, in bytes 4 and 5, exceeds what its own name, of the length in byte 6,
      needs by what a name of `length` bytes needs, both rounded up to a multiple of 4. */
  predicate FitsAt(blk: seq<Byte>, off: nat, length: nat) {
    && off + 8 <= |blk| && Reaches(blk, 0, off)
    && var lo: int, hi: int, own: int := blk[off + 4], blk[off + 5], blk[off + 6];
       lo + 256 * hi - (8 + own + 3) / 4 * 4 >= (8 + length + 3) / 4 * 4
  }

  lemma FitsIs(blk: seq<Byte>, off: nat, length: nat)
    requires Tiled(blk, 0)
    ensures FitsAt(blk, off, length) <==>
            Reaches(blk, 0, off) && RecordAt(blk, off) && HasRoom(blk, off, Round4(HEADER + length))
  {
    hide Tiled, Reaches, RecordAt, LengthAt, NeedAt, InodeAt, NameAt, Word16, Word32, Round4;
    RoundedUp(length);
    if off + 8 <= |blk| {
      RecordBytes(blk, off);
      if Reaches(blk, 0, off) {
        TiledRecord(blk, off);
      }
    } else if RecordAt(blk, off) {
      RecordEnds(blk, off);
    }
  }

  lemma RoundedUp(length: nat)
    ensures Round4(HEADER + length) == (8 + length + 3) / 4 * 4
  {
  }

  lemma TiledRecord(blk: seq<Byte>, off: nat)
    requires Tiled(blk, 0) && Reaches(blk, 0, off) && off < |blk|
    ensures RecordAt(blk, off)
  {
    TiledFrom(blk, 0, off);
  }

  /** The bytes of a header. */
  lemma HeaderBytes(inode: nat, length: nat, nameLength: Byte, fileType: Byte)
    requires inode < TWO32 && length < TWO16
    ensures Header(inode, length, nameLength, fileType) == Little(inode, 4) + Little(length, 2) + [nameLength, fileType]
  {
    CodesAreLittle(inode);
    CodesAreLittle(length);
  }

  /** The bytes that a split writes: the old record's length, and the new record. */
  lemma SplitBytes(blk: seq<Byte>, off: nat, inode: nat, name: seq<Byte>)
    requires RecordAt(blk, off) && |name| < 256 && inode < TWO32 && |blk| < TWO16
    requires HasRoom(blk, off, Round4(HEADER + |name|))
    ensures var lo: int, hi: int, own: int := blk[off + 4], blk[off + 5], blk[off + 6];
            var need: nat := (8 + own + 3) / 4 * 4;
            && need + 8 + |name| <= lo + 256 * hi && off + lo + 256 * hi <= |blk|
            && Split(blk, off, inode, name) ==
               Patch(Patch(blk, off + 4, Little(need, 2)), off + need,
                     Little(inode, 4) + Little(lo + 256 * hi - need, 2) + [|name|, 0] + name)
  {
    RecordBytes(blk, off);
    RecordEnds(blk, off);
    HeaderKept(blk, off, NeedAt(blk, off));
    HeaderBytes(inode, LengthAt(blk, off) - NeedAt(blk, off), |name|, 0);
  }

  /** Writing a header back with another length changes the two bytes of the length. */
  lemma HeaderKept(blk: seq<Byte>, off: nat, length: nat)
    requires off + 8 <= |blk| && length < TWO16
    ensures Patch(blk, off, Header(InodeAt(blk, off), length, blk[off + 6], blk[off + 7])) ==
            Patch(blk, off + 4, Little(length, 2))
  {
    HeaderBytes(InodeAt(blk, off), length, blk[off + 6], blk[off + 7]);
    WordBack(blk, off);
    var h := Header(InodeAt(blk, off), length, blk[off + 6], blk[off + 7]);
    assert forall k :: 0 <= k < 4 ==> h[k] == blk[off + k];
    assert forall k :: 4 <= k < 6 ==> h[k] == Little(length, 2)[k - 4];
    assert h[6] == blk[off + 6] && h[7] == blk[off + 7];
  }

  lemma WordBack(blk: seq<Byte>, off: nat)
    requires off + 8 <= |blk|
    ensures Little(InodeAt(blk, off), 4) == blk[off..off + 4]
  {
    var v, s := InodeAt(blk, off), blk[off..off + 4];
    CodesAreLittle(v);
    assert Word32(s, 0) == v;
    Word32Injective(Encode32(v), s, 0);
    assert Encode32(v) == s;
  }

  /** The bytes that deleting a record writes. */
  lemma MergeBytes(blk: seq<Byte>, prev: nat)
    requires RecordAt(blk, prev) && RecordAt(blk, prev + LengthAt(blk, prev)) && |blk| < TWO16
    ensures prev + 6 <= |blk|
    ensures Merge(blk, prev) ==
            Patch(blk, prev + 4, Little(LengthAt(blk, prev) + LengthAt(blk, prev + LengthAt(blk, prev)), 2))
  {
    HeaderKept(blk, prev, LengthAt(blk, prev) + LengthAt(blk, prev + LengthAt(blk, prev)));
  }

  lemma KillBytes(blk: seq<Byte>, off: nat)
    requires RecordAt(blk, off)
    ensures off + 4 <= |blk| && Kill(blk, off) == Patch(blk, off, [0, 0, 0, 0])
  {
    hide Word16, Word32, Round4, Aligned, InodeAt, LengthAt, NeedAt, NameAt, Encode16, Encode32;
    var h := KillHeader(blk, off);
    HeaderBytes(0, LengthAt(blk, off), blk[off + 6], blk[off + 7]);
    CodesAreLittle(0);
    CodesAreLittle(LengthAt(blk, off));
    RecordBytes(blk, off);
    assert h[..4] == [0, 0, 0, 0] && h[4] == blk[off + 4] && h[5] == blk[off + 5];
    assert h[6] == blk[off + 6] && h[7] == blk[off + 7];
  }
}
