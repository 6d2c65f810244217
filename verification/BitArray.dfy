/** Bitmaps packed in bytes (commons/bitarray.c), and how much of one is read from disk
    (`Grupos_leerBlockBitmap` in rfs/Grupos.c). */
module BitArrays {
  import opened Arithmetic
  import opened Allocation

  /** The bit of a byte for position `i`: 0x80 >> (7 - i % 8). */
  function Mask(i: nat): bv8 {
    0x80 as bv8 >> (7 - i % 8)
  }

  predicate Has(byte: bv8, mask: bv8) {
    byte & mask != 0
  }

  function With(byte: bv8, mask: bv8): bv8 {
    byte | mask
  }

  function Without(byte: bv8, mask: bv8): bv8 {
    byte & !mask
  }

  predicate BitOf(byte: bv8, i: nat) {
    Has(byte, Mask(i))
  }

  /** The masks of different positions have no bit in common. */
  lemma MasksApart(k: nat, m: nat)
    requires k < 8 && m < 8
    ensures Has(Mask(k), Mask(m)) <==> k == m
    ensures Mask(k) != 0
  {
    MaskTable(k);
    MaskTable(m);
  }

  lemma MaskTable(k: nat)
    requires k < 8
    ensures Mask(k) == if k == 0 then 1 else if k == 1 then 2 else if k == 2 then 4 else if k == 3 then 8
                       else if k == 4 then 16 else if k == 5 then 32 else if k == 6 then 64 else 128
  {
    if k == 0 { assert Mask(0) == 1; }
    else if k == 1 { assert Mask(1) == 2; }
    else if k == 2 { assert Mask(2) == 4; }
    else if k == 3 { assert Mask(3) == 8; }
    else if k == 4 { assert Mask(4) == 16; }
    else if k == 5 { assert Mask(5) == 32; }
    else if k == 6 { assert Mask(6) == 64; }
    else { assert Mask(7) == 128; }
  }

  lemma OtherMask(byte: bv8, a: bv8, b: bv8)
    requires !Has(a, b)
    ensures Has(With(byte, a), b) == Has(byte, b) && Has(Without(byte, a), b) == Has(byte, b)
  {
    assert (byte | a) & b == byte & b;
    assert (byte & !a) & b == byte & b;
  }

  lemma SameMask(byte: bv8, a: bv8)
    requires a != 0
    ensures Has(With(byte, a), a) && !Has(Without(byte, a), a)
  {
  }

  /** Setting or cleaning a bit of a byte changes that bit and no other. */
  lemma BitChanged(byte: bv8, i: nat, j: nat)
    ensures BitOf(With(byte, Mask(i)), j) <==> i % 8 == j % 8 || BitOf(byte, j)
    ensures BitOf(Without(byte, Mask(i)), j) <==> i % 8 != j % 8 && BitOf(byte, j)
  {
    hide Mask, Has, With, Without;
    MaskRem(i);
    MaskRem(j);
    MasksApart(i % 8, j % 8);
    if i % 8 == j % 8 {
      SameMask(byte, Mask(i));
    } else {
      OtherMask(byte, Mask(i), Mask(j));
    }
  }

  lemma MaskRem(i: nat)
    ensures i % 8 < 8 && Mask(i) == Mask(i % 8)
  {
  }

  /** The bits of a string of bytes, in order of position. */
  function BitsOf(bytes: seq<bv8>): (bits: seq<bool>)
    ensures |bits| == 8 * |bytes|
  {
    seq(8 * |bytes|, i requires 0 <= i < 8 * |bytes| => BitOf(bytes[i / 8], i))
  }

  lemma SetOne(bytes: seq<bv8>, i: nat)
    requires i < 8 * |bytes|
    ensures BitsOf(bytes[i / 8 := With(bytes[i / 8], Mask(i))]) == BitsOf(bytes)[i := true]
  {
    hide BitOf, Mask, With, Without;
    var bytes' := bytes[i / 8 := With(bytes[i / 8], Mask(i))];
    forall j | 0 <= j < 8 * |bytes| ensures BitOf(bytes'[j / 8], j) <==> i == j || BitOf(bytes[j / 8], j) {
      SamePosition(i, j);
      BitChanged(bytes[i / 8], i, j);
    }
  }

  lemma CleanOne(bytes: seq<bv8>, i: nat)
    requires i < 8 * |bytes|
    ensures BitsOf(bytes[i / 8 := Without(bytes[i / 8], Mask(i))]) == BitsOf(bytes)[i := false]
  {
    hide BitOf, Mask, With, Without;
    var bytes' := bytes[i / 8 := Without(bytes[i / 8], Mask(i))];
    forall j | 0 <= j < 8 * |bytes| ensures BitOf(bytes'[j / 8], j) <==> i != j && BitOf(bytes[j / 8], j) {
      SamePosition(i, j);
      BitChanged(bytes[i / 8], i, j);
    }
  }

  lemma SamePosition(i: nat, j: nat)
    ensures i == j <==> i / 8 == j / 8 && i % 8 == j % 8
  {
    assert i == i / 8 * 8 + i % 8 && j == j / 8 * 8 + j % 8;
  }

  class BitArray {
    const bytes: array<bv8>

    constructor (bytes: array<bv8>)
      ensures this.bytes == bytes
    {
      this.bytes := bytes;
    }

    function Bits(): (bits: seq<bool>)
      reads bytes
      ensures |bits| == 8 * bytes.Length
    {
      BitsOf(bytes[..])
    }

    /** `bitarray_test_bit`. */
    predicate Test(i: nat)
      requires i < 8 * bytes.Length
      reads bytes
      ensures Test(i) <==> Bits()[i]
    {
      bytes[i / 8] & Mask(i) != 0
    }

    /** `bitarray_set_bit`. */
    method Set(i: nat)
      requires i < 8 * bytes.Length
      modifies bytes
      ensures Bits() == old(Bits())[i := true]
    {
      hide BitsOf, Mask;
      SetOne(bytes[..], i);
      bytes[i / 8] := bytes[i / 8] | Mask(i);
    }

    /** `bitarray_clean_bit`. */
    method Clean(i: nat)
      requires i < 8 * bytes.Length
      modifies bytes
      ensures Bits() == old(Bits())[i := false]
    {
      hide BitsOf, Mask;
      CleanOne(bytes[..], i);
      var mask := Mask(i);
      mask := !mask;
      bytes[i / 8] := bytes[i / 8] & mask;
    }

    /** `bitarray_buscarPosicionLibre`. */
    method FirstFree(beyond: bool) returns (pos: int)
      ensures pos == -1 <==> forall i :: 0 <= i < 8 * bytes.Length ==> Bits()[i]
      ensures pos != -1 ==> 0 <= pos < 8 * bytes.Length && !Bits()[pos] && forall i :: 0 <= i < pos ==> Bits()[i]
    {
      hide BitsOf;
      var bits := Bits();
      CountFreeZero(bits);
      pos := FirstClear(bits, beyond);
      assert forall i :: 0 <= i < 8 * bytes.Length ==> Bits()[i] == bits[i];
    }
  }

  /** The bitmaps of an allocator, each read from the bytes of its group. */
  ghost predicate Packed(bitmap: seq<seq<bool>>, bytes: seq<seq<bv8>>) {
    |bitmap| == |bytes| && forall g :: 0 <= g < |bitmap| ==> bitmap[g] == BitsOf(bytes[g])
  }

  /** Changing one bit in the bytes of a group changes that bit of the allocator's bitmaps. */
  lemma MarkPacked(bitmap: seq<seq<bool>>, bytes: seq<seq<bv8>>, g: nat, k: nat, v: bool)
    requires Packed(bitmap, bytes) && g < |bitmap| && k < |bitmap[g]|
    ensures k / 8 < |bytes[g]|
    ensures var byte := bytes[g][k / 8];
            var byte' := if v then With(byte, Mask(k)) else Without(byte, Mask(k));
            Packed(SetBit(bitmap, g, k, v), bytes[g := bytes[g][k / 8 := byte']])
  {
    hide BitsOf, Mask;
    if v {
      SetOne(bytes[g], k);
    } else {
      CleanOne(bytes[g], k);
    }
  }

  /** How many bytes of a bitmap for `n` blocks are read: n / 8, and one more unless that is a
      multiple of 8. */
  function BytesRead(n: nat): nat {
    n / 8 + if n / 8 % 8 > 0 then 1 else 0
  }

  /** What is read covers all blocks exactly when they fill whole bytes, or n / 8 is not a multiple of 8. */
  lemma ReadCovers(n: nat)
    ensures 8 * BytesRead(n) >= n <==> n % 8 == 0 || n / 8 % 8 != 0
    ensures BytesRead(n) == if n % 64 < 8 then n / 8 else n / 8 + 1
  {
  }

  /** The number of blocks that the program takes a group to have: in the last group it does not
      subtract the first block. */
  function GroupSize(space: Space, group: nat): int {
    if group == space.groups - 1 then space.first + space.count - (space.groups - 1) * space.perGroup else
      space.perGroup
  }

  /** The number of groups that the program goes through; when the blocks fill their groups exactly
      it is one more than there are. */
  function GroupCount(count: nat, perGroup: nat): nat
    requires perGroup > 0
  {
    1 + count / perGroup
  }

  lemma GroupsNeeded(count: nat, perGroup: nat)
    requires perGroup > 0 && count > 0
    ensures count <= GroupCount(count, perGroup) * perGroup
    ensures (GroupCount(count, perGroup) - 1) * perGroup < count <==> count % perGroup != 0
  {
    assert count == count / perGroup * perGroup + count % perGroup;
  }

  /** Which bits of a group name blocks: just as many as the program takes the group to have, but in the
      last group `first` fewer, whose numbers are past the end of the volume. */
  lemma GroupBits(space: Space, g: nat, k: nat)
    requires space.Valid() && g < space.groups && (space.groups - 1) * space.perGroup <= space.count
    requires k < space.perGroup
    ensures space.InRange(space.Number(g, k)) <==>
            k < GroupSize(space, g) - (if g == space.groups - 1 then space.first else 0)
    ensures k < GroupSize(space, g) && !space.InRange(space.Number(g, k)) ==>
              space.first + space.count <= space.Number(g, k) < 2 * space.first + space.count
  {
    if g < space.groups - 1 {
      RowBound(g, k, space.groups - 1, space.perGroup);
    }
  }
}
