/** Bytes, and the little-endian integers that the server stores in disk blocks and packets. */
module Bytes {

  type Byte = x: int | 0 <= x < 256

  const TWO16: nat := 0x1_0000
  const TWO32: nat := 0x1_0000_0000

  /** A number in `w` bytes, least significant first, as memory holds it. */
  function Little(v: nat, w: nat): (s: seq<Byte>)
    ensures |s| == w
  {
    if w == 0 then [] else [v % 256] + Little(v / 256, w - 1)
  }

  function Number(s: seq<Byte>): nat {
    if s == [] then 0 else s[0] + 256 * Number(s[1..])
  }

  function Power(w: nat): nat {
    if w == 0 then 1 else 256 * Power(w - 1)
  }

  /** Reading back what was written gives the number reduced to the width. */
  lemma {:induction false} NumberBack(v: nat, w: nat)
    ensures Number(Little(v, w)) < Power(w) && (Number(Little(v, w)) == v <==> v < Power(w))
  {
    if w > 0 {
      NumberBack(v / 256, w - 1);
      assert Little(v, w)[1..] == Little(v / 256, w - 1);
    }
  }

  /** The least significant byte comes first: a small number is in the first byte. */
  lemma {:induction false} SmallNumber(v: nat, w: nat)
    requires v < 256 && w > 0
    ensures Little(v, w)[0] == v && forall k :: 0 < k < w ==> Little(v, w)[k] == 0
  {
    if w > 1 {
      SmallNumber(0, w - 1);
    }
  }

  /** The unsigned 32-bit integer stored at byte offset `off`. */
  function Word32(s: seq<Byte>, off: nat): (w: nat)
    requires off + 4 <= |s|
    ensures w < TWO32
  {
    var b0: int, b1: int, b2: int, b3: int := s[off], s[off + 1], s[off + 2], s[off + 3];
    b0 + 0x100 * b1 + 0x1_0000 * b2 + 0x100_0000 * b3
  }

  lemma Digit(a: Byte, x: int, b: Byte, y: int)
    requires a + 0x100 * x == b + 0x100 * y
    ensures a == b && x == y
  {
  }

  lemma Word32Injective(s: seq<Byte>, t: seq<Byte>, off: nat)
    requires off + 4 <= |s| && off + 4 <= |t| && Word32(s, off) == Word32(t, off)
    ensures s[off] == t[off] && s[off + 1] == t[off + 1] && s[off + 2] == t[off + 2] && s[off + 3] == t[off + 3]
  {
    var s1: int, s2: int, s3: int, t1: int, t2: int, t3: int := s[off + 1], s[off + 2], s[off + 3], t[off + 1],
      t[off + 2], t[off + 3];
    Digit(s[off], s1 + 0x100 * (s2 + 0x100 * s3), t[off], t1 + 0x100 * (t2 + 0x100 * t3));
    Digit(s[off + 1], s2 + 0x100 * s3, t[off + 1], t2 + 0x100 * t3);
    Digit(s[off + 2], s3, t[off + 2], t3);
  }

  /** The unsigned 16-bit integer stored at byte offset `off`. */
  function Word16(s: seq<Byte>, off: nat): (w: nat)
    requires off + 2 <= |s|
    ensures w < TWO16
  {
    var b0: int, b1: int := s[off], s[off + 1];
    b0 + 0x100 * b1
  }

  function Encode32(v: nat): (s: seq<Byte>)
    requires v < TWO32
    ensures |s| == 4
    ensures Word32(s, 0) == v
  {
    var a := v / 0x100;
    var b := a / 0x100;
    [v % 0x100, a % 0x100, b % 0x100, b / 0x100]
  }

  function Encode16(v: nat): (s: seq<Byte>)
    requires v < TWO16
    ensures |s| == 2
    ensures Word16(s, 0) == v
  {
    [v % 0x100, v / 0x100]
  }

  /** Overwrites the bytes of `s` from offset `off` on, as a positioned write does. */
  function Patch(s: seq<Byte>, off: nat, data: seq<Byte>): (r: seq<Byte>)
    requires off + |data| <= |s|
    ensures |r| == |s|
    ensures forall k :: 0 <= k < |s| ==>
              r[k] == if off <= k < off + |data| then data[k - off] else s[k]
  {
    s[..off] + data + s[off + |data|..]
  }

  /** Words are stored least significant byte first. */
  lemma WordBytes(s: seq<Byte>, off: nat)
    requires off + 4 <= |s|
    ensures var a: int, b: int, c: int, d: int := s[off], s[off + 1], s[off + 2], s[off + 3];
            Word32(s, off) == a + 256 * (b + 256 * (c + 256 * d))
    ensures Word32(s, off) == Number(s[off..off + 4])
  {
    NumberStep(s, off, off + 4);
    NumberStep(s, off + 1, off + 4);
    NumberStep(s, off + 2, off + 4);
    NumberStep(s, off + 3, off + 4);
  }

  lemma HalfBytes(s: seq<Byte>, off: nat)
    requires off + 2 <= |s|
    ensures var a: int, b: int := s[off], s[off + 1]; Word16(s, off) == a + 256 * b
    ensures Word16(s, off) == Number(s[off..off + 2])
  {
    NumberStep(s, off, off + 2);
    NumberStep(s, off + 1, off + 2);
  }

  lemma NumberStep(s: seq<Byte>, i: nat, j: nat)
    requires i < j <= |s|
    ensures var a: int := s[i]; Number(s[i..j]) == a + 256 * Number(s[i + 1..j])
  {
    assert s[i..j][1..] == s[i + 1..j];
  }

  lemma CodesAreLittle(v: nat)
    ensures v < TWO32 ==> Encode32(v) == Little(v, 4)
                          == [v % 256, v / 256 % 256, v / 65536 % 256, v / 16777216]
    ensures v < TWO16 ==> Encode16(v) == Little(v, 2) == [v % 256, v / 256]
  {
    assert v / 256 / 256 == v / 65536 && v / 65536 / 256 == v / 16777216;
    assert Little(v / 16777216, 1) == [v / 16777216 % 256];
    assert Little(v / 65536, 2) == [v / 65536 % 256] + Little(v / 16777216, 1);
    assert Little(v / 256, 3) == [v / 256 % 256] + Little(v / 65536, 2);
    assert Little(v / 256, 1) == [v / 256 % 256];
  }
}
