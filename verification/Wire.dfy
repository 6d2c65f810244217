/** The packets between client and server (rfs/serial_rfs.c, fsc/serializar_y_deserializar.c and the
    loop of `fsc_readdir` in fsc/fsc.c). */
module Wire {
  import opened Bytes

  const NUL: Byte := 0

  type Name = seq<Byte>

  /** A C string has no zero byte but the one that ends it. */
  predicate IsString(s: seq<Byte>) {
    NUL !in s
  }

  // ----- frames -----

  /** A type byte, the payload's length in two bytes, and the payload. */
  function Frame(kind: Byte, payload: seq<Byte>): seq<Byte>
    requires |payload| < TWO16
  {
    [kind] + Encode16(|payload|) + payload
  }

  /** `serializar_Nipc`: copies the three parts into a packet. */
  method FrameOf(kind: Byte, payload: seq<Byte>) returns (packet: seq<Byte>)
    requires |payload| < TWO16
    ensures packet == Frame(kind, payload)
    ensures packet == [kind, |payload| % 256, |payload| / 256] + payload
  {
    CodesAreLittle(|payload|);
    packet := seq(3 + |payload|, _ => 0);
    var offset := 0;
    packet := Patch(packet, offset, [kind]);
    offset := 1;
    packet := Patch(packet, offset, Encode16(|payload|));
    offset := offset + 2;
    packet := Patch(packet, offset, payload);
  }

  /** What a receiver makes of a packet: it reads three bytes, and then as many as they say. */
  function Unframe(packet: seq<Byte>): (r: (Byte, seq<Byte>))
    requires |packet| >= 3 && |packet| >= 3 + Word16(packet, 1)
  {
    (packet[0], packet[3..3 + Word16(packet, 1)])
  }

  lemma FrameRoundTrip(kind: Byte, payload: seq<Byte>, rest: seq<Byte>)
    requires |payload| < TWO16
    ensures var packet := Frame(kind, payload) + rest;
            |packet| >= 3 + Word16(packet, 1) && Unframe(packet) == (kind, payload)
  {
    var code := Encode16(|payload|);
    var packet := Frame(kind, payload) + rest;
    assert packet[1] == code[0] && packet[2] == code[1];
    assert Word16(packet, 1) == Word16(code, 0);
    assert packet[3..3 + |payload|] == payload;
  }

  // ----- directory listings -----

  /** The length of a name's record as the packet counts it: the name, its end, and a length byte. */
  function PacketLength(names: seq<Name>): nat {
    if names == [] then 0 else PacketLength(names[..|names| - 1]) + |names[|names| - 1]| + 2
  }

  /** The one-byte length of a name with its end. */
  function ShortLength(name: Name): (n: nat)
    ensures n < 256 && n <= |name| + 1
  {
    (|name| + 1) % 256
  }

  /** What is written for a name: the one-byte length, and as many bytes of the name with its end. */
  function RecordOf(name: Name): (r: seq<Byte>)
    ensures |r| == 1 + ShortLength(name)
  {
    [ShortLength(name)] + (name + [NUL])[..ShortLength(name)]
  }

  /** The bytes that are written for a name: a longer one is cut to what its length in one byte says. */
  lemma RecordBytes(name: Name)
    ensures |name| <= 254 ==> RecordOf(name) == [|name| + 1] + name + [0]
    ensures RecordOf(name) == [(|name| + 1) % 256] + (name + [0])[..(|name| + 1) % 256]
  {
    assert |name| <= 254 ==> (name + [NUL])[..|name| + 1] == name + [NUL];
  }

  function Records(names: seq<Name>): seq<Byte> {
    if names == [] then [] else Records(names[..|names| - 1]) + RecordOf(names[|names| - 1])
  }

  lemma {:induction false} RecordsFit(names: seq<Name>, i: nat)
    requires i <= |names|
    ensures |Records(names[..i])| <= PacketLength(names[..i]) <= PacketLength(names)
    decreases |names|
  {
    if i == |names| {
      assert names[..i] == names;
      if i > 0 {
        RecordsFit(names[..i - 1], i - 1);
        assert names[..i - 1][..i - 1] == names[..i - 1];
      }
    } else {
      assert names[..|names| - 1][..i] == names[..i];
      RecordsFit(names[..|names| - 1], i);
    }
  }

  lemma RecordsStep(names: seq<Name>, i: nat)
    requires i < |names|
    ensures Records(names[..i + 1]) == Records(names[..i]) + RecordOf(names[i])
    ensures PacketLength(names[..i + 1]) == PacketLength(names[..i]) + |names[i]| + 2
  {
    assert names[..i + 1][..i] == names[..i];
  }

  /** The first loop of `serializar_readdir_Rta`: the length of the payload, in two bytes. */
  method PacketSize(names: seq<Name>) returns (length: nat)
    requires PacketLength(names) < TWO16
    ensures length == PacketLength(names)
  {
    hide PacketLength, Records;
    NoRecords(names);
    length := 0;
    var i := 0;
    while i < |names|
      invariant 0 <= i <= |names| && length == PacketLength(names[..i])
    {
      RecordsStep(names, i);
      RecordsFit(names, i + 1);
      assert length + |names[i]| + 1 + 1 == PacketLength(names[..i + 1]) < TWO16;
      length := (length + |names[i]| + 1 + 1) % TWO16;
      i := i + 1;
    }
    assert names[..|names|] == names;
  }

  /** `serializar_readdir_Rta`: the payload for a list of names.  The memory that it gets for the
      payload holds `junk`. */
  method EncodeNames(names: seq<Name>, junk: seq<Byte>) returns (payload: seq<Byte>)
    requires PacketLength(names) < TWO16 && |junk| == PacketLength(names)
    ensures |payload| == PacketLength(names)
    ensures |Records(names)| <= |payload| && payload == Records(names) + junk[|Records(names)|..]
  {
    hide Records, PacketLength, RecordOf, ShortLength;
    var length := PacketSize(names);
    payload := junk[..length];
    NoRecords(names);
    var offset, i := 0, 0;
    while i < |names|
      invariant 0 <= i <= |names| && offset == |Records(names[..i])| <= |payload| == |junk|
      invariant payload == Records(names[..i]) + junk[offset..]
    {
      RecordsStep(names, i);
      RecordsFit(names, i + 1);
      WriteRecord(payload, Records(names[..i]), junk, offset, names[i]);
      var size := ShortLength(names[i]);
      payload := Patch(payload, offset, [size]);
      offset := offset + 1;
      payload := Patch(payload, offset, (names[i] + [NUL])[..size]);
      offset := offset + size;
      i := i + 1;
    }
    assert names[..|names|] == names;
  }

  lemma NoRecords(names: seq<Name>)
    ensures Records(names[..0]) == [] && PacketLength(names[..0]) == 0
  {
  }

  lemma WriteRecord(payload: seq<Byte>, done: seq<Byte>, junk: seq<Byte>, offset: nat, name: Name)
    requires |payload| == |junk| && offset == |done| && offset + |RecordOf(name)| <= |junk|
    requires payload == done + junk[offset..]
    ensures var size := ShortLength(name);
            Patch(Patch(payload, offset, [size]), offset + 1, (name + [NUL])[..size])
            == done + RecordOf(name) + junk[offset + 1 + size..]
  {
    hide ShortLength;
  }

  datatype Option<T> = None | Some(value: T)

  /** The names that the client passes on, each with its ending zero; none if the last record runs over
      the end of the payload. */
  function Chunks(payload: seq<Byte>, off: nat): Option<seq<seq<Byte>>>
    requires off <= |payload|
    decreases |payload| - off
  {
    if off == |payload| then Some([])
    else
      var size := payload[off];
      if off + 1 + size > |payload| then None
      else match Chunks(payload, off + 1 + size)
        case None => None
        case Some(rest) => Some([payload[off + 1..off + 1 + size]] + rest)
  }

  /** Pieces, each after its length in one byte. */
  function Lengthed(chunks: seq<seq<Byte>>): seq<Byte> {
    if chunks == [] then [] else [|chunks[0]| % 256] + chunks[0] + Lengthed(chunks[1..])
  }

  lemma {:induction false} ChunksLengthed(payload: seq<Byte>, off: nat)
    requires off <= |payload| && Chunks(payload, off).Some?
    ensures var chunks := Chunks(payload, off).value;
            payload[off..] == Lengthed(chunks) && forall k :: 0 <= k < |chunks| ==> |chunks[k]| < 256
    decreases |payload| - off
  {
    hide Lengthed;
    LengthedNone();
    if off < |payload| {
      var size := payload[off];
      ChunksLengthed(payload, off + 1 + size);
      var chunk, rest := payload[off + 1..off + 1 + size], Chunks(payload, off + 1 + size).value;
      LengthedFirst(chunk, rest);
      assert Chunks(payload, off).value == [chunk] + rest;
      assert payload[off..] == [size] + chunk + payload[off + 1 + size..];
    }
  }

  lemma LengthedNone()
    ensures Lengthed([]) == []
  {
  }

  lemma LengthedFirst(chunk: seq<Byte>, rest: seq<seq<Byte>>)
    ensures Lengthed([chunk] + rest) == [|chunk| % 256] + chunk + Lengthed(rest)
  {
    assert ([chunk] + rest)[1..] == rest;
  }

  /** The loop of `fsc_readdir`, for a payload whose records end where it ends. */
  method DecodeNames(payload: seq<Byte>) returns (chunks: seq<seq<Byte>>)
    requires Chunks(payload, 0).Some?
    ensures Chunks(payload, 0) == Some(chunks)
    ensures payload == Lengthed(chunks) && forall k :: 0 <= k < |chunks| ==> |chunks[k]| < 256
  {
    ChunksLengthed(payload, 0);
    assert payload[0..] == payload;
    chunks := [];
    var off := 0;
    while off < |payload|
      invariant 0 <= off <= |payload| && Chunks(payload, off).Some?
      invariant Chunks(payload, 0).value == chunks + Chunks(payload, off).value
    {
      ghost var at := off;
      var size := payload[off];
      off := off + 1;
      var chunk := payload[off..off + size];
      off := off + size;
      assert Chunks(payload, at).value == [chunk] + Chunks(payload, off).value;
      chunks := chunks + [chunk];
    }
    assert Chunks(payload, off).value == [] && chunks + [] == chunks;
  }

  function Terminated(names: seq<Name>): seq<seq<Byte>> {
    seq(|names|, i requires 0 <= i < |names| => names[i] + [NUL])
  }

  /** The client gets the first records of a payload whatever follows them. */
  lemma {:induction false} ChunksPrefix(a: seq<Byte>, name: Name, b: seq<Byte>)
    ensures var payload := a + RecordOf(name) + b;
            Chunks(payload, |a|) == match Chunks(payload, |a| + |RecordOf(name)|)
                                    case None => None
                                    case Some(rest) => Some([(name + [NUL])[..ShortLength(name)]] + rest)
  {
    hide ShortLength;
    var payload, size := a + RecordOf(name) + b, ShortLength(name);
    assert payload[|a|] == size && payload[|a| + 1..|a| + 1 + size] == (name + [NUL])[..size];
  }

  /** From record `i` on, the client gets the pieces that were written and then what the rest gives. */
  lemma {:induction false} ChunksOfRecords(names: seq<Name>, tail: seq<Byte>, i: nat)
    requires i <= |names| && forall j :: i <= j < |names| ==> |names[j]| <= 254
    ensures |Records(names[..i])| <= |Records(names)|
    ensures var payload := Records(names) + tail;
            Chunks(payload, |Records(names[..i])|) == match Chunks(payload, |Records(names)|)
                                                      case None => None
                                                      case Some(rest) => Some(Terminated(names[i..]) + rest)
    decreases |names| - i
  {
    hide Records, Chunks, RecordOf;
    var payload := Records(names) + tail;
    if i == |names| {
      assert names[..i] == names && Terminated(names[i..]) == [];
      assert forall r: seq<seq<Byte>> :: [] + r == r;
    } else {
      ChunksOfRecords(names, tail, i + 1);
      RecordsStep(names, i);
      var rest := RecordsSplit(names, i + 1);
      assert payload == Records(names[..i]) + RecordOf(names[i]) + (rest + tail);
      ChunksPrefix(Records(names[..i]), names[i], rest + tail);
      assert (names[i] + [NUL])[..ShortLength(names[i])] == names[i] + [NUL];
      assert Terminated(names[i..]) == [names[i] + [NUL]] + Terminated(names[i + 1..]);
      forall r: seq<seq<Byte>>
        ensures Terminated(names[i..]) + r == [names[i] + [NUL]] + (Terminated(names[i + 1..]) + r) {
      }
    }
  }

  /** The records of the first names are a prefix of all the records. */
  lemma {:induction false} RecordsSplit(names: seq<Name>, i: nat) returns (rest: seq<Byte>)
    requires i <= |names|
    ensures Records(names) == Records(names[..i]) + rest
    decreases |names|
  {
    if i == |names| {
      rest := [];
      assert names[..i] == names;
    } else {
      assert names[..|names| - 1][..i] == names[..i];
      rest := RecordsSplit(names[..|names| - 1], i);
      rest := rest + RecordOf(names[|names| - 1]);
    }
  }

  lemma {:induction false} ExactLength(names: seq<Name>)
    requires forall j :: 0 <= j < |names| ==> |names[j]| <= 254
    ensures |Records(names)| == PacketLength(names)
  {
    if names != [] {
      ExactLength(names[..|names| - 1]);
    }
  }

  /** The payload as `EncodeNames` leaves it. */
  function Payload(names: seq<Name>, junk: seq<Byte>): seq<Byte>
    requires |junk| == PacketLength(names)
  {
    if |Records(names)| <= |junk| then Records(names) + junk[|Records(names)|..] else []
  }

  /** A list of names of up to 254 bytes each arrives as it was sent. */
  lemma NamesArrive(names: seq<Name>, junk: seq<Byte>)
    requires |junk| == PacketLength(names) && forall j :: 0 <= j < |names| ==> |names[j]| <= 254
    ensures Chunks(Payload(names, junk), 0) == Some(Terminated(names))
  {
    hide Records, PacketLength;
    ExactLength(names);
    NoRecords(names);
    ChunksOfRecords(names, [], 0);
    assert Payload(names, junk) == Records(names) + [] && names[0..] == names;
    assert Terminated(names) + [] == Terminated(names);
  }

  /** The first name that is longer does not arrive: its one-byte length is too small. */
  lemma {:induction false} LongNameLost(names: seq<Name>, tail: seq<Byte>, k: nat, i: nat)
    requires i <= k < |names| && |names[k]| > 254 && forall j :: i <= j < k ==> |names[j]| <= 254
    ensures |Records(names[..i])| <= |Records(names)|
    ensures var c := Chunks(Records(names) + tail, |Records(names[..i])|);
            c.Some? ==> |c.value| > k - i && |c.value[k - i]| != |names[k]| + 1
    decreases k - i
  {
    hide Records, RecordOf, Chunks, ShortLength;
    var payload := Records(names) + tail;
    RecordsStep(names, i);
    var rest := RecordsSplit(names, i + 1);
    assert payload == Records(names[..i]) + RecordOf(names[i]) + (rest + tail);
    ChunksPrefix(Records(names[..i]), names[i], rest + tail);
    var first, c := (names[i] + [NUL])[..ShortLength(names[i])], Chunks(payload, |Records(names[..i])|);
    if i < k {
      LongNameLost(names, tail, k, i + 1);
      if c.Some? {
        assert c.value[1..][k - i - 1] == c.value[k - i];
      }
    } else {
      LongIsCut(names[k]);
      assert c.Some? ==> c.value[0] == first;
    }
  }

  lemma LongIsCut(name: Name)
    requires |name| > 254
    ensures ShortLength(name) < |name| + 1
  {
  }

  /** Decoding undoes encoding, whatever the memory held before, exactly when no name is longer than
      254 bytes. */
  lemma NamesRoundTrip(names: seq<Name>)
    requires forall j :: 0 <= j < |names| ==> IsString(names[j])
    ensures (forall j :: 0 <= j < |names| ==> |names[j]| <= 254) <==>
            (forall junk: seq<Byte> :: |junk| == PacketLength(names) ==>
             Chunks(Payload(names, junk), 0) == Some(Terminated(names)))
  {
    hide Records, PacketLength, Chunks, Payload;
    if forall j :: 0 <= j < |names| ==> |names[j]| <= 254 {
      forall junk: seq<Byte> | |junk| == PacketLength(names)
        ensures Chunks(Payload(names, junk), 0) == Some(Terminated(names)) {
        NamesArrive(names, junk);
      }
    } else {
      var k := FirstLong(names);
      var junk: seq<Byte> := seq(PacketLength(names), _ => 0);
      RecordsFit(names, |names|);
      assert names[..|names|] == names;
      LongPayload(names, junk, k);
    }
  }

  lemma LongPayload(names: seq<Name>, junk: seq<Byte>, k: nat)
    requires |junk| == PacketLength(names) && k < |names| && |names[k]| > 254
    requires forall j :: 0 <= j < k ==> |names[j]| <= 254
    requires |Records(names)| <= |junk|
    ensures Chunks(Payload(names, junk), 0) != Some(Terminated(names))
  {
    hide Records, PacketLength, Chunks;
    NoRecords(names);
    LongNameLost(names, junk[|Records(names)|..], k, 0);
  }

  lemma {:induction false} FirstLong(names: seq<Name>) returns (k: nat)
    requires exists j :: 0 <= j < |names| && |names[j]| > 254
    ensures k < |names| && |names[k]| > 254 && forall j :: 0 <= j < k ==> |names[j]| <= 254
  {
    if |names[0]| > 254 {
      k := 0;
    } else {
      var j0 :| 0 <= j0 < |names| && |names[j0]| > 254;
      assert names[1..][j0 - 1] == names[j0];
      k := FirstLong(names[1..]);
      k := k + 1;
    }
  }

  // ----- write requests -----

  /** A write request: path, size of the data, data, offset. */
  datatype WriteRequest = WriteRequest(path: seq<Byte>, data: seq<Byte>, offset: nat)

  /** The payload: the path with its end, the size in a `size_t` of `w` bytes, the data, and the offset
      in four bytes. */
  function WritePayload(q: WriteRequest, w: nat): seq<Byte> {
    q.path + [NUL] + Little(|q.data|, w) + q.data + Little(q.offset, 4)
  }

  /** `serializar_Write_Pedido`: the fields one after the other. */
  method EncodeWrite(q: WriteRequest, w: nat) returns (payload: seq<Byte>)
    requires |WritePayload(q, w)| < TWO16
    ensures payload == WritePayload(q, w)
    ensures payload == q.path + [0] + Little(|q.data|, w) + q.data + Little(q.offset, 4)
  {
    hide Little;
    var length := |q.path| + 1 + 4 + w + |q.data|;
    payload := seq(length, _ => 0);
    payload := Patch(payload, 0, q.path + [NUL]);
    var offset := |q.path| + 1;
    assert payload[..offset] == q.path + [NUL];
    payload := Append(payload, q.path + [NUL], offset, Little(|q.data|, w));
    offset := offset + w;
    payload := Append(payload, q.path + [NUL] + Little(|q.data|, w), offset, q.data);
    offset := offset + |q.data|;
    payload := Append(payload, q.path + [NUL] + Little(|q.data|, w) + q.data, offset, Little(q.offset, 4));
    offset := offset + 4;
    assert payload[..offset] == payload;
  }

  /** The next field of a packet. */
  method Append(payload: seq<Byte>, ghost done: seq<Byte>, offset: nat, field: seq<Byte>) returns (payload': seq<Byte>)
    requires offset + |field| <= |payload| && payload[..offset] == done
    ensures |payload'| == |payload| && payload'[..offset + |field|] == done + field
  {
    payload' := Patch(payload, offset, field);
    assert payload'[..offset] == payload[..offset];
  }

  /** The position of the first zero byte, or the end. */
  function End(s: seq<Byte>): (n: nat)
    ensures n <= |s| && (n < |s| ==> s[n] == NUL) && forall k :: 0 <= k < n ==> s[k] != NUL
  {
    if s == [] || s[0] == NUL then 0 else 1 + End(s[1..])
  }

  /** The fields of a payload that is long enough for what it says. */
  function ReadWrite(payload: seq<Byte>, w: nat): Option<WriteRequest> {
    var at := End(payload) + 1;
    if at + w > |payload| then None
    else
      var size := Number(payload[at..at + w]);
      if at + w + size + 4 > |payload| then None
      else Some(WriteRequest(payload[..at - 1], payload[at + w..at + w + size],
                             Number(payload[at + w + size..at + w + size + 4])))
  }

  /** `deserializar_Write_Pedido`. */
  method DecodeWrite(payload: seq<Byte>, w: nat) returns (q: WriteRequest)
    requires ReadWrite(payload, w).Some? && |payload| < TWO16
    ensures ReadWrite(payload, w) == Some(q)
    ensures 0 !in q.path && q.path + [0] <= payload
    ensures var at := |q.path| + 1;
            && at + w + |q.data| + 4 <= |payload| && |q.data| == Number(payload[at..at + w])
            && q.data == payload[at + w..at + w + |q.data|]
            && q.offset == Number(payload[at + w + |q.data|..at + w + |q.data| + 4])
  {
    hide Number;
    var length := 1;
    var p := 0;
    while payload[p] != NUL
      invariant length == p + 1 && p <= End(payload) < |payload|
      decreases |payload| - p
    {
      p := p + 1;
      length := length + 1;
    }
    var off := length;
    var path := payload[..off - 1];
    var size := Number(payload[off..off + w]);
    off := off + w;
    var data := payload[off..off + size];
    off := off + size;
    q := WriteRequest(path, data, Number(payload[off..off + 4]));
  }

  lemma {:induction false} EndOfString(s: seq<Byte>, rest: seq<Byte>)
    requires IsString(s)
    ensures End(s + [NUL] + rest) == |s|
  {
    if s != [] {
      assert (s + [NUL] + rest)[1..] == s[1..] + [NUL] + rest;
      EndOfString(s[1..], rest);
    } else {
      assert (s + [NUL] + rest)[0] == NUL;
    }
  }

  /** A write request arrives as it was sent exactly when its offset fits in four bytes. */
  lemma WriteRoundTrip(q: WriteRequest, w: nat)
    requires IsString(q.path) && |q.data| < Power(w)
    ensures ReadWrite(WritePayload(q, w), w).Some?
    ensures ReadWrite(WritePayload(q, w), w) == Some(q) <==> q.offset < TWO32
  {
    hide Little, Number, WritePayload;
    WriteFields(q, w);
    NumberBack(|q.data|, w);
    NumberBack(q.offset, 4);
    assert Power(4) == TWO32;
  }

  /** Where the fields of a write request are in its payload. */
  lemma WriteFields(q: WriteRequest, w: nat)
    requires IsString(q.path)
    ensures var payload, at := WritePayload(q, w), |q.path| + 1;
            && |payload| == at + w + |q.data| + 4 && End(payload) == |q.path| && payload[..at - 1] == q.path
            && payload[at..at + w] == Little(|q.data|, w) && payload[at + w..at + w + |q.data|] == q.data
            && payload[at + w + |q.data|..at + w + |q.data| + 4] == Little(q.offset, 4)
  {
    hide Little, End;
    var size, off := Little(|q.data|, w), Little(q.offset, 4);
    assert WritePayload(q, w) == q.path + [NUL] + (size + q.data + off);
    EndOfString(q.path, size + q.data + off);
  }
}
