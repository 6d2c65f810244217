/** The scatter/gather output queue of a connection (memcached-1.6/daemon/memcached.c): messages over
    one growing list of vectors, built by `add_msghdr` and `add_iov`, sent piecemeal by `transmit`. */
module OutputQueue {
  import opened Bytes

  const UDP_MAX_PAYLOAD_SIZE: nat := 1400
  const UDP_HEADER_SIZE: nat := 8
  const IOV_MAX: nat := 1024
  /** What is in the place for a UDP header until it is filled in. */
  const ZEROS: seq<Byte> := [0, 0, 0, 0, 0, 0, 0, 0]

  /** A vector: the bytes it points to, and whether it is the place kept for a UDP header. */
  datatype Vec = Vec(head: bool, data: seq<Byte>)

  /** A message header: `msg_iov` points to vector `start` of the list as it was at the
      `generation`-th reallocation, and `count` is `msg_iovlen`. */
  datatype Msg = Msg(generation: nat, start: nat, count: nat)

  /** The bytes of some vectors, in order. */
  function Flat(vecs: seq<Vec>): seq<Byte> {
    if vecs == [] then [] else Flat(vecs[..|vecs| - 1]) + vecs[|vecs| - 1].data
  }

  /** The bytes that are not header places. */
  function Payload(vecs: seq<Vec>): seq<Byte> {
    if vecs == [] then []
    else Payload(vecs[..|vecs| - 1]) + if vecs[|vecs| - 1].head then [] else vecs[|vecs| - 1].data
  }

  lemma FlatAppend(vecs: seq<Vec>, v: Vec)
    ensures Flat(vecs + [v]) == Flat(vecs) + v.data
    ensures Payload(vecs + [v]) == Payload(vecs) + if v.head then [] else v.data
  {
    assert (vecs + [v])[..|vecs + [v]| - 1] == vecs;
  }

  lemma {:induction false} FlatConcat(a: seq<Vec>, b: seq<Vec>)
    ensures Flat(a + b) == Flat(a) + Flat(b)
    decreases |b|
  {
    if b == [] {
      assert a + b == a;
    } else {
      var init, last := b[..|b| - 1], b[|b| - 1];
      assert a + b == (a + init) + [last] && b == init + [last];
      FlatConcat(a, init);
      FlatAppend(a + init, last);
      FlatAppend(init, last);
    }
  }

  lemma FlatFirst(vecs: seq<Vec>)
    requires vecs != []
    ensures Flat(vecs) == vecs[0].data + Flat(vecs[1..])
  {
    assert vecs == [vecs[0]] + vecs[1..] && [vecs[0]] == [] + [vecs[0]];
    FlatConcat([vecs[0]], vecs[1..]);
    FlatAppend([], vecs[0]);
  }

  /** The sum of the vector counts. */
  function Total(msgs: seq<Msg>): nat {
    if msgs == [] then 0 else Total(msgs[..|msgs| - 1]) + msgs[|msgs| - 1].count
  }

  /** Every message points into the current list, where the vectors of the earlier ones end. */
  ghost predicate Laid(msgs: seq<Msg>, generation: nat) {
    forall i :: 0 <= i < |msgs| ==> msgs[i].generation == generation && msgs[i].start == Total(msgs[..i])
  }

  lemma {:induction false} TotalSplit(msgs: seq<Msg>, i: nat)
    requires i <= |msgs|
    ensures Total(msgs[..i]) <= Total(msgs) && (i < |msgs| ==> Total(msgs[..i]) + msgs[i].count <= Total(msgs))
    decreases |msgs|
  {
    if i == |msgs| {
      assert msgs[..i] == msgs;
    } else if i < |msgs| - 1 {
      assert msgs[..|msgs| - 1][..i] == msgs[..i];
      TotalSplit(msgs[..|msgs| - 1], i);
    }
  }

  function VecsOf(iov: seq<Vec>, m: Msg): seq<Vec>
    requires m.start + m.count <= |iov|
  {
    iov[m.start..m.start + m.count]
  }

  function Vectors(iov: seq<Vec>, m: Msg): seq<Vec> {
    if m.start + m.count <= |iov| then VecsOf(iov, m) else []
  }

  /** The messages, each as its vectors. */
  function Parts(iov: seq<Vec>, msgs: seq<Msg>): (parts: seq<seq<Vec>>)
    ensures |parts| == |msgs|
  {
    seq(|msgs|, i requires 0 <= i < |msgs| => Vectors(iov, msgs[i]))
  }

  /** A finished message: a UDP datagram starts with the place for its header and fits in the limit. */
  ghost predicate MessageOk(udp: bool, vecs: seq<Vec>) {
    && |vecs| <= IOV_MAX
    && if udp then
         && |vecs| > 0 && vecs[0].head && |vecs[0].data| == UDP_HEADER_SIZE
         && (forall k :: 0 < k < |vecs| ==> !vecs[k].head)
         && |Flat(vecs)| <= UDP_MAX_PAYLOAD_SIZE
       else forall k :: 0 <= k < |vecs| ==> !vecs[k].head
  }

  /** What holds while messages are built; the last one may still be without vectors.  The first one
      keeps to the UDP limit over TCP too. */
  ghost predicate Built(udp: bool, iov: seq<Vec>, iovused: nat, generation: nat, msgs: seq<Msg>, msgbytes: nat) {
    && msgs != [] && Laid(msgs, generation) && Total(msgs) == iovused <= |iov|
    && (forall i :: 0 <= i < |msgs| ==> msgs[i].start + msgs[i].count <= iovused)
    && (forall i :: 0 <= i < |msgs| && (i < |msgs| - 1 || msgs[i].count > 0) ==> MessageOk(udp, VecsOf(iov, msgs[i])))
    && msgbytes == |Flat(VecsOf(iov, msgs[|msgs| - 1]))| && |Flat(VecsOf(iov, msgs[0]))| <= UDP_MAX_PAYLOAD_SIZE
  }

  /** The list after another vector is put at the end of the last message. */
  function Longer(msgs: seq<Msg>): seq<Msg>
    requires msgs != []
  {
    msgs[|msgs| - 1 := msgs[|msgs| - 1].(count := msgs[|msgs| - 1].count + 1)]
  }

  lemma LongerLaid(msgs: seq<Msg>, generation: nat)
    requires msgs != [] && Laid(msgs, generation)
    ensures Laid(Longer(msgs), generation) && Total(Longer(msgs)) == Total(msgs) + 1
  {
    var last := |msgs| - 1;
    assert Longer(msgs)[..last] == msgs[..last];
    forall i | 0 <= i < |msgs| ensures Longer(msgs)[..i] == msgs[..i] {
    }
  }

  /** Putting a vector keeps what is built, if it goes with the last message. */
  lemma PutKeeps(udp: bool, iov: seq<Vec>, iovused: nat, generation: nat, msgs: seq<Msg>, msgbytes: nat, v: Vec)
    requires Built(udp, iov, iovused, generation, msgs, msgbytes) && iovused < |iov|
    requires msgs[|msgs| - 1].count < IOV_MAX && (udp || |msgs| == 1 ==> msgbytes + |v.data| <= UDP_MAX_PAYLOAD_SIZE)
    requires v.head <==> udp && msgs[|msgs| - 1].count == 0
    requires v.head ==> |v.data| == UDP_HEADER_SIZE
    ensures Built(udp, iov[iovused := v], iovused + 1, generation, Longer(msgs), msgbytes + |v.data|)
    ensures Payload(iov[iovused := v][..iovused + 1]) == Payload(iov[..iovused]) + if v.head then [] else v.data
    ensures Flat(iov[iovused := v][..iovused + 1]) == Flat(iov[..iovused]) + v.data
    ensures var parts := Parts(iov, msgs);
            Parts(iov[iovused := v], Longer(msgs)) == parts[|parts| - 1 := parts[|parts| - 1] + [v]]
  {
    hide Flat, Payload, Total, Laid, MessageOk;
    var iov', msgs', last := iov[iovused := v], Longer(msgs), |msgs| - 1;
    LongerLaid(msgs, generation);
    LastEnds(msgs, generation);
    assert iov'[..iovused + 1] == iov[..iovused] + [v];
    FlatAppend(iov[..iovused], v);
    assert VecsOf(iov', msgs'[last]) == VecsOf(iov, msgs[last]) + [v];
    FlatAppend(VecsOf(iov, msgs[last]), v);
    MessageLonger(udp, VecsOf(iov, msgs[last]), v);
    forall i | 0 <= i < last ensures VecsOf(iov', msgs'[i]) == VecsOf(iov, msgs[i]) {
    }
  }

  lemma MessageLonger(udp: bool, vecs: seq<Vec>, v: Vec)
    requires |vecs| < IOV_MAX && (|vecs| > 0 ==> MessageOk(udp, vecs))
    requires (v.head <==> udp && |vecs| == 0) && (v.head ==> |v.data| == UDP_HEADER_SIZE)
    requires udp ==> |Flat(vecs + [v])| <= UDP_MAX_PAYLOAD_SIZE
    ensures MessageOk(udp, vecs + [v])
  {
    hide Flat;
  }

  lemma LastEnds(msgs: seq<Msg>, generation: nat)
    requires msgs != [] && Laid(msgs, generation)
    ensures msgs[|msgs| - 1].start + msgs[|msgs| - 1].count == Total(msgs)
  {
  }

  /** A new message without vectors. */
  lemma NewKeeps(udp: bool, iov: seq<Vec>, iovused: nat, generation: nat, msgs: seq<Msg>, msgbytes: nat)
    requires msgs == [] ==> iovused == 0
    requires msgs != [] ==> Built(udp, iov, iovused, generation, msgs, msgbytes) && msgs[|msgs| - 1].count > 0
    requires iovused <= |iov|
    ensures Built(udp, iov, iovused, generation, msgs + [Msg(generation, iovused, 0)], 0)
    ensures Parts(iov, msgs + [Msg(generation, iovused, 0)]) == Parts(iov, msgs) + [[]]
  {
    hide Flat, Total, Laid, MessageOk;
    var m := Msg(generation, iovused, 0);
    NoTotal(msgs, m);
    LaidMore(msgs, generation, m);
    assert VecsOf(iov, m) == [];
    EmptyFlat();
  }

  lemma LaidMore(msgs: seq<Msg>, generation: nat, m: Msg)
    requires (msgs == [] || Laid(msgs, generation)) && m.generation == generation && m.start == Total(msgs)
    ensures Laid(msgs + [m], generation)
  {
    hide Total;
    var msgs' := msgs + [m];
    assert msgs'[..|msgs|] == msgs;
    forall i | 0 <= i < |msgs| ensures msgs'[..i] == msgs[..i] {
    }
  }

  lemma NoTotal(msgs: seq<Msg>, m: Msg)
    requires m.count == 0
    ensures Total([]) == 0 && Total(msgs + [m]) == Total(msgs)
  {
    assert (msgs + [m])[..|msgs|] == msgs;
  }

  lemma EmptyFlat()
    ensures Flat([]) == [] && Payload([]) == []
  {
  }

  /** `ensure_iov_space`, the loop: the messages pointed to a list that has moved. */
  function Repointed(msgs: seq<Msg>, generation: nat): (r: seq<Msg>)
    ensures |r| == |msgs|
    ensures forall i :: 0 <= i < |msgs| ==> r[i] == Msg(generation, Total(msgs[..i]), msgs[i].count)
  {
    seq(|msgs|, i requires 0 <= i < |msgs| => Msg(generation, Total(msgs[..i]), msgs[i].count))
  }

  lemma {:induction false} SameTotal(a: seq<Msg>, b: seq<Msg>)
    requires |a| == |b| && forall i :: 0 <= i < |a| ==> a[i].count == b[i].count
    ensures Total(a) == Total(b)
  {
    if a != [] {
      SameTotal(a[..|a| - 1], b[..|b| - 1]);
    }
  }

  /** Moving the list to a longer place, and pointing the messages there, changes nothing that is built. */
  lemma MoveKeeps(udp: bool, iov: seq<Vec>, iov': seq<Vec>, iovused: nat, generation: nat, generation': nat,
                  msgs: seq<Msg>, msgbytes: nat)
    requires Built(udp, iov, iovused, generation, msgs, msgbytes) && |iov'| >= |iov|
    requires iov'[..iovused] == iov[..iovused]
    ensures Built(udp, iov', iovused, generation', Repointed(msgs, generation'), msgbytes)
    ensures Parts(iov', Repointed(msgs, generation')) == Parts(iov, msgs)
  {
    hide Flat, Total;
    var msgs' := Repointed(msgs, generation');
    SameTotal(msgs', msgs);
    forall i | 0 <= i < |msgs| ensures Total(msgs'[..i]) == Total(msgs[..i]) {
      SameTotal(msgs'[..i], msgs[..i]);
    }
    forall i | 0 <= i < |msgs| ensures VecsOf(iov', msgs'[i]) == VecsOf(iov, msgs[i]) {
      assert msgs'[i].start == msgs[i].start && msgs'[i].count == msgs[i].count;
      assert msgs[i].start + msgs[i].count <= iovused;
      assert VecsOf(iov', msgs'[i]) == iov'[..iovused][msgs[i].start..msgs[i].start + msgs[i].count];
      assert VecsOf(iov, msgs[i]) == iov[..iovused][msgs[i].start..msgs[i].start + msgs[i].count];
    }
  }

  lemma TotalStep(msgs: seq<Msg>, i: nat)
    requires i < |msgs|
    ensures Total(msgs[..i + 1]) == Total(msgs[..i]) + msgs[i].count
  {
    assert msgs[..i + 1][..i] == msgs[..i];
  }

  /** The bytes of the messages, in order. */
  function Pending(iov: seq<Vec>, msgs: seq<Msg>): seq<Byte> {
    if msgs == [] then [] else Flat(Vectors(iov, msgs[0])) + Pending(iov, msgs[1..])
  }

  /** What is left of a message, and whether all its vectors have been sent. */
  datatype Message = Message(finished: bool, bytes: seq<Byte>)

  function MessageOf(iov: seq<Vec>, m: Msg): Message {
    Message(m.count == 0, Flat(Vectors(iov, m)))
  }

  function MessagesOf(iov: seq<Vec>, msgs: seq<Msg>): seq<Message> {
    seq(|msgs|, i requires 0 <= i < |msgs| => MessageOf(iov, msgs[i]))
  }

  function AllBytes(queue: seq<Message>): seq<Byte> {
    if queue == [] then [] else queue[0].bytes + AllBytes(queue[1..])
  }

  lemma {:induction false} PendingIs(iov: seq<Vec>, msgs: seq<Msg>)
    ensures Pending(iov, msgs) == AllBytes(MessagesOf(iov, msgs))
  {
    if msgs != [] {
      PendingIs(iov, msgs[1..]);
      assert MessagesOf(iov, msgs)[1..] == MessagesOf(iov, msgs[1..]);
    }
  }

  /** A finished message at the front is passed over. */
  function Passed(queue: seq<Message>): seq<Message> {
    if queue != [] && queue[0].finished then queue[1..] else queue
  }

  /** How much a `sendmsg` that answers `res` takes of a message of `size` bytes. */
  function Taken(res: int, size: nat): (n: nat)
    ensures n <= size
  {
    if res <= 0 then 0 else if res < size then res else size
  }

  /** What the next `sendmsg` takes. */
  function Took(queue: seq<Message>, res: int): seq<Byte> {
    var now := Passed(queue);
    if now == [] then [] else now[0].bytes[..Taken(res, |now[0].bytes|)]
  }

  /** What is left then. */
  function After(queue: seq<Message>, res: int): seq<Message> {
    var now := Passed(queue);
    if now == [] || Taken(res, |now[0].bytes|) == 0 then now
    else
      var bytes, n := now[0].bytes, Taken(res, |now[0].bytes|);
      [Message(n == |bytes|, bytes[n..])] + now[1..]
  }

  /** Messages that point into the current list, one after the other without overlap. */
  ghost predicate Spread(iov: seq<Vec>, generation: nat, msgs: seq<Msg>) {
    && (forall i :: 0 <= i < |msgs| ==> msgs[i].generation == generation && msgs[i].start + msgs[i].count <= |iov|)
    && (forall i, j :: 0 <= i < j < |msgs| ==> msgs[i].start + msgs[i].count <= msgs[j].start)
  }

  lemma BuiltSpread(udp: bool, iov: seq<Vec>, iovused: nat, generation: nat, msgs: seq<Msg>, msgbytes: nat)
    requires Built(udp, iov, iovused, generation, msgs, msgbytes)
    ensures Spread(iov, generation, msgs)
  {
    hide Flat, Total, MessageOk;
    forall i, j | 0 <= i < j < |msgs| ensures msgs[i].start + msgs[i].count <= msgs[j].start {
      assert msgs[..j][..i] == msgs[..i] && msgs[..j][i] == msgs[i];
      TotalSplit(msgs[..j], i);
    }
  }

  /** What is pending before anything is sent is what was queued. */
  lemma {:induction false} PendingBuilt(udp: bool, iov: seq<Vec>, iovused: nat,
                                        generation: nat, msgs: seq<Msg>, msgbytes: nat, i: nat)
    requires Built(udp, iov, iovused, generation, msgs, msgbytes) && i <= |msgs|
    ensures Total(msgs[..i]) <= iovused && Pending(iov, msgs[i..]) == Flat(iov[Total(msgs[..i])..iovused])
    decreases |msgs| - i
  {
    hide Flat, MessageOk, Total;
    TotalSplit(msgs, i);
    if i == |msgs| {
      assert msgs[..i] == msgs;
      EmptyFlat();
      assert iov[iovused..iovused] == [];
    } else {
      var start, end := Total(msgs[..i]), Total(msgs[..i + 1]);
      TotalStep(msgs, i);
      PendingBuilt(udp, iov, iovused, generation, msgs, msgbytes, i + 1);
      assert msgs[i..][1..] == msgs[i + 1..];
      assert iov[start..iovused] == iov[start..end] + iov[end..iovused];
      FlatConcat(iov[start..end], iov[end..iovused]);
    }
  }

  /** Over TCP all bytes are payload. */
  lemma {:induction false} NoHeads(vecs: seq<Vec>)
    requires forall k :: 0 <= k < |vecs| ==> !vecs[k].head
    ensures Flat(vecs) == Payload(vecs)
  {
    if vecs != [] {
      NoHeads(vecs[..|vecs| - 1]);
    }
  }

  /** Changing a vector before the first of the messages does not change their bytes. */
  lemma {:induction false} PendingFrame(iov: seq<Vec>, msgs: seq<Msg>, at: nat, v: Vec)
    requires at < |iov| && forall i :: 0 <= i < |msgs| ==> msgs[i].start > at
    ensures Pending(iov[at := v], msgs) == Pending(iov, msgs)
  {
    if msgs != [] {
      assert Vectors(iov[at := v], msgs[0]) == Vectors(iov, msgs[0]);
      PendingFrame(iov, msgs[1..], at, v);
    }
  }

  /** A message that takes no more: it has all the vectors it may have, or, over UDP and in the first message, all
      the bytes. */
  ghost predicate Filled(udp: bool, i: int, vecs: seq<Vec>) {
    |vecs| == 1024 || ((udp || i == 0) && |Flat(vecs)| == 1400)
  }

  /** Every message but the last is filled. */
  ghost predicate Packed(udp: bool, parts: seq<seq<Vec>>) {
    forall i :: 0 <= i < |parts| - 1 ==> Filled(udp, i, parts[i])
  }

  /** One vector more fits in the last message. */
  ghost predicate FitsIn(udp: bool, parts: seq<seq<Vec>>, size: nat) {
    && parts != []
    && var last := parts[|parts| - 1];
       |last| < 1024 && (udp || |parts| == 1 ==> |Flat(last)| < 1400 && |Flat(last)| + size <= 1400)
  }

  function OneMore(parts: seq<seq<Vec>>, v: Vec): (more: seq<seq<Vec>>)
    requires parts != []
    ensures |more| == |parts|
  {
    parts[|parts| - 1 := parts[|parts| - 1] + [v]]
  }

  /** Vector `k` of message `i` is new. */
  predicate IsNew(before: seq<seq<Vec>>, after: seq<seq<Vec>>, i: nat, k: nat) {
    i < |after| && k < |after[i]| && i + 1 >= |before| && (i + 1 == |before| ==> i < |before| && k >= |before[i]|)
  }

  /** Vectors have been added at the end: a message was started only when the one before was filled, and a buffer was
      cut only where its message had 1400 bytes.  When `done`, the last vector ends the buffer. */
  ghost predicate Extended(udp: bool, before: seq<seq<Vec>>, after: seq<seq<Vec>>, done: bool) {
    && 0 < |before| <= |after| && after[..|before| - 1] == before[..|before| - 1]
    && before[|before| - 1] <= after[|before| - 1]
    && (forall i :: |before| - 1 <= i < |after| - 1 ==> Filled(udp, i, after[i]))
    && (forall i: nat, k: nat {:trigger IsNew(before, after, i, k)} ::
          IsNew(before, after, i, k) && !after[i][k].head && !(done && i == |after| - 1 && k == |after[i]| - 1) ==>
            CutFull(udp, i, after[i][..k + 1]))
  }

  /** These are 1400 bytes of a message with that limit, or of the one after the first. */
  ghost predicate CutFull(udp: bool, i: nat, vecs: seq<Vec>) {
    (udp || i <= 1) && |Flat(vecs)| == 1400
  }

  lemma ExtendedSelf(udp: bool, parts: seq<seq<Vec>>)
    requires parts != []
    ensures Extended(udp, parts, parts, false)
  {
    hide CutFull, Filled;
  }

  lemma ExtendedStart(udp: bool, before: seq<seq<Vec>>, after: seq<seq<Vec>>, first: seq<Vec>)
    requires Extended(udp, before, after, false) && Filled(udp, |after| - 1, after[|after| - 1])
    requires forall k :: 0 <= k < |first| ==> first[k].head
    ensures Extended(udp, before, after + [first], false)
  {
    hide CutFull, Filled;
    var after' := after + [first];
    assert after'[..|before| - 1] == after[..|before| - 1];
    forall i: nat, k: nat | IsNew(before, after', i, k) && !after'[i][k].head
      ensures CutFull(udp, i, after'[i][..k + 1]) {
      assert IsNew(before, after, i, k);
    }
  }

  lemma ExtendedPiece(udp: bool, before: seq<seq<Vec>>, after: seq<seq<Vec>>, v: Vec, done: bool)
    requires Extended(udp, before, after, false) && !v.head
    requires done || ((udp || |after| <= 2) && |Flat(after[|after| - 1])| + |v.data| == 1400)
    ensures Extended(udp, before, OneMore(after, v), done)
  {
    hide Flat, Filled, CutFull;
    var after', last := OneMore(after, v), |after| - 1;
    PieceFull(udp, last, after[last], v);
    assert after'[..|before| - 1] == after[..|before| - 1];
    forall i: nat, k: nat | IsNew(before, after', i, k) && !after'[i][k].head
                            && !(done && i == last && k == |after'[i]| - 1)
      ensures CutFull(udp, i, after'[i][..k + 1]) {
      if i == last && k == |after[i]| {
        assert after'[i][..k + 1] == after[i] + [v];
      } else {
        assert IsNew(before, after, i, k) && after'[i][..k + 1] == after[i][..k + 1];
      }
    }
  }

  lemma PieceFull(udp: bool, i: nat, vecs: seq<Vec>, v: Vec)
    ensures (udp || i <= 1) && |Flat(vecs)| + |v.data| == 1400 ==> CutFull(udp, i, vecs + [v])
  {
    FlatAppend(vecs, v);
  }

  lemma ExtendedPacked(udp: bool, before: seq<seq<Vec>>, after: seq<seq<Vec>>)
    requires Extended(udp, before, after, true) && Packed(udp, before)
    ensures Packed(udp, after)
  {
    hide CutFull, Filled;
    forall i | 0 <= i < |after| - 1 ensures Filled(udp, i, after[i]) {
      if i < |before| - 1 {
        assert after[..|before| - 1][i] == before[..|before| - 1][i];
      }
    }
  }

  datatype Outcome = Complete | Incomplete | SoftError | HardError

  class Conn {
    const udp: bool
    /** The vectors; the length is `iovsize`. */
    var iov: seq<Vec>
    var iovused: nat
    /** How often the list of vectors has moved. */
    var generation: nat
    /** The messages; the length is `msgsize`. */
    var msglist: seq<Msg>
    var msgused: nat
    var msgcurr: nat
    /** Bytes in the message that is being built. */
    var msgbytes: nat

    constructor (udp: bool, iovsize: nat, msgsize: nat)
      requires iovsize > 0 && msgsize > 0
      ensures this.udp == udp && Empty()
    {
      this.udp := udp;
      iov, iovused, generation := seq(iovsize, _ => Vec(false, [])), 0, 0;
      msglist, msgused, msgcurr, msgbytes := seq(msgsize, _ => Msg(0, 0, 0)), 0, 0, 0;
    }

    /** Nothing is queued. */
    predicate Empty()
      reads this
    {
      |iov| > 0 && |msglist| > 0 && iovused == 0 && msgused == 0 && msgcurr == 0
    }

    /** Messages are being built. */
    ghost predicate Open()
      reads this
    {
      && 0 < msgused <= |msglist| && |iov| > 0 && iovused <= |iov| && msgcurr == 0
      && Built(udp, iov, iovused, generation, msglist[..msgused], msgbytes)
    }

    /** A UDP message that is being built has its header place. */
    ghost predicate Ready()
      reads this
    {
      Open() && (udp ==> msglist[msgused - 1].count > 0)
    }

    /** What has been queued, header places left out. */
    ghost function Queued(): seq<Byte>
      requires iovused <= |iov|
      reads this
    {
      Payload(iov[..iovused])
    }

    /** The messages that are being built. */
    ghost function Building(): (parts: seq<seq<Vec>>)
      requires msgused <= |msglist|
      reads this
      ensures |parts| == msgused
    {
      Parts(iov, msglist[..msgused])
    }

    lemma QueuedIs()
      requires iovused <= |iov|
      ensures Queued() == Payload(iov[..iovused])
    {
    }

    /** Points all messages at the list of vectors where it is now. */
    method Repoint()
      requires msgused <= |msglist|
      modifies this`msglist
      ensures |msglist| == |old(msglist)| && msglist[..msgused] == Repointed(old(msglist[..msgused]), generation)
    {
      hide Total, Repointed;
      ghost var msgs := msglist[..msgused];
      EmptyTotal(msgs);
      var i, iovnum := 0, 0;
      while i < msgused
        invariant 0 <= i <= msgused <= |msglist| && |msglist| == |old(msglist)| && iovnum == Total(msgs[..i])
        invariant forall j :: 0 <= j < i ==> msglist[j] == Repointed(msgs, generation)[j]
        invariant forall j :: i <= j < msgused ==> msglist[j] == msgs[j]
      {
        TotalStep(msgs, i);
        msglist := msglist[i := Msg(generation, iovnum, msglist[i].count)];
        iovnum := iovnum + msglist[i].count;
        i := i + 1;
      }
    }

    static lemma EmptyTotal(msgs: seq<Msg>)
      ensures Total(msgs[..0]) == 0
    {
    }

    /** `ensure_iov_space`: makes room for one more vector. */
    method EnsureSpace()
      requires Open()
      modifies this`iov, this`generation, this`msglist
      ensures Open() && iovused < |iov| && Queued() == old(Queued()) && Building() == old(Building())
      ensures |iov| == old(if iovused >= |iov| then 2 * |iov| else |iov|)
      ensures msglist[msgused - 1].count == old(msglist[msgused - 1].count) && |msglist| == |old(msglist)|
    {
      hide Built, Payload, Total, Parts;
      if iovused >= |iov| {
        ghost var before, msgs := iov, msglist[..msgused];
        iov, generation := iov + seq(|iov|, _ => Vec(false, [])), generation + 1;
        Repoint();
        assert msglist[..msgused][msgused - 1] == msglist[msgused - 1];
        assert iov[..iovused] == before[..iovused];
        MoveKeeps(udp, before, iov, iovused, old(generation), generation, msgs, msgbytes);
      }
    }

    /** Fills the next vector and counts it to the last message. */
    method PutVec(v: Vec)
      requires Open() && iovused < |iov| && msglist[msgused - 1].count < IOV_MAX
      requires udp || msgused == 1 ==> msgbytes + |v.data| <= UDP_MAX_PAYLOAD_SIZE
      requires v.head <==> udp && msglist[msgused - 1].count == 0
      requires v.head ==> |v.data| == UDP_HEADER_SIZE
      modifies this`iov, this`iovused, this`msglist, this`msgbytes
      ensures Ready() && Queued() == old(Queued()) + if v.head then [] else v.data
      ensures Building() == OneMore(old(Building()), v) && |msglist| == |old(msglist)|
      ensures msgbytes == old(msgbytes) + |v.data| && msglist[msgused - 1].count == old(msglist[msgused - 1].count) + 1
    {
      hide Built, Payload, Parts;
      ghost var msgs := msglist[..msgused];
      PutKeeps(udp, iov, iovused, generation, msgs, msgbytes, v);
      iov := iov[iovused := v];
      msgbytes := msgbytes + |v.data|;
      iovused := iovused + 1;
      msglist := msglist[msgused - 1 := msglist[msgused - 1].(count := msglist[msgused - 1].count + 1)];
      assert msglist[..msgused] == Longer(msgs);
    }

    /** A message without vectors at the end of the list, which is doubled if it is full. */
    method StartMessage()
      requires Empty() || (Open() && msglist[msgused - 1].count > 0)
      modifies this`msglist, this`msgused, this`msgbytes
      ensures Open() && msgused == old(msgused) + 1 && msgbytes == 0 && msglist[msgused - 1].count == 0
      ensures |msglist| == old(if msgused == |msglist| then 2 * |msglist| else |msglist|)
      ensures Queued() == old(Payload(iov[..iovused]))
      ensures Building() == old(Parts(iov, msglist[..msgused])) + [[]]
    {
      hide Built, Payload, Parts;
      if msgused == |msglist| {
        msglist := msglist + seq(|msglist|, _ => Msg(0, 0, 0));
      }
      ghost var msgs := msglist[..msgused];
      assert msgs == old(msglist[..msgused]);
      NewKeeps(udp, iov, iovused, generation, msgs, msgbytes);
      msglist := msglist[msgused := Msg(generation, iovused, 0)];
      msgbytes := 0;
      msgused := msgused + 1;
      assert msglist[..msgused] == msgs + [Msg(generation, iovused, 0)];
    }

    /** `add_msghdr`: starts a message, with the place for the header if it is a UDP one.  The program
        calls `add_iov` for that place; with an empty message that call only puts one vector. */
    method AddMsghdr()
      requires Empty() || (Open() && msglist[msgused - 1].count > 0)
      modifies this
      ensures Ready() && msgused == old(msgused) + 1 && old(iovused) <= |old(iov)|
      ensures |msglist| == old(if msgused == |msglist| then 2 * |msglist| else |msglist|)
      ensures Queued() == old(Payload(iov[..iovused]))
      ensures Building() == old(Parts(iov, msglist[..msgused])) + [if udp then [Vec(true, ZEROS)] else []]
      ensures msgbytes == (if udp then 8 else 0) && msglist[msgused - 1].count == (if udp then 1 else 0)
    {
      hide Built, Payload, Parts, Conn.Queued, Conn.Building;
      StartMessage();
      if udp {
        ghost var parts := Building();
        EnsureSpace();
        PutVec(Vec(true, ZEROS));
        assert parts[|parts| - 1] + [Vec(true, ZEROS)] == [Vec(true, ZEROS)];
      }
    }

    /** One pass of the loop of `add_iov`: queues as much of the bytes as the message takes, in one vector. */
    method AddPiece(rest: seq<Byte>, ghost parts0: seq<seq<Vec>>) returns (len: nat)
      requires Ready() && Extended(udp, parts0, Building(), false)
      modifies this
      ensures Ready() && len <= |rest| && (len < |rest| ==> len > 0)
      ensures Queued() == old(Queued()) + rest[..len]
      ensures Extended(udp, parts0, Building(), len == |rest|)
      ensures FitsIn(udp, old(Building()), |rest|) ==>
                len == |rest| && Building() == OneMore(old(Building()), Vec(false, rest))
    {
      hide Built, Payload, Conn.Queued, Conn.Building, Extended, OneMore, Filled, Flat, Parts;
      QueuedIs();
      BuildingIs();
      ghost var parts := Building();
      var limit := udp || msgused == 1;
      if msglist[msgused - 1].count == IOV_MAX || (limit && msgbytes >= UDP_MAX_PAYLOAD_SIZE) {
        FilledUp();
        AddMsghdr();
        QueuedIs();
        BuildingIs();
        ExtendedStart(udp, parts0, parts, if udp then [Vec(true, ZEROS)] else []);
      }
      EnsureSpace();
      len := |rest|;
      if limit && len + msgbytes > UDP_MAX_PAYLOAD_SIZE {
        len := UDP_MAX_PAYLOAD_SIZE - msgbytes;
      }
      BuildingIs();
      ExtendedPiece(udp, parts0, Building(), Vec(false, rest[..len]), len == |rest|);
      PutVec(Vec(false, rest[..len]));
      assert rest[..|rest|] == rest;
    }

    /** `add_iov`: queues bytes, split over messages where a limit says so: in one vector of the last message if they
        fit, and else a message is started only when the last one is filled. */
    method AddIov(buf: seq<Byte>)
      requires Ready()
      modifies this
      ensures Ready() && Queued() == old(Queued()) + buf
      ensures Extended(udp, old(Building()), Building(), true)
      ensures FitsIn(udp, old(Building()), |buf|) ==> Building() == OneMore(old(Building()), Vec(false, buf))
    {
      hide Built, Payload, Conn.Queued, Conn.Building, Conn.Ready, Extended, OneMore, Filled, Flat, FitsIn;
      ReadyFits();
      ghost var parts0 := Building();
      ExtendedSelf(udp, parts0);
      var rest := buf;
      var more := true;
      ghost var at, first := 0, true;
      assert buf[0..] == buf && old(Queued()) + buf[..0] == old(Queued());
      while more
        invariant Ready() && 0 < msgused <= |msglist| && iovused <= |iov|
        invariant 0 <= at <= |buf| && rest == buf[at..] && Queued() == old(Queued()) + buf[..at]
        invariant !more ==> rest == []
        invariant Extended(udp, parts0, Building(), !more)
        invariant first ==> Building() == parts0 && rest == buf && more
        invariant !first && FitsIn(udp, parts0, |buf|) ==> !more && Building() == OneMore(parts0, Vec(false, buf))
        decreases more, |rest|
      {
        var len := AddPiece(rest, parts0);
        ReadyFits();
        Advance(old(Queued()), buf, at, len);
        at := at + len;
        more := len < |rest|;
        rest := rest[len..];
        first := false;
      }
      assert buf[..at] == buf;
    }

    static lemma Advance(queued: seq<Byte>, buf: seq<Byte>, at: nat, len: nat)
      requires at + len <= |buf|
      ensures queued + buf[..at] + buf[at..][..len] == queued + buf[..at + len]
      ensures buf[at..][len..] == buf[at + len..]
    {
      assert buf[..at + len] == buf[..at] + buf[at..][..len];
    }

    lemma ReadyFits()
      requires Ready()
      ensures 0 < msgused <= |msglist| && iovused <= |iov| && Building() != []
    {
    }

    /** What the fields say about the messages that are being built. */
    lemma BuildingIs()
      requires Open()
      ensures Building() == Parts(iov, msglist[..msgused])
      ensures var last := Building()[msgused - 1];
              |last| == msglist[msgused - 1].count && |Flat(last)| == msgbytes
      ensures msglist[msgused - 1].count <= IOV_MAX
      ensures udp || msgused == 1 ==> msgbytes <= UDP_MAX_PAYLOAD_SIZE
    {
      hide Flat;
      assert msglist[..msgused][msgused - 1] == msglist[msgused - 1];
      if msgused == 1 {
        assert msglist[..msgused][0] == msglist[0];
      }
      if msglist[msgused - 1].count == 0 {
        EmptyFlat();
        assert VecsOf(iov, msglist[msgused - 1]) == [];
      }
    }

    lemma FilledUp()
      requires Ready()
      requires msglist[msgused - 1].count == 1024 || ((udp || msgused == 1) && msgbytes >= 1400)
      ensures msglist[msgused - 1].count > 0 && Filled(udp, msgused - 1, Building()[msgused - 1])
    {
      hide Flat;
      BuildingIs();
      EmptyFlat();
    }

    /** Messages are being sent. */
    ghost predicate Sending()
      reads this
    {
      msgcurr <= msgused <= |msglist| && Spread(iov, generation, msglist[..msgused])
    }

    /** The bytes that are still to be sent. */
    function Unsent(): seq<Byte>
      requires msgcurr <= msgused <= |msglist|
      reads this
    {
      Pending(iov, msglist[msgcurr..msgused])
    }

    /** The messages that are not sent completely, and the finished one before them, if there is one. */
    function Messages(): seq<Message>
      requires msgcurr <= msgused <= |msglist|
      reads this
    {
      MessagesOf(iov, msglist[msgcurr..msgused])
    }

    /** The message that the next `sendmsg` is about: a finished one is passed over. */
    function Current(): nat
      requires msgcurr <= msgused <= |msglist|
      reads this
    {
      if msgcurr < msgused && msglist[msgcurr].count == 0 then msgcurr + 1 else msgcurr
    }

    /** What is queued can be sent, and is all that is to be sent. */
    lemma StartSending()
      requires Ready()
      ensures Sending() && Unsent() == Flat(iov[..iovused]) && (!udp ==> Unsent() == Queued())
    {
      hide Flat, Payload, MessageOk;
      var msgs := msglist[..msgused];
      BuiltSpread(udp, iov, iovused, generation, msgs, msgbytes);
      PendingBuilt(udp, iov, iovused, generation, msgs, msgbytes, 0);
      assert msgs[0..] == msglist[msgcurr..msgused] && msgs[..0] == [] && iov[0..iovused] == iov[..iovused];
      if !udp {
        AllPlain(iov, iovused, generation, msgs, msgbytes);
        NoHeads(iov[..iovused]);
      }
    }

    static lemma AllPlain(iov: seq<Vec>, iovused: nat, generation: nat, msgs: seq<Msg>, msgbytes: nat)
      requires Built(false, iov, iovused, generation, msgs, msgbytes)
      ensures forall k :: 0 <= k < iovused ==> !iov[k].head
    {
      hide Flat, Total, MessageOk, VecsOf;
      forall k | 0 <= k < iovused ensures !iov[k].head {
        var i := Covering(msgs, k);
        PlainMessage(iov, msgs[i], k);
      }
    }

    static lemma PlainMessage(iov: seq<Vec>, m: Msg, k: nat)
      requires m.start <= k < m.start + m.count <= |iov| && MessageOk(false, VecsOf(iov, m))
      ensures !iov[k].head
    {
      assert VecsOf(iov, m)[k - m.start] == iov[k];
    }

    /** The message that vector `k` belongs to. */
    static lemma {:induction false} Covering(msgs: seq<Msg>, k: nat) returns (i: nat)
      requires k < Total(msgs)
      ensures i < |msgs| && Total(msgs[..i]) <= k < Total(msgs[..i]) + msgs[i].count
    {
      var last := |msgs| - 1;
      if k < Total(msgs[..last]) {
        i := Covering(msgs[..last], k);
        assert msgs[..last][..i] == msgs[..i];
      } else {
        i := last;
      }
    }

    /** `transmit`: hands the current message to `sendmsg`, which answers `res`; `again` says that an
        error only means to try later.  The vectors that have been sent are taken off the message. */
    method Transmit(res: int, again: bool) returns (outcome: Outcome, sent: seq<Byte>)
      requires Sending()
      requires Current() < msgused ==> res <= |Flat(Vectors(iov, msglist[Current()]))|
      modifies this`iov, this`msglist, this`msgcurr
      ensures Sending() && msgused == old(msgused) && sent + Unsent() == old(Unsent())
      ensures sent == Took(old(Messages()), res) && Messages() == After(old(Messages()), res)
      ensures outcome == if old(Current()) == msgused then Complete else if res > 0 then Incomplete
                         else if res == -1 && again then SoftError else HardError
      ensures outcome == Incomplete ==> |sent| == res
      ensures outcome != Incomplete ==> sent == []
      ensures outcome == Complete ==> Unsent() == []
    {
      hide Spread, Flat, Pending, Vectors, MessagesOf;
      PassFinished();
      MessagesPassed();
      if msgcurr < msgused && msglist[msgcurr].count == 0 {
        msgcurr := msgcurr + 1;
      }
      if msgcurr == msgused {
        NothingLeft(iov, msglist, msgused);
        return Complete, [];
      }
      if res > 0 {
        sent := TakeOff(res);
        return Incomplete, sent;
      }
      return (if res == -1 && again then SoftError else HardError), [];
    }

    lemma MessagesPassed()
      requires Sending()
      ensures MessagesOf(iov, msglist[Current()..msgused]) == Passed(Messages())
      ensures Current() == msgused <==> Passed(Messages()) == []
      ensures Current() < msgused ==>
                Passed(Messages())[0].bytes == Flat(Vectors(iov, msglist[Current()]))
    {
      hide Flat, Vectors, Spread;
      if Current() != msgcurr {
        assert msglist[msgcurr..msgused][1..] == msglist[msgcurr + 1..msgused];
      }
    }

    lemma PassFinished()
      requires Sending()
      ensures Pending(iov, msglist[Current()..msgused]) == Unsent()
    {
      if Current() != msgcurr {
        assert msglist[msgcurr..msgused][1..] == msglist[msgcurr + 1..msgused];
        assert msglist[msgcurr..msgused][0] == msglist[msgcurr];
        assert Vectors(iov, msglist[msgcurr]) == [];
        EmptyFlat();
      }
    }

    static lemma NothingLeft(iov: seq<Vec>, msglist: seq<Msg>, msgused: nat)
      requires msgused <= |msglist|
      ensures Pending(iov, msglist[msgused..msgused]) == []
    {
    }

    /** Passes over the vectors of a message that `res` bytes cover, `left` bytes going into the next. */
    method PassVectors(m0: Msg, res: nat) returns (m: Msg, left: nat, sent: seq<Byte>)
      requires m0.start + m0.count <= |iov| && res <= |Flat(VecsOf(iov, m0))|
      ensures m.generation == m0.generation && m.start >= m0.start && m.start + m.count == m0.start + m0.count
      ensures |sent| + left == res && Flat(VecsOf(iov, m0)) == sent + Flat(VecsOf(iov, m))
      ensures left > 0 ==> m.count > 0 && left < |iov[m.start].data|
      ensures m.count > 0 ==> left < |iov[m.start].data|
    {
      hide Flat;
      m, left, sent := m0, res, [];
      while m.count > 0 && left >= |iov[m.start].data|
        invariant m.generation == m0.generation && m.start >= m0.start && m.start + m.count == m0.start + m0.count
        invariant |sent| + left == res && Flat(VecsOf(iov, m0)) == sent + Flat(VecsOf(iov, m))
        decreases m.count
      {
        FlatFirst(VecsOf(iov, m));
        assert VecsOf(iov, m)[1..] == VecsOf(iov, Msg(m.generation, m.start + 1, m.count - 1));
        Regroup(sent, iov[m.start].data, Flat(VecsOf(iov, m)[1..]));
        sent := sent + iov[m.start].data;
        left := left - |iov[m.start].data|;
        m := Msg(m.generation, m.start + 1, m.count - 1);
      }
      if m.count == 0 {
        EmptyFlat();
        assert VecsOf(iov, m) == [];
      }
    }

    /** Takes the first `res` bytes off the current message. */
    method TakeOff(res: nat) returns (sent: seq<Byte>)
      requires Sending() && msgcurr < msgused && 0 < res <= |Flat(Vectors(iov, msglist[msgcurr]))|
      modifies this`iov, this`msglist
      ensures Sending() && |sent| == res && sent + Unsent() == old(Unsent())
      ensures |old(Messages())| > 0 && |old(Messages()[0].bytes)| >= res
      ensures var bytes := old(Messages())[0].bytes;
              && sent == bytes[..res]
              && Messages() == [Message(res == |bytes|, bytes[res..])] + old(Messages())[1..]
    {
      hide Flat, Pending, Spread, MessagesOf, Vectors;
      MessageFirst(iov, msglist, msgcurr, msgused);
      ghost var iov0, msgs0 := iov, msglist;
      InList(iov, generation, msglist[..msgused], msgcurr);
      assert msglist[..msgused][msgcurr] == msglist[msgcurr];
      VectorsThere(iov, msglist[msgcurr]);
      var m, left;
      m, left, sent := PassVectors(msglist[msgcurr], res);
      if left > 0 {
        CutFirst(iov, m, left);
        var v := iov[m.start];
        sent := sent + v.data[..left];
        iov := iov[m.start := Vec(v.head, v.data[left..])];
      }
      msglist := msglist[msgcurr := m];
      VectorsThere(iov, m);
      Shortened(iov0, iov, generation, msgs0, msgcurr, msgused, m, sent);
      RestOf(iov, m);
      MessagesShortened(iov0, iov, generation, msgs0, msgcurr, msgused, m);
    }

    static lemma VectorsThere(iov: seq<Vec>, m: Msg)
      requires m.start + m.count <= |iov|
      ensures Vectors(iov, m) == VecsOf(iov, m)
    {
    }

    static lemma MessageFirst(iov: seq<Vec>, msglist: seq<Msg>, cur: nat, used: nat)
      requires cur < used <= |msglist|
      ensures MessagesOf(iov, msglist[cur..used]) != []
      ensures MessagesOf(iov, msglist[cur..used])[0].bytes == Flat(Vectors(iov, msglist[cur]))
    {
    }

    /** A message is finished when all its bytes are sent: empty vectors at its end are passed over. */
    static lemma RestOf(iov: seq<Vec>, m: Msg)
      requires m.start + m.count <= |iov| && (m.count > 0 ==> |iov[m.start].data| > 0)
      ensures m.count == 0 <==> Flat(VecsOf(iov, m)) == []
    {
      if m.count > 0 {
        FlatFirst(VecsOf(iov, m));
      } else {
        assert VecsOf(iov, m) == [];
      }
    }

    /** The messages when the current one has lost its first bytes. */
    static lemma MessagesShortened(iov: seq<Vec>, iov': seq<Vec>, generation: nat, msglist: seq<Msg>,
                                   cur: nat, used: nat, m: Msg)
      requires cur < used <= |msglist| && Spread(iov, generation, msglist[..used])
      requires m.start + m.count == msglist[cur].start + msglist[cur].count <= |iov|
      requires |iov'| == |iov| && (iov' == iov || (m.count > 0 && iov' == iov[m.start := iov'[m.start]]))
      ensures MessagesOf(iov', msglist[cur := m][cur..used]) ==
              [MessageOf(iov', m)] + MessagesOf(iov, msglist[cur..used])[1..]
    {
      hide MessageOf, Spread;
      var later := msglist[cur + 1..used];
      Slices(msglist, cur, used, m);
      LaterStart(iov, generation, msglist[..used], cur, later);
      forall i | 0 <= i < |later| ensures MessageOf(iov', later[i]) == MessageOf(iov, later[i]) {
        SameMessage(iov, iov', m, later[i]);
      }
      assert MessagesOf(iov, [msglist[cur]] + later)[1..] == MessagesOf(iov, later);
      assert MessagesOf(iov', [m] + later) == [MessageOf(iov', m)] + MessagesOf(iov', later);
    }

    static lemma SameMessage(iov: seq<Vec>, iov': seq<Vec>, m: Msg, x: Msg)
      requires |iov'| == |iov| && x.start >= m.start + m.count
      requires iov' == iov || (m.count > 0 && m.start < |iov| && iov' == iov[m.start := iov'[m.start]])
      ensures MessageOf(iov', x) == MessageOf(iov, x)
    {
      hide Flat;
      assert x.start + x.count <= |iov| ==> VecsOf(iov', x) == VecsOf(iov, x);
    }

    /** Cutting bytes off the first vector of a message cuts them off its bytes. */
    static lemma CutFirst(iov: seq<Vec>, m: Msg, left: nat)
      requires m.start + m.count <= |iov| && m.count > 0 && left < |iov[m.start].data|
      ensures var v := iov[m.start];
              Flat(VecsOf(iov, m)) == v.data[..left] + Flat(VecsOf(iov[m.start := Vec(v.head, v.data[left..])], m))
    {
      hide Flat;
      var v := iov[m.start];
      var iov' := iov[m.start := Vec(v.head, v.data[left..])];
      FlatFirst(VecsOf(iov, m));
      FlatFirst(VecsOf(iov', m));
      assert VecsOf(iov, m)[1..] == VecsOf(iov', m)[1..];
      assert v.data == v.data[..left] + v.data[left..];
    }

    static lemma InList(iov: seq<Vec>, generation: nat, msgs: seq<Msg>, i: nat)
      requires Spread(iov, generation, msgs) && i < |msgs|
      ensures msgs[i].generation == generation && msgs[i].start + msgs[i].count <= |iov|
    {
    }

    /** What is pending when the current message has lost its first bytes. */
    static lemma Shortened(iov: seq<Vec>, iov': seq<Vec>, generation: nat, msglist: seq<Msg>,
                           cur: nat, used: nat, m: Msg, sent: seq<Byte>)
      requires cur < used <= |msglist| && Spread(iov, generation, msglist[..used])
      requires m.generation == generation && m.start >= msglist[cur].start
      requires m.start + m.count == msglist[cur].start + msglist[cur].count <= |iov|
      requires |iov'| == |iov| && (iov' == iov || (m.count > 0 && iov' == iov[m.start := iov'[m.start]]))
      requires Flat(Vectors(iov, msglist[cur])) == sent + Flat(VecsOf(iov', m))
      ensures Spread(iov', generation, msglist[cur := m][..used])
      ensures sent + Pending(iov', msglist[cur := m][cur..used]) == Pending(iov, msglist[cur..used])
    {
      hide Flat, Pending, Spread, Vectors, VecsOf;
      var msgs, later := msglist[..used], msglist[cur + 1..used];
      Slices(msglist, cur, used, m);
      SpreadShortened(iov, iov', generation, msgs, cur, m);
      LaterStart(iov, generation, msgs, cur, later);
      PendingShortened(iov, iov', msglist[cur], m, later, sent);
    }

    static lemma Slices<T>(s: seq<T>, cur: nat, used: nat, m: T)
      requires cur < used <= |s|
      ensures s[cur := m][..used] == s[..used][cur := m] && s[..used][cur] == s[cur]
      ensures s[cur..used] == [s[cur]] + s[cur + 1..used] && s[cur := m][cur..used] == [m] + s[cur + 1..used]
      ensures var later := s[cur + 1..used];
              forall i :: 0 <= i < |later| ==> later[i] == s[..used][cur + 1 + i]
    {
    }

    static lemma PendingShortened(iov: seq<Vec>, iov': seq<Vec>, m0: Msg, m: Msg, later: seq<Msg>, sent: seq<Byte>)
      requires m.start + m.count == m0.start + m0.count <= |iov| == |iov'|
      requires iov' == iov || (m.count > 0 && iov' == iov[m.start := iov'[m.start]])
      requires Flat(Vectors(iov, m0)) == sent + Flat(VecsOf(iov', m))
      requires forall i :: 0 <= i < |later| ==> later[i].start >= m0.start + m0.count
      ensures sent + Pending(iov', [m] + later) == Pending(iov, [m0] + later)
    {
      hide Flat, Pending;
      PendingFirst(iov, m0, later);
      PendingFirst(iov', m, later);
      if iov' != iov {
        PendingFrame(iov, later, m.start, iov'[m.start]);
      }
      Regroup(sent, Flat(VecsOf(iov', m)), Pending(iov, later));
    }

    static lemma Regroup(a: seq<Byte>, b: seq<Byte>, c: seq<Byte>)
      ensures a + (b + c) == a + b + c
    {
    }

    static lemma SpreadShortened(iov: seq<Vec>, iov': seq<Vec>, generation: nat, msgs: seq<Msg>, cur: nat, m: Msg)
      requires cur < |msgs| && Spread(iov, generation, msgs) && |iov'| == |iov|
      requires m.generation == generation && m.start >= msgs[cur].start
      requires m.start + m.count == msgs[cur].start + msgs[cur].count
      ensures Spread(iov', generation, msgs[cur := m])
    {
    }

    static lemma LaterStart(iov: seq<Vec>, generation: nat, msgs: seq<Msg>, cur: nat, later: seq<Msg>)
      requires cur < |msgs| && Spread(iov, generation, msgs) && |later| == |msgs| - cur - 1
      requires forall i :: 0 <= i < |later| ==> later[i] == msgs[cur + 1 + i]
      ensures forall i :: 0 <= i < |later| ==> later[i].start >= msgs[cur].start + msgs[cur].count
    {
    }

    static lemma PendingFirst(iov: seq<Vec>, m: Msg, later: seq<Msg>)
      ensures Pending(iov, [m] + later) == Flat(Vectors(iov, m)) + Pending(iov, later)
    {
      assert ([m] + later)[1..] == later;
    }
  }

  /** Every UDP message fits in a datagram, and starts with the place for its header. */
  lemma DatagramsFit(c: Conn, i: nat)
    requires c.Ready() && c.udp && i < c.msgused
    ensures var vecs := Vectors(c.iov, c.msglist[i]);
            |Flat(vecs)| <= 1400 && vecs != [] && vecs[0].head && |vecs[0].data| == 8
  {
    hide Flat;
    assert c.msglist[..c.msgused][i] == c.msglist[i];
  }

  /** While messages are built, each one starts at the sum of the vector counts before it, in the list
      as it is now. */
  lemma MessagesInPlace(c: Conn, i: nat)
    requires c.Open() && i < c.msgused
    ensures c.msglist[i].generation == c.generation && c.msglist[i].start == Total(c.msglist[..i])
  {
    hide Flat, Total, MessageOk;
    assert c.msglist[..c.msgused][i] == c.msglist[i] && c.msglist[..c.msgused][..i] == c.msglist[..i];
  }

  function Joined(buffers: seq<seq<Byte>>): seq<Byte> {
    if buffers == [] then [] else Joined(buffers[..|buffers| - 1]) + buffers[|buffers| - 1]
  }

  lemma JoinedStep(buffers: seq<seq<Byte>>, i: nat)
    requires i < |buffers|
    ensures Joined(buffers[..i + 1]) == Joined(buffers[..i]) + buffers[i]
  {
    assert buffers[..i + 1][..i] == buffers[..i];
  }

  /** Queues buffers on an empty connection: no message is started before the one before it is filled. */
  method Queue(c: Conn, buffers: seq<seq<Byte>>)
    requires c.Empty()
    modifies c
    ensures c.Ready() && c.Queued() == Joined(buffers) && Packed(c.udp, c.Building())
  {
    hide Joined, Payload, Extended, FitsIn, Flat, Parts, Built;
    EmptyFlat();
    assert c.iov[..0] == [];
    c.AddMsghdr();
    NothingJoined(buffers);
    var i := 0;
    while i < |buffers|
      invariant 0 <= i <= |buffers| && c.Ready() && c.Queued() == Joined(buffers[..i])
      invariant Packed(c.udp, c.Building())
    {
      ghost var parts := c.Building();
      c.AddIov(buffers[i]);
      ExtendedPacked(c.udp, parts, c.Building());
      JoinedStep(buffers, i);
      i := i + 1;
    }
    assert buffers[..i] == buffers;
  }

  lemma NothingJoined(buffers: seq<seq<Byte>>)
    ensures Joined(buffers[..0]) == []
  {
  }

  /** An answer of `sendmsg`, and whether an error only means to try later. */
  datatype Answer = Answer(res: int, again: bool)

  /** What is left after all the answers. */
  function AfterAll(queue: seq<Message>, answers: seq<Answer>): seq<Message> {
    if answers == [] then queue
    else After(AfterAll(queue, answers[..|answers| - 1]), answers[|answers| - 1].res)
  }

  /** What is sent with all the answers: each takes as much as it says, but no more than the message that it is
      about has left. */
  function TookAll(queue: seq<Message>, answers: seq<Answer>): seq<Byte> {
    if answers == [] then []
    else
      var before := answers[..|answers| - 1];
      TookAll(queue, before) + Took(AfterAll(queue, before), answers[|answers| - 1].res)
  }

  lemma OneAnswer(queue: seq<Message>, answers: seq<Answer>, i: nat)
    requires i < |answers|
    ensures AfterAll(queue, answers[..i + 1]) == After(AfterAll(queue, answers[..i]), answers[i].res)
    ensures TookAll(queue, answers[..i + 1]) ==
            TookAll(queue, answers[..i]) + Took(AfterAll(queue, answers[..i]), answers[i].res)
  {
    assert answers[..i + 1][..i] == answers[..i];
  }

  lemma NoAnswers(queue: seq<Message>, answers: seq<Answer>)
    ensures AfterAll(queue, answers[..0]) == queue && TookAll(queue, answers[..0]) == []
  {
  }

  /** An answer that is too large takes all of the message. */
  lemma NoMore(queue: seq<Message>, res: int, res': int)
    requires var now := Passed(queue);
             res' == if now != [] && res > |now[0].bytes| then |now[0].bytes| else res
    ensures Took(queue, res') == Took(queue, res) && After(queue, res') == After(queue, res)
  {
  }

  /** The messages that were built, none of their bytes sent yet. */
  function Unstarted(parts: seq<seq<Vec>>): seq<Message> {
    seq(|parts|, i requires 0 <= i < |parts| => Message(parts[i] == [], Flat(parts[i])))
  }

  /** What holds of each message when sending begins. */
  lemma QueueFits(c: Conn)
    requires c.Ready() && Packed(c.udp, c.Building())
    ensures c.msgcurr <= c.msgused <= |c.msglist| && c.Messages() == Unstarted(c.Building())
    ensures forall i :: 0 <= i < |c.Building()| ==> Bounded(c.udp, i, |c.Building()|, c.Building()[i])
  {
    hide Flat;
    forall i | 0 <= i < c.msgused
      ensures Bounded(c.udp, i, c.msgused, c.Building()[i]) && (c.msglist[i].count == 0 <==> c.Building()[i] == []) {
      assert c.msglist[..c.msgused][i] == c.msglist[i];
      if c.msglist[i].count == 0 {
        EmptyFlat();
        assert VecsOf(c.iov, c.msglist[i]) == [];
      }
    }
    assert c.msglist[..c.msgused] == c.msglist[c.msgcurr..c.msgused];
  }

  /** Message `i` of `n` is within the limits, and has reached one of them if it is not the last; a UDP message begins
      with eight bytes for its header. */
  ghost predicate Bounded(udp: bool, i: nat, n: nat, vecs: seq<Vec>) {
    && |vecs| <= 1024 && (udp || i == 0 ==> |Flat(vecs)| <= 1400)
    && (i < n - 1 ==> |vecs| == 1024 || ((udp || i == 0) && |Flat(vecs)| == 1400))
    && (udp ==> vecs != [] && vecs[0].head && |vecs[0].data| == 8)
    && (forall k :: 0 <= k < |vecs| && vecs[k].head ==> udp && k == 0)
  }

  /** However the buffers are split up, and whatever parts of them each `sendmsg` takes, what has been
      sent and what is pending are the bytes of the vectors, in order; these are the bytes that were
      queued and, over UDP, the header places.  `built` is the messages that were built: each but the last has
      reached a limit, and what is sent and what is left of them is what the answers say. */
  method Deliver(c: Conn, buffers: seq<seq<Byte>>, answers: seq<Answer>)
      returns (sent: seq<Byte>, ghost vecs: seq<Vec>, ghost built: seq<seq<Vec>>)
    requires c.Empty()
    modifies c
    ensures c.Sending() && sent + c.Unsent() == Flat(vecs) && Payload(vecs) == Joined(buffers)
    ensures !c.udp ==> sent + c.Unsent() == Joined(buffers)
    ensures AllBytes(Unstarted(built)) == Flat(vecs)
    ensures forall i :: 0 <= i < |built| ==> Bounded(c.udp, i, |built|, built[i])
    ensures sent == TookAll(Unstarted(built), answers) && c.Messages() == AfterAll(Unstarted(built), answers)
  {
    hide Joined, Payload, Flat, Vectors, Built, Spread, Pending, MessagesOf, Passed, Took, After, AfterAll, TookAll,
         Packed, Bounded, Parts, Unstarted;
    Queue(c, buffers);
    c.StartSending();
    sent := [];
    vecs, built := c.iov[..c.iovused], c.Building();
    ghost var queue := Unstarted(built);
    QueueFits(c);
    PendingIs(c.iov, c.msglist[c.msgcurr..c.msgused]);
    NoAnswers(queue, answers);
    var i := 0;
    while i < |answers|
      invariant 0 <= i <= |answers| && c.Sending() && sent + c.Unsent() == Flat(vecs)
      invariant sent == TookAll(queue, answers[..i]) && c.Messages() == AfterAll(queue, answers[..i])
    {
      var res := answers[i].res;
      if c.Current() < c.msgused && res > |Flat(Vectors(c.iov, c.msglist[c.Current()]))| {
        res := |Flat(Vectors(c.iov, c.msglist[c.Current()]))|;
      }
      ghost var sent0 := sent;
      c.MessagesPassed();
      NoMore(c.Messages(), answers[i].res, res);
      OneAnswer(queue, answers, i);
      var outcome, part := c.Transmit(res, answers[i].again);
      sent := sent + part;
      Conn.Regroup(sent0, part, c.Unsent());
      i := i + 1;
    }
    assert answers[..i] == answers;
  }
}
