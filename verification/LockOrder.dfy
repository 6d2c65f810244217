/** Which nested requests can deadlock: those, and only those, whose pairs of inodes run in a circle. */
module LockOrder {
  import opened LockTable

  /** A thread that holds the lock of one inode asks for that of another. */
  datatype Nest = Nest(held: nat, asked: nat)

  ghost predicate Allowed(s: State, pairs: set<Nest>, thread: nat, inode: nat) {
    forall j :: 0 <= j < |s.refs| && s.refs[j].thread == thread ==> Nest(s.refs[j].inode, inode) in pairs
  }

  /** A step of threads that nest their locks in these pairs only. */
  ghost predicate NestedStep(s: State, t: State, pairs: set<Nest>) {
    || (exists thread, inode, mode :: EnterStep(s, t, thread, inode, mode) && Allowed(s, pairs, thread, inode))
    || (exists k, i :: GrantStep(s, t, k, i))
    || (exists k :: LeaveStep(s, t, k))
  }

  ghost predicate IsNestedRun(run: seq<State>, pairs: set<Nest>) {
    && |run| > 0 && run[0] == INIT
    && forall k :: 0 < k < |run| ==> NestedStep(run[k - 1], run[k], pairs)
  }

  ghost predicate Stuck(s: State) {
    s.refs != [] && !CanGoOn(s)
  }

  ghost predicate Increasing(rank: map<nat, nat>, pairs: set<Nest>) {
    forall e :: e in pairs ==> e.held in rank && e.asked in rank && rank[e.held] < rank[e.asked]
  }

  /** The inode after number `i` in a circle of `n`. */
  function Next(i: nat, n: nat): nat {
    if i + 1 == n then 0 else i + 1
  }

  /** Each inode and the next one, around the circle, are one of the pairs. */
  ghost predicate Closed(c: seq<nat>, pairs: set<Nest>) {
    forall i :: 0 <= i < |c| ==> Nest(c[i], c[Next(i, |c|)]) in pairs
  }

  ghost predicate IsCycle(c: seq<nat>, pairs: set<Nest>) {
    c != [] && Closed(c, pairs) && forall i, j :: 0 <= i < j < |c| ==> c[i] != c[j]
  }

  // ----- an order or a circle -----

  /** No pair leads from one of `nodes` to `v`. */
  ghost predicate Minimal(v: nat, nodes: set<nat>, pairs: set<Nest>) {
    forall u :: u in nodes ==> Nest(u, v) !in pairs
  }

  /** Along all pairs among `nodes` the rank increases. */
  ghost predicate Ranks(rank: map<nat, nat>, nodes: set<nat>, pairs: set<Nest>) {
    && rank.Keys == nodes
    && forall e :: e in pairs && e.held in nodes && e.asked in nodes ==> rank[e.held] < rank[e.asked]
  }

  /** Either the inodes of `nodes` can be ranked so that all pairs among them increase, or some of the
      pairs run in a circle. */
  lemma RankOrCycle(nodes: set<nat>, pairs: set<Nest>) returns (rank: map<nat, nat>, c: seq<nat>)
    ensures if c == [] then Ranks(rank, nodes, pairs) else IsCycle(c, pairs)
    decreases nodes
  {
    hide Minimal, Ranks, IsCycle;
    rank, c := map[], [];
    if v :| v in nodes && Minimal(v, nodes, pairs) {
      var rest;
      rest, c := RankOrCycle(nodes - {v}, pairs);
      if c == [] {
        rank := RankMore(rest, nodes, pairs, v);
      }
    } else if nodes == {} {
      NothingToRank(pairs);
    } else {
      var v :| v in nodes;
      c := WalkBack(nodes, pairs, [v], {v});
    }
  }

  lemma NothingToRank(pairs: set<Nest>)
    ensures Ranks(map[], {}, pairs)
  {
  }

  /** A minimal inode goes below the others. */
  lemma RankMore(rest: map<nat, nat>, nodes: set<nat>, pairs: set<Nest>, v: nat) returns (rank: map<nat, nat>)
    requires v in nodes && Minimal(v, nodes, pairs) && Ranks(rest, nodes - {v}, pairs)
    ensures Ranks(rank, nodes, pairs)
  {
    rank := map u | u in nodes :: if u == v then 0 else rest[u] + 1;
    forall e | e in pairs && e.held in nodes && e.asked in nodes ensures rank[e.held] < rank[e.asked] {
      assert e == Nest(e.held, e.asked);
    }
  }

  /** Inodes that are all different, each led to by the one before it. */
  ghost predicate IsPath(path: seq<nat>, pairs: set<Nest>) {
    && path != [] && (forall i, j :: 0 <= i < j < |path| ==> path[i] != path[j])
    && forall i :: 0 < i < |path| ==> Nest(path[i - 1], path[i]) in pairs
  }

  /** Walking back along the pairs from any inode closes a circle, when each one has a pair before it. */
  lemma WalkBack(nodes: set<nat>, pairs: set<Nest>, path: seq<nat>, seen: set<nat>) returns (c: seq<nat>)
    requires forall v :: v in nodes ==> !Minimal(v, nodes, pairs)
    requires IsPath(path, pairs) && path[0] in nodes && forall v :: v in seen <==> v in path
    ensures c != [] && IsCycle(c, pairs)
    decreases nodes - seen
  {
    hide IsPath, IsCycle;
    PathStarts(path, pairs);
    assert !Minimal(path[0], nodes, pairs);
    var u :| u in nodes && Nest(u, path[0]) in pairs;
    if u in seen {
      c := CloseCircle(path, pairs, u);
    } else {
      PathLonger(path, pairs, u);
      c := WalkBack(nodes, pairs, [u] + path, seen + {u});
    }
  }

  lemma PathStarts(path: seq<nat>, pairs: set<Nest>)
    requires IsPath(path, pairs)
    ensures path != []
  {
  }

  lemma PathLonger(path: seq<nat>, pairs: set<Nest>, u: nat)
    requires IsPath(path, pairs) && u !in path && Nest(u, path[0]) in pairs
    ensures IsPath([u] + path, pairs)
  {
  }

  lemma CloseCircle(path: seq<nat>, pairs: set<Nest>, u: nat) returns (c: seq<nat>)
    requires IsPath(path, pairs) && u in path && Nest(u, path[0]) in pairs
    ensures c != [] && IsCycle(c, pairs)
  {
    var j :| 0 <= j < |path| && path[j] == u;
    c := path[..j + 1];
    forall i | 0 <= i < |c| ensures Nest(c[i], c[Next(i, |c|)]) in pairs {
      if i < j {
        assert Nest(path[i + 1 - 1], path[i + 1]) in pairs;
      }
    }
  }

  lemma OrderOrCircle(pairs: set<Nest>) returns (rank: map<nat, nat>, c: seq<nat>)
    ensures if c == [] then Increasing(rank, pairs) else IsCycle(c, pairs)
  {
    hide IsCycle;
    rank, c := RankOrCycle((set e | e in pairs :: e.held) + (set e | e in pairs :: e.asked), pairs);
  }

  // ----- with an order no run is stuck -----

  ghost function RankOf(rank: map<nat, nat>): nat -> nat {
    (i: nat) => if i in rank then rank[i] else 0
  }

  lemma NestedIsOrdered(s: State, t: State, pairs: set<Nest>, rank: map<nat, nat>)
    requires Increasing(rank, pairs) && NestedStep(s, t, pairs)
    ensures RankedStep(s, RankOf(rank), t, RankOf(rank))
  {
    hide EnterStep, GrantStep, LeaveStep;
    if thread: nat, inode: nat, mode :| EnterStep(s, t, thread, inode, mode) && Allowed(s, pairs, thread, inode) {
      assert Above(s, RankOf(rank), thread, inode) by {
        forall j | 0 <= j < |s.refs| && s.refs[j].thread == thread
          ensures RankOf(rank)(s.refs[j].inode) < RankOf(rank)(inode) {
          assert Nest(s.refs[j].inode, inode) in pairs;
        }
      }
    }
  }

  lemma OrderIsSafe(pairs: set<Nest>, rank: map<nat, nat>, run: seq<State>)
    requires Increasing(rank, pairs) && IsNestedRun(run, pairs)
    ensures !Stuck(run[|run| - 1])
  {
    hide Increasing, NestedStep, RankedStep, CanGoOn;
    var r := RankOf(rank);
    var ranks := seq(|run|, _ => r);
    forall k | 0 < k < |run| ensures RankedStep(run[k - 1], ranks[k - 1], run[k], ranks[k]) {
      NestedIsOrdered(run[k - 1], run[k], pairs, rank);
    }
    if run[|run| - 1].refs != [] {
      NeverStuck(run, ranks, |run| - 1);
    }
  }

  // ----- a circle can be run into -----

  /** A circle of inodes and the threads that lock them; the list of locks has used the numbers below `base`. */
  datatype Ring = Ring(inodes: seq<nat>, threads: seq<nat>, base: nat)

  ghost predicate IsRing(r: Ring) {
    && |r.inodes| == |r.threads| > 0
    && (forall i, j :: 0 <= i < j < |r.inodes| ==> r.inodes[i] != r.inodes[j])
    && (forall i, j :: 0 <= i < j < |r.threads| ==> r.threads[i] != r.threads[j])
  }

  /** The first `k` threads hold their inodes. */
  function Holding(r: Ring, k: nat): State
    requires k <= |r.inodes| == |r.threads|
  {
    State(seq(k, i requires 0 <= i < k => Node(r.base + i, r.inodes[i], 1, 0, true)), HeldRefs(r, k), r.base + k)
  }

  function HeldRefs(r: Ring, k: nat): seq<Ref>
    requires k <= |r.inodes| == |r.threads|
  {
    seq(k, i requires 0 <= i < k => Ref(r.threads[i], r.base + i, r.inodes[i], Write, true))
  }

  /** The next thread has asked for its inode. */
  function Asking(r: Ring, k: nat): State
    requires k < |r.inodes| == |r.threads|
  {
    var s := Holding(r, k);
    State(s.nodes + [Node(r.base + k, r.inodes[k], 1, 0, false)],
          s.refs + [Ref(r.threads[k], r.base + k, r.inodes[k], Write, false)], r.base + k + 1)
  }

  /** All threads hold their inodes, and the first `k` wait for the next one. */
  function Waiting(r: Ring, k: nat): State
    requires k <= |r.inodes| == |r.threads|
  {
    var n := |r.inodes|;
    State(seq(n, i requires 0 <= i < n => Node(r.base + i, r.inodes[i], Counted(i, k, n), 0, true)),
          HeldRefs(r, n) + seq(k, i requires 0 <= i < k =>
            Ref(r.threads[i], r.base + Next(i, n), r.inodes[Next(i, n)], Write, false)), r.base + n + k)
  }

  function Counted(i: nat, k: nat, n: nat): nat {
    if 0 < i <= k || (i == 0 && k == n) then 2 else 1
  }

  lemma NobodyHolds(r: Ring)
    requires IsRing(r)
    ensures Holding(r, 0) == State([], [], r.base)
    ensures Waiting(r, 0) == Holding(r, |r.inodes|)
  {
  }

  lemma OneMore(r: Ring, k: nat)
    requires IsRing(r) && k < |r.inodes|
    ensures EnterStep(Holding(r, k), Asking(r, k), r.threads[k], r.inodes[k], Write)
    ensures GrantStep(Asking(r, k), Holding(r, k + 1), k, k)
    ensures forall j :: 0 <= j < |Holding(r, k).refs| ==> Holding(r, k).refs[j].thread != r.threads[k]
  {
    var s, u, t := Holding(r, k), Asking(r, k), Holding(r, k + 1);
    Enters(s, u, r.threads[k], r.inodes[k], k);
    assert t.nodes == u.nodes[k := Taken(u.nodes[k], Write)];
    assert t.refs == u.refs[k := u.refs[k].(granted := true)];
  }

  lemma OneWaits(r: Ring, k: nat)
    requires IsRing(r) && k < |r.inodes|
    ensures EnterStep(Waiting(r, k), Waiting(r, k + 1), r.threads[k], r.inodes[Next(k, |r.inodes|)], Write)
    ensures forall j :: 0 <= j < |Waiting(r, k).refs| && Waiting(r, k).refs[j].thread == r.threads[k] ==> j == k
  {
    var s, t, n := Waiting(r, k), Waiting(r, k + 1), |r.inodes|;
    var i := Next(k, n);
    assert t.nodes == s.nodes[i := s.nodes[i].(count := s.nodes[i].count + 1)];
    assert t.refs == s.refs + [Ref(r.threads[k], t.nodes[i].id, r.inodes[i], Write, false)];
    Enters(s, t, r.threads[k], r.inodes[i], i);
  }

  lemma RingRefs(r: Ring, i: nat)
    requires IsRing(r) && i < |r.inodes|
    ensures var s, n := Waiting(r, |r.inodes|), |r.inodes|;
            && |s.refs| == n + n && s.refs[i] == Ref(r.threads[i], r.base + i, r.inodes[i], Write, true)
            && s.refs[n + i] == Ref(r.threads[i], r.base + Next(i, n), r.inodes[Next(i, n)], Write, false)
            && Blocked(s, r.threads[i])
  {
    assert Waiting(r, |r.inodes|).refs[|r.inodes| + i].thread == r.threads[i];
  }

  /** In the end each thread holds its inode and waits for the next one, and no lock can be granted or
      given back. */
  lemma RingIsStuck(r: Ring)
    requires IsRing(r)
    ensures var s := Waiting(r, |r.inodes|);
            s.refs != [] && !CanGoOn(s) && forall x :: x in s.refs ==> Blocked(s, x.thread)
  {
    hide Blocked, Counted;
    var s, n := Waiting(r, |r.inodes|), |r.inodes|;
    forall k | 0 <= k < n + n
      ensures Blocked(s, s.refs[k].thread) && |s.refs| == n + n && (k < n <==> s.refs[k].granted) {
      RingRefs(r, if k < n then k else k - n);
    }
    hide Waiting;
    assert forall i :: 0 <= i < |s.nodes| ==> s.nodes[i].writing by { AllWriting(r); }
  }

  lemma AllWriting(r: Ring)
    requires IsRing(r)
    ensures var s := Waiting(r, |r.inodes|); forall i :: 0 <= i < |s.nodes| ==> s.nodes[i].writing
  {
  }

  lemma NestedLonger(run: seq<State>, pairs: set<Nest>, t: State)
    requires IsNestedRun(run, pairs) && NestedStep(run[|run| - 1], t, pairs)
    ensures IsNestedRun(run + [t], pairs)
  {
    hide NestedStep;
  }

  lemma {:induction false} HoldAll(r: Ring, pairs: set<Nest>, k: nat) returns (run: seq<State>)
    requires IsRing(r) && r.base == 0 && k <= |r.inodes|
    ensures IsNestedRun(run, pairs) && run[|run| - 1] == Holding(r, k)
  {
    if k == 0 {
      run := [INIT];
      NobodyHolds(r);
    } else {
      run := HoldAll(r, pairs, k - 1);
      OneMore(r, k - 1);
      hide Holding, Asking;
      assert NestedStep(run[|run| - 1], Asking(r, k - 1), pairs);
      assert NestedStep(Asking(r, k - 1), Holding(r, k), pairs);
      hide NestedStep;
      NestedLonger(run, pairs, Asking(r, k - 1));
      NestedLonger(run + [Asking(r, k - 1)], pairs, Holding(r, k));
      run := run + [Asking(r, k - 1)] + [Holding(r, k)];
    }
  }

  lemma {:induction false} WaitAll(r: Ring, pairs: set<Nest>, k: nat) returns (run: seq<State>)
    requires IsRing(r) && r.base == 0 && k <= |r.inodes| && IsCycle(r.inodes, pairs)
    ensures IsNestedRun(run, pairs) && run[|run| - 1] == Waiting(r, k)
  {
    if k == 0 {
      run := HoldAll(r, pairs, |r.inodes|);
      NobodyHolds(r);
    } else {
      run := WaitAll(r, pairs, k - 1);
      OneWaits(r, k - 1);
      var s := Waiting(r, k - 1);
      assert s.refs[k - 1].inode == r.inodes[k - 1];
      assert Allowed(s, pairs, r.threads[k - 1], r.inodes[Next(k - 1, |r.inodes|)]);
      hide EnterStep, Waiting;
      NestedLonger(run, pairs, Waiting(r, k));
      run := run + [Waiting(r, k)];
    }
  }

  /** Whenever the pairs run in a circle, in the end each of as many threads can hold one inode of it and
      wait for the next, for ever. */
  lemma StuckWithoutOrder(c: seq<nat>, pairs: set<Nest>) returns (run: seq<State>)
    requires IsCycle(c, pairs)
    ensures IsNestedRun(run, pairs) && Stuck(run[|run| - 1])
    ensures var s := run[|run| - 1];
            forall i :: 0 <= i < |c| ==>
              && Ref(i, i, c[i], Write, true) in s.refs
              && Ref(i, Next(i, |c|), c[Next(i, |c|)], Write, false) in s.refs
  {
    var r := Ring(c, seq(|c|, i => i), 0);
    run := WaitAll(r, pairs, |c|);
    RingIsStuck(r);
    hide Waiting;
    forall i | 0 <= i < |c|
      ensures Ref(i, i, c[i], Write, true) in run[|run| - 1].refs
      ensures Ref(i, Next(i, |c|), c[Next(i, |c|)], Write, false) in run[|run| - 1].refs
    {
      RingRefs(r, i);
    }
  }

  /** Threads that nest their locks in given pairs never deadlock if and only if the inodes can be ranked
      so that every pair increases. */
  lemma DeadlockFree(pairs: set<Nest>)
    ensures (exists rank: map<nat, nat> :: Increasing(rank, pairs)) <==>
            (forall run :: IsNestedRun(run, pairs) ==> !Stuck(run[|run| - 1]))
  {
    hide Stuck, IsCycle, NestedStep;
    if rank: map<nat, nat> :| Increasing(rank, pairs) {
      forall run | IsNestedRun(run, pairs) ensures !Stuck(run[|run| - 1]) {
        OrderIsSafe(pairs, rank, run);
      }
    } else {
      var rank, c := OrderOrCircle(pairs);
      var run := StuckWithoutOrder(c, pairs);
      assert IsNestedRun(run, pairs) && Stuck(run[|run| - 1]);
    }
  }

  // ----- a circle of waiting threads -----

  ghost predicate HoldsWrite(s: State, thread: nat, inode: nat) {
    exists k :: 0 <= k < |s.refs| && s.refs[k].thread == thread && s.refs[k].inode == inode && s.refs[k].granted
                && s.refs[k].mode == Write
  }

  ghost predicate WaitsFor(s: State, thread: nat, inode: nat) {
    exists k :: 0 <= k < |s.refs| && s.refs[k].thread == thread && s.refs[k].inode == inode && !s.refs[k].granted
  }

  /** Each thread writes to its inode and waits for the next one. */
  ghost predicate Ringed(s: State, inodes: seq<nat>, threads: seq<nat>) {
    && |inodes| == |threads| > 0
    && forall i :: 0 <= i < |inodes| ==>
         HoldsWrite(s, threads[i], inodes[i]) && WaitsFor(s, threads[i], inodes[Next(i, |inodes|)])
  }

  ghost predicate Deadlocked(s: State) {
    exists inodes, threads :: Ringed(s, inodes, threads)
  }

  lemma RingIsRinged(r: Ring)
    requires IsRing(r)
    ensures Ringed(Waiting(r, |r.inodes|), r.inodes, r.threads)
  {
    hide Waiting;
    forall i | 0 <= i < |r.inodes|
      ensures HoldsWrite(Waiting(r, |r.inodes|), r.threads[i], r.inodes[i])
      ensures WaitsFor(Waiting(r, |r.inodes|), r.threads[i], r.inodes[Next(i, |r.inodes|)])
    {
      RingRefs(r, i);
    }
  }

  /** Whatever any thread does, a circle of waiting threads stays. */
  lemma RingStays(s: State, t: State, inodes: seq<nat>, threads: seq<nat>)
    requires Inv(s) && Step(s, t) && Ringed(s, inodes, threads)
    ensures Ringed(t, inodes, threads)
  {
    hide Inv, EnterStep, GrantStep, LeaveStep, HoldsWrite, WaitsFor;
    var n := |inodes|;
    forall i | 0 <= i < n
      ensures HoldsWrite(t, threads[i], inodes[i]) && WaitsFor(t, threads[i], inodes[Next(i, n)])
    {
      var m := Next(i, n);
      assert HoldsWrite(s, threads[m], inodes[m]);
      StillWaits(s, t, threads[i], inodes[i], threads[m], inodes[m]);
    }
  }

  /** A thread that waits for an inode that another one writes to goes on waiting, and holding. */
  lemma StillWaits(s: State, t: State, thread: nat, held: nat, writer: nat, inode: nat)
    requires Inv(s) && Step(s, t) && HoldsWrite(s, thread, held)
    requires WaitsFor(s, thread, inode) && HoldsWrite(s, writer, inode)
    ensures HoldsWrite(t, thread, held) && WaitsFor(t, thread, inode)
  {
    hide Inv, Entered, EnterStep, GrantStep, LeaveStep;
    var h :| 0 <= h < |s.refs| && s.refs[h].thread == thread && s.refs[h].inode == held && s.refs[h].granted
             && s.refs[h].mode == Write;
    var w :| 0 <= w < |s.refs| && s.refs[w].thread == thread && s.refs[w].inode == inode && !s.refs[w].granted;
    var m :| 0 <= m < |s.refs| && s.refs[m].inode == inode && s.refs[m].granted && s.refs[m].mode == Write;
    var h', w';
    if other: nat, i: nat, mode :| EnterStep(s, t, other, i, mode) {
      h', w' := KeptByEnter(s, t, h, w, other, i, mode);
    } else if k: nat, i: nat :| GrantStep(s, t, k, i) {
      h', w' := KeptByGrant(s, t, h, w, m, k, i);
    } else {
      var k: nat :| LeaveStep(s, t, k);
      h', w' := KeptByLeave(s, t, h, w, k);
    }
  }

  lemma KeptByEnter(s: State, t: State, h: nat, w: nat, other: nat, i: nat, mode: Mode) returns (h': nat, w': nat)
    requires EnterStep(s, t, other, i, mode) && h < |s.refs| && w < |s.refs|
    ensures h' < |t.refs| && w' < |t.refs| && t.refs[h'] == s.refs[h] && t.refs[w'] == s.refs[w]
  {
    hide Entered;
    h', w' := h, w;
  }

  lemma KeptByGrant(s: State, t: State, h: nat, w: nat, m: nat, k: nat, i: nat) returns (h': nat, w': nat)
    requires Inv(s) && GrantStep(s, t, k, i) && h < |s.refs| && w < |s.refs| && m < |s.refs|
    requires s.refs[h].granted && s.refs[m].inode == s.refs[w].inode && s.refs[m].granted && s.refs[m].mode == Write
    ensures h' < |t.refs| && w' < |t.refs| && t.refs[h'] == s.refs[h] && t.refs[w'] == s.refs[w]
  {
    hide Inv, Taken, Free;
    h', w' := h, w;
    if k == w {
      NotFree(s, m, w, i);
    }
  }

  lemma KeptByLeave(s: State, t: State, h: nat, w: nat, k: nat) returns (h': nat, w': nat)
    requires LeaveStep(s, t, k) && h < |s.refs| && w < |s.refs|
    requires s.refs[h].thread == s.refs[w].thread && !s.refs[w].granted
    ensures h' < |t.refs| && w' < |t.refs| && t.refs[h'] == s.refs[h] && t.refs[w'] == s.refs[w]
  {
    hide Left;
    assert k != h && k != w;
    h', w' := if h < k then h else h - 1, if w < k then w else w - 1;
  }

  /** The rwlock of an inode that is written to cannot be taken. */
  lemma NotFree(s: State, m: nat, w: nat, i: nat)
    requires Inv(s) && m < |s.refs| && w < |s.refs| && s.refs[m].inode == s.refs[w].inode
    requires s.refs[m].granted && s.refs[m].mode == Write && i < |s.nodes| && s.nodes[i].id == s.refs[w].id
    ensures !Free(s.nodes[i], s.refs[w].mode)
  {
    hide Count, LockTable.Held;
    NodeOfRef(s, m);
    NodeOfRef(s, w);
    CountPositive(s.refs, m);
    assert NodeOk(s.refs, s.nodes[i]);
  }
}
