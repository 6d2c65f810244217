/** The table of reader/writer locks, one per inode in use (rfs/sincro.c), as a machine whose steps are
    the critical sections and the lock grants of any number of threads. */
module LockTable {

  datatype Mode = Read | Write

  /** A node of the list: `count` is `cantHilos`; `readers` and `writing` are the state of its rwlock. */
  datatype Node = Node(id: nat, inode: nat, count: nat, readers: nat, writing: bool)

  /** A call of `Sincro_monitorLock` that has not been undone: it points to a node, and either waits
      for its rwlock or holds it. */
  datatype Ref = Ref(thread: nat, id: nat, inode: nat, mode: Mode, granted: bool)

  datatype State = State(nodes: seq<Node>, refs: seq<Ref>, nextId: nat)

  /** The first node of this inode, or the length of the list. */
  function Find(nodes: seq<Node>, inode: nat): (i: nat)
    ensures i <= |nodes| && (i < |nodes| ==> nodes[i].inode == inode)
    ensures forall j :: 0 <= j < i ==> nodes[j].inode != inode
  {
    if nodes == [] then 0 else if nodes[0].inode == inode then 0 else 1 + Find(nodes[1..], inode)
  }

  lemma {:induction false} FindIs(nodes: seq<Node>, inode: nat, i: nat)
    requires i <= |nodes| && (i < |nodes| ==> nodes[i].inode == inode)
    requires forall j :: 0 <= j < i ==> nodes[j].inode != inode
    ensures Find(nodes, inode) == i
  {
    if i > 0 {
      FindIs(nodes[1..], inode, i - 1);
    }
  }

  /** Node `i` is the first one of this inode. */
  predicate FirstOf(nodes: seq<Node>, inode: nat, i: int) {
    0 <= i < |nodes| && nodes[i].inode == inode && forall j :: 0 <= j < i ==> nodes[j].inode != inode
  }

  /** The list after the critical section of `Sincro_monitorLock`; a new node would be number `newId`. */
  function Entered(nodes: seq<Node>, inode: nat, newId: nat): seq<Node> {
    var i := Find(nodes, inode);
    if i < |nodes| then nodes[i := nodes[i].(count := nodes[i].count + 1)]
    else nodes + [Node(newId, inode, 1, 0, false)]
  }

  /** The rwlock of a node after `pthread_rwlock_unlock`. */
  function Unlocked(n: Node): Node {
    if n.writing then n.(writing := false) else if n.readers > 0 then n.(readers := n.readers - 1) else n
  }

  /** The list after the critical section of `Sincro_monitorUnlock`: a node that no thread counts any
      more is removed, without unlocking it. */
  function Left(nodes: seq<Node>, inode: nat): seq<Node> {
    var i := Find(nodes, inode);
    if i == |nodes| then nodes
    else if nodes[i].count <= 1 then nodes[..i] + nodes[i + 1..]
    else nodes[i := Unlocked(nodes[i].(count := nodes[i].count - 1))]
  }

  /** The shared list, as the program changes it. */
  class LockList {
    var nodes: seq<Node>
    var nextId: nat

    constructor ()
      ensures nodes == [] && nextId == 0
    {
      nodes, nextId := [], 0;
    }

    /** The critical section of `Sincro_monitorLock`: the thread goes on with the node it returns. */
    method Enter(inode: nat) returns (id: nat)
      modifies this
      ensures nodes == Entered(old(nodes), inode, old(nextId)) && nextId == old(nextId) + 1
      ensures var i := Find(old(nodes), inode); i < |nodes| && nodes[i].id == id && nodes[i].inode == inode
      ensures (forall j :: 0 <= j < |old(nodes)| ==> old(nodes)[j].inode != inode) ==>
                nodes == old(nodes) + [Node(old(nextId), inode, 1, 0, false)]
      ensures forall i {:trigger old(nodes)[i].inode} :: FirstOf(old(nodes), inode, i) ==>
                nodes == old(nodes)[i := old(nodes)[i].(count := old(nodes)[i].count + 1)]
    {
      var found, i := false, 0;
      while i < |nodes| && !found
        invariant 0 <= i <= |nodes| && nodes == old(nodes) && nextId == old(nextId)
        invariant found ==> i > 0 && nodes[i - 1].inode == inode
        invariant forall j :: 0 <= j < (if found then i - 1 else i) ==> nodes[j].inode != inode
        decreases |nodes| - i, !found
      {
        if nodes[i].inode == inode {
          found := true;
        }
        i := i + 1;
      }
      if found {
        FindIs(nodes, inode, i - 1);
        id := nodes[i - 1].id;
        nodes := nodes[i - 1 := nodes[i - 1].(count := nodes[i - 1].count + 1)];
      } else {
        FindIs(nodes, inode, i);
        id := nextId;
        nodes := nodes + [Node(id, inode, 1, 0, false)];
      }
      nextId := nextId + 1;
    }

    /** The critical section of `Sincro_monitorUnlock`. */
    method Leave(inode: nat)
      requires forall j :: 0 <= j < |nodes| ==> nodes[j].count > 0
      modifies this
      ensures nodes == Left(old(nodes), inode) && nextId == old(nextId)
      ensures (forall j :: 0 <= j < |old(nodes)| ==> old(nodes)[j].inode != inode) ==> nodes == old(nodes)
      ensures forall i {:trigger old(nodes)[i].inode} :: FirstOf(old(nodes), inode, i) ==>
                var n := old(nodes)[i];
                nodes == if n.count == 1 then old(nodes)[..i] + old(nodes)[i + 1..]
                         else if n.writing then old(nodes)[i := n.(count := n.count - 1, writing := false)]
                         else if n.readers > 0 then old(nodes)[i := n.(count := n.count - 1, readers := n.readers - 1)]
                         else old(nodes)[i := n.(count := n.count - 1)]
    {
      var done, i := false, 0;
      while i < |nodes| && !done
        invariant nextId == old(nextId) && 0 <= i
        invariant !done ==> i <= |nodes| && nodes == old(nodes) && forall j :: 0 <= j < i ==> nodes[j].inode != inode
        invariant done ==> nodes == Left(old(nodes), inode)
        decreases |nodes| - i, !done
      {
        if nodes[i].inode == inode {
          done := true;
          FindIs(nodes, inode, i);
          var count := nodes[i].count - 1;
          if count == 0 {
            nodes := nodes[..i] + nodes[i + 1..];
          } else {
            nodes := nodes[i := Unlocked(nodes[i].(count := count))];
          }
        } else {
          i := i + 1;
        }
      }
      if !done {
        FindIs(nodes, inode, i);
      }
    }
  }

  // ----- steps -----

  /** The thread is blocked in `pthread_rwlock_rdlock` or `pthread_rwlock_wrlock`. */
  ghost predicate Blocked(s: State, thread: nat) {
    exists k :: 0 <= k < |s.refs| && s.refs[k].thread == thread && !s.refs[k].granted
  }

  /** A running thread asks for the lock of an inode. */
  ghost predicate EnterStep(s: State, t: State, thread: nat, inode: nat, mode: Mode) {
    && !Blocked(s, thread)
    && var nodes := Entered(s.nodes, inode, s.nextId);
       && Find(nodes, inode) < |nodes|
       && t == State(nodes, s.refs + [Ref(thread, nodes[Find(nodes, inode)].id, inode, mode, false)], s.nextId + 1)
  }

  /** The rwlock of the node at `i` can be taken in this mode. */
  predicate Free(n: Node, mode: Mode) {
    !n.writing && (mode == Write ==> n.readers == 0)
  }

  function Taken(n: Node, mode: Mode): Node {
    if mode == Write then n.(writing := true) else n.(readers := n.readers + 1)
  }

  /** A waiting thread gets the rwlock of its node. */
  ghost predicate GrantStep(s: State, t: State, k: nat, i: nat) {
    && k < |s.refs| && !s.refs[k].granted
    && i < |s.nodes| && s.nodes[i].id == s.refs[k].id && Free(s.nodes[i], s.refs[k].mode)
    && t == State(s.nodes[i := Taken(s.nodes[i], s.refs[k].mode)], s.refs[k := s.refs[k].(granted := true)], s.nextId)
  }

  /** A running thread gives back a lock that it holds. */
  ghost predicate LeaveStep(s: State, t: State, k: nat) {
    && k < |s.refs| && s.refs[k].granted && !Blocked(s, s.refs[k].thread)
    && t == State(Left(s.nodes, s.refs[k].inode), s.refs[..k] + s.refs[k + 1..], s.nextId)
  }

  ghost predicate Step(s: State, t: State) {
    || (exists thread, inode, mode :: EnterStep(s, t, thread, inode, mode))
    || (exists k, i :: GrantStep(s, t, k, i))
    || (exists k :: LeaveStep(s, t, k))
  }

  const INIT := State([], [], 0)

  // ----- what every step keeps -----

  /** How many of the references are to node `id`. */
  function Count(refs: seq<Ref>, id: nat): nat {
    if refs == [] then 0 else Count(refs[..|refs| - 1], id) + if refs[|refs| - 1].id == id then 1 else 0
  }

  /** How many hold its rwlock in this mode. */
  function Held(refs: seq<Ref>, id: nat, mode: Mode): nat {
    if refs == [] then 0
    else Held(refs[..|refs| - 1], id, mode) + if Holds(refs[|refs| - 1], id, mode) then 1 else 0
  }

  predicate Holds(r: Ref, id: nat, mode: Mode) {
    r.id == id && r.granted && r.mode == mode
  }

  /** The node's counters say how many threads refer to it and hold it. */
  ghost predicate NodeOk(refs: seq<Ref>, n: Node) {
    && n.count == Count(refs, n.id) > 0
    && n.readers == Held(refs, n.id, Read) && Held(refs, n.id, Write) == (if n.writing then 1 else 0)
    && (n.writing ==> n.readers == 0)
  }

  /** The node that a reference points to is in the list, with the inode that was asked for. */
  ghost predicate Listed(nodes: seq<Node>, r: Ref) {
    exists i :: 0 <= i < |nodes| && nodes[i].id == r.id && nodes[i].inode == r.inode
  }

  ghost predicate Distinct(nodes: seq<Node>, nextId: nat) {
    && (forall i :: 0 <= i < |nodes| ==> nodes[i].id < nextId)
    && (forall i, j :: 0 <= i < j < |nodes| ==> nodes[i].id != nodes[j].id && nodes[i].inode != nodes[j].inode)
  }

  ghost predicate Inv(s: State) {
    && Distinct(s.nodes, s.nextId)
    && (forall i :: 0 <= i < |s.nodes| ==> NodeOk(s.refs, s.nodes[i]))
    && (forall k :: 0 <= k < |s.refs| ==> Listed(s.nodes, s.refs[k]))
  }

  lemma CountAppend(refs: seq<Ref>, r: Ref, id: nat)
    ensures Count(refs + [r], id) == Count(refs, id) + if r.id == id then 1 else 0
    ensures Held(refs + [r], id, Read) == Held(refs, id, Read) + if Holds(r, id, Read) then 1 else 0
    ensures Held(refs + [r], id, Write) == Held(refs, id, Write) + if Holds(r, id, Write) then 1 else 0
  {
    assert (refs + [r])[..|refs + [r]| - 1] == refs;
  }

  lemma {:induction false} CountConcat(a: seq<Ref>, b: seq<Ref>, id: nat)
    ensures Count(a + b, id) == Count(a, id) + Count(b, id)
    ensures Held(a + b, id, Read) == Held(a, id, Read) + Held(b, id, Read)
    ensures Held(a + b, id, Write) == Held(a, id, Write) + Held(b, id, Write)
    decreases |b|
  {
    if b == [] {
      assert a + b == a;
    } else {
      var last := b[|b| - 1];
      assert a + b == (a + b[..|b| - 1]) + [last] && b == b[..|b| - 1] + [last];
      CountConcat(a, b[..|b| - 1], id);
      CountAppend(a + b[..|b| - 1], last, id);
      CountAppend(b[..|b| - 1], last, id);
    }
  }

  lemma CountOne(r: Ref, id: nat)
    ensures Count([r], id) == if r.id == id then 1 else 0
    ensures Held([r], id, Read) == if Holds(r, id, Read) then 1 else 0
    ensures Held([r], id, Write) == if Holds(r, id, Write) then 1 else 0
  {
    CountAppend([], r, id);
    assert [] + [r] == [r];
  }

  /** Counting around reference `k`. */
  lemma CountAround(refs: seq<Ref>, k: nat, r: Ref, id: nat)
    requires k < |refs|
    ensures Count(refs[k := r], id) == Count(refs[..k] + refs[k + 1..], id) + if r.id == id then 1 else 0
    ensures Held(refs[k := r], id, Read) == Held(refs[..k] + refs[k + 1..], id, Read) +
            if Holds(r, id, Read) then 1 else 0
    ensures Held(refs[k := r], id, Write) == Held(refs[..k] + refs[k + 1..], id, Write) +
            if Holds(r, id, Write) then 1 else 0
  {
    hide Count, Held, Holds;
    assert refs[k := r] == refs[..k] + ([r] + refs[k + 1..]);
    CountConcat(refs[..k], [r] + refs[k + 1..], id);
    CountConcat([r], refs[k + 1..], id);
    CountConcat(refs[..k], refs[k + 1..], id);
    CountOne(r, id);
  }

  /** A node is counted by each reference to it. */
  lemma CountPositive(refs: seq<Ref>, k: nat)
    requires k < |refs|
    ensures Count(refs, refs[k].id) > 0 && (refs[k].granted ==> Held(refs, refs[k].id, refs[k].mode) > 0)
  {
    assert refs[k := refs[k]] == refs;
    CountAround(refs, k, refs[k], refs[k].id);
  }

  /** Nothing that no reference has is counted. */
  lemma {:induction false} CountNone(refs: seq<Ref>, id: nat)
    requires forall k :: 0 <= k < |refs| ==> refs[k].id != id
    ensures Count(refs, id) == 0 && Held(refs, id, Read) == 0 && Held(refs, id, Write) == 0
  {
    if refs != [] {
      CountNone(refs[..|refs| - 1], id);
    }
  }

  lemma EnterKeeps(s: State, t: State, thread: nat, inode: nat, mode: Mode)
    requires Inv(s) && EnterStep(s, t, thread, inode, mode)
    ensures Inv(t)
  {
    hide Count, Held, NodeOk, Listed, Distinct, Entered;
    EnteredAt(s.nodes, inode, s.nextId);
    EnteredNodes(s, inode, t.refs[|s.refs|]);
    forall k | 0 <= k < |t.refs| ensures Listed(t.nodes, t.refs[k]) {
      if k < |s.refs| {
        EnteredListed(s.nodes, inode, s.nextId, s.refs[k]);
      } else {
        EnteredListed(s.nodes, inode, s.nextId, t.refs[k]);
      }
    }
  }

  /** The list after a thread has entered: the node is where it was, or at the end. */
  lemma EnteredAt(nodes: seq<Node>, inode: nat, nextId: nat)
    requires Distinct(nodes, nextId)
    ensures var nodes' := Entered(nodes, inode, nextId);
            && Distinct(nodes', nextId + 1) && Find(nodes, inode) == Find(nodes', inode) < |nodes'|
            && nodes'[Find(nodes', inode)].inode == inode
  {
    FindIs(Entered(nodes, inode, nextId), inode, Find(nodes, inode));
  }

  lemma EnteredListed(nodes: seq<Node>, inode: nat, nextId: nat, r: Ref)
    requires var nodes' := Entered(nodes, inode, nextId);
             Listed(nodes, r) || (Find(nodes', inode) < |nodes'| && nodes'[Find(nodes', inode)].id == r.id
                                  && nodes'[Find(nodes', inode)].inode == r.inode)
    ensures Listed(Entered(nodes, inode, nextId), r)
  {
    var nodes' := Entered(nodes, inode, nextId);
    if Listed(nodes, r) {
      var j :| 0 <= j < |nodes| && nodes[j].id == r.id && nodes[j].inode == r.inode;
      assert nodes'[j].id == r.id && nodes'[j].inode == r.inode;
    }
  }

  lemma EnteredNodes(s: State, inode: nat, r: Ref)
    requires Inv(s) && !r.granted
    requires var nodes, i := Entered(s.nodes, inode, s.nextId), Find(s.nodes, inode); i < |nodes| && nodes[i].id == r.id
    ensures var nodes := Entered(s.nodes, inode, s.nextId); forall j :: 0 <= j < |nodes| ==>
            NodeOk(s.refs + [r], nodes[j])
  {
    hide Count, Held, Find, Listed;
    var nodes, i := Entered(s.nodes, inode, s.nextId), Find(s.nodes, inode);
    FreshCount(s);
    forall j | 0 <= j < |nodes| ensures NodeOk(s.refs + [r], nodes[j]) {
      CountAppend(s.refs, r, nodes[j].id);
      if j < |s.nodes| {
        assert NodeOk(s.refs, s.nodes[j]);
      }
    }
  }

  lemma FreshCount(s: State)
    requires Inv(s)
    ensures Count(s.refs, s.nextId) == 0 && Held(s.refs, s.nextId, Read) == 0 && Held(s.refs, s.nextId, Write) == 0
  {
    hide Count, Held, NodeOk;
    forall k | 0 <= k < |s.refs| ensures s.refs[k].id != s.nextId {
      assert Listed(s.nodes, s.refs[k]);
    }
    CountNone(s.refs, s.nextId);
  }

  lemma GrantKeeps(s: State, t: State, k: nat, i: nat)
    requires Inv(s) && GrantStep(s, t, k, i)
    ensures Inv(t)
  {
    hide Count, Held;
    assert s.refs[k := s.refs[k]] == s.refs;
    forall j | 0 <= j < |t.nodes| ensures NodeOk(t.refs, t.nodes[j]) {
      CountAround(s.refs, k, s.refs[k], s.nodes[j].id);
      CountAround(s.refs, k, t.refs[k], s.nodes[j].id);
      assert NodeOk(s.refs, s.nodes[j]);
    }
    forall m | 0 <= m < |t.refs| ensures Listed(t.nodes, t.refs[m]) {
      assert Listed(s.nodes, s.refs[m]);
      var j :| 0 <= j < |s.nodes| && s.nodes[j].id == s.refs[m].id && s.nodes[j].inode == s.refs[m].inode;
      assert t.nodes[j].id == t.refs[m].id;
    }
  }

  /** Dropping a reference leaves the counters of other nodes right, and those of its own node after
      the thread has counted itself out and unlocked it. */
  lemma NodesLeft(refs: seq<Ref>, k: nat, n: Node)
    requires k < |refs| && refs[k].granted && NodeOk(refs, n)
    ensures refs[k].id != n.id ==> NodeOk(refs[..k] + refs[k + 1..], n)
    ensures refs[k].id == n.id && n.count > 1 ==> NodeOk(refs[..k] + refs[k + 1..], Unlocked(n.(count := n.count - 1)))
    ensures refs[k].id == n.id && n.count == 1 ==> Count(refs[..k] + refs[k + 1..], n.id) == 0
  {
    hide Count, Held;
    assert refs[k := refs[k]] == refs;
    CountAround(refs, k, refs[k], n.id);
    assert refs[k].mode == Read || refs[k].mode == Write;
  }

  lemma LeaveKeeps(s: State, t: State, k: nat)
    requires Inv(s) && LeaveStep(s, t, k)
    ensures Inv(t)
  {
    hide Count, Held, NodeOk, Unlocked;
    var i := Find(s.nodes, s.refs[k].inode);
    NodeOfRef(s, k);
    forall j | 0 <= j < |s.nodes| ensures NodeOk(s.refs, s.nodes[j]) && s.nodes[j].count > 0 {
      NodeCounted(s.refs, s.nodes[j]);
      NodesLeft(s.refs, k, s.nodes[j]);
    }
    LeftNodes(s, k, i);
    LeftRefs(s, k, i);
  }

  lemma NodeCounted(refs: seq<Ref>, n: Node)
    requires NodeOk(refs, n)
    ensures n.count > 0
  {
  }

  lemma LeftNodes(s: State, k: nat, i: nat)
    requires Inv(s) && k < |s.refs| && s.refs[k].granted && i == Find(s.nodes, s.refs[k].inode) < |s.nodes|
    requires s.nodes[i].id == s.refs[k].id
    ensures var nodes, refs := Left(s.nodes, s.refs[k].inode), s.refs[..k] + s.refs[k + 1..];
            Distinct(nodes, s.nextId) && forall j :: 0 <= j < |nodes| ==> NodeOk(refs, nodes[j])
  {
    hide Count, Held, NodeOk;
    var nodes, refs := Left(s.nodes, s.refs[k].inode), s.refs[..k] + s.refs[k + 1..];
    NodeCounted(s.refs, s.nodes[i]);
    forall j | 0 <= j < |nodes| ensures NodeOk(refs, nodes[j]) {
      var j0 := if s.nodes[i].count <= 1 && j >= i then j + 1 else j;
      assert NodeOk(s.refs, s.nodes[j0]);
      NodesLeft(s.refs, k, s.nodes[j0]);
    }
  }

  lemma LeftRefs(s: State, k: nat, i: nat)
    requires Inv(s) && k < |s.refs| && s.refs[k].granted && i == Find(s.nodes, s.refs[k].inode) < |s.nodes|
    requires s.nodes[i].id == s.refs[k].id
    ensures var nodes, refs := Left(s.nodes, s.refs[k].inode), s.refs[..k] + s.refs[k + 1..];
            forall m :: 0 <= m < |refs| ==> Listed(nodes, refs[m])
  {
    hide Count, Held, NodeOk, Left, Distinct;
    var nodes, refs := Left(s.nodes, s.refs[k].inode), s.refs[..k] + s.refs[k + 1..];
    NodeCounted(s.refs, s.nodes[i]);
    NodesLeft(s.refs, k, s.nodes[i]);
    forall m | 0 <= m < |refs| ensures Listed(nodes, refs[m]) {
      assert Listed(s.nodes, s.refs[if m < k then m else m + 1]);
      var j :| 0 <= j < |s.nodes| && s.nodes[j].id == refs[m].id && s.nodes[j].inode == refs[m].inode;
      CountPositive(refs, m);
      var j1 := StillListed(s.nodes, s.refs[k].inode, i, j);
    }
  }

  /** Where node `j` is after a thread has left node `i`. */
  lemma StillListed(nodes: seq<Node>, inode: nat, i: nat, j: nat) returns (j1: nat)
    requires i == Find(nodes, inode) < |nodes| && j < |nodes| && (j != i || nodes[i].count > 1)
    ensures var nodes' := Left(nodes, inode);
            j1 < |nodes'| && nodes'[j1].id == nodes[j].id && nodes'[j1].inode == nodes[j].inode
  {
    j1 := if nodes[i].count <= 1 && j > i then j - 1 else j;
  }

  /** The node that `Sincro_monitorUnlock` finds by inode is the one that the thread locked. */
  lemma NodeOfRef(s: State, k: nat)
    requires Inv(s) && k < |s.refs|
    ensures var i := Find(s.nodes, s.refs[k].inode); i < |s.nodes| && s.nodes[i].id == s.refs[k].id
  {
    hide NodeOk;
    assert Listed(s.nodes, s.refs[k]);
    var j :| 0 <= j < |s.nodes| && s.nodes[j].id == s.refs[k].id && s.nodes[j].inode == s.refs[k].inode;
    FindIs(s.nodes, s.refs[k].inode, j);
  }

  lemma StepKeeps(s: State, t: State)
    requires Inv(s) && Step(s, t)
    ensures Inv(t)
  {
    hide Inv, EnterStep, GrantStep, LeaveStep;
    if thread: nat, inode: nat, mode :| EnterStep(s, t, thread, inode, mode) {
      EnterKeeps(s, t, thread, inode, mode);
    } else if k: nat, i: nat :| GrantStep(s, t, k, i) {
      GrantKeeps(s, t, k, i);
    } else {
      var k: nat :| LeaveStep(s, t, k);
      LeaveKeeps(s, t, k);
    }
  }

  /** A run from the empty table. */
  ghost predicate IsRun(run: seq<State>) {
    && |run| > 0 && run[0] == INIT
    && forall k :: 0 < k < |run| ==> Step(run[k - 1], run[k])
  }

  /** The invariant holds in every state of every run. */
  lemma {:induction false} RunsKeep(run: seq<State>, k: nat)
    requires IsRun(run) && k < |run|
    ensures Inv(run[k])
  {
    if k > 0 {
      RunsKeep(run, k - 1);
      StepKeeps(run[k - 1], run[k]);
    }
  }

  /** There is at most one node for an inode, and it counts the threads that wait for it or hold it. */
  lemma OneNodeEach(run: seq<State>, k: nat, i: nat, j: nat)
    requires IsRun(run) && k < |run| && i < |run[k].nodes| && j < |run[k].nodes|
    requires run[k].nodes[i].inode == run[k].nodes[j].inode
    ensures i == j && run[k].nodes[i].count == Count(run[k].refs, run[k].nodes[i].id)
  {
    RunsKeep(run, k);
    assert NodeOk(run[k].refs, run[k].nodes[i]);
  }

  /** A thread that waits for a node or holds it finds it in the list: nodes go only when no thread
      refers to them. */
  lemma NoDanglingNode(run: seq<State>, k: nat, m: nat)
    requires IsRun(run) && k < |run| && m < |run[k].refs|
    ensures Listed(run[k].nodes, run[k].refs[m])
  {
    RunsKeep(run, k);
  }

  /** A writer never holds an inode together with any other holder. */
  lemma WriterAlone(run: seq<State>, k: nat, m: nat, m': nat)
    requires IsRun(run) && k < |run| && m < |run[k].refs| && m' < |run[k].refs| && m != m'
    requires run[k].refs[m].granted && run[k].refs[m'].granted && run[k].refs[m].inode == run[k].refs[m'].inode
    ensures run[k].refs[m].mode == Read && run[k].refs[m'].mode == Read
  {
    hide Count, Held;
    var s := run[k];
    RunsKeep(run, k);
    NodeOfRef(s, m);
    NodeOfRef(s, m');
    var i := Find(s.nodes, s.refs[m].inode);
    assert NodeOk(s.refs, s.nodes[i]);
    CountPositive(s.refs, m);
    CountPositive(s.refs, m');
    if s.refs[m].mode == Write || s.refs[m'].mode == Write {
      TwoHolders(s.refs, if m < m' then m else m', if m < m' then m' else m);
    }
  }

  lemma TwoHolders(refs: seq<Ref>, m: nat, m': nat)
    requires m < m' < |refs| && refs[m].granted && refs[m'].granted && refs[m].id == refs[m'].id
    ensures Held(refs, refs[m].id, Read) + Held(refs, refs[m].id, Write) >= 2
  {
    hide Count, Held;
    var id := refs[m].id;
    assert refs[m' := refs[m']] == refs;
    CountAround(refs, m', refs[m'], id);
    var rest := refs[..m'] + refs[m' + 1..];
    assert rest[m] == refs[m];
    assert (refs[m].mode == Read || refs[m].mode == Write) && (refs[m'].mode == Read || refs[m'].mode == Write);
    CountPositive(rest, m);
  }

  /** A thread that waits for an inode can have it if and only if nobody else holds it, or all who hold it read and
      so will this thread. */
  lemma GrantedWhen(run: seq<State>, k: nat, m: nat)
    requires IsRun(run) && k < |run| && m < |run[k].refs| && !run[k].refs[m].granted
    ensures (exists i: nat, t :: GrantStep(run[k], t, m, i)) <==>
            forall j :: 0 <= j < |run[k].refs| && run[k].refs[j].granted && run[k].refs[j].inode == run[k].refs[m].inode
                        ==> run[k].refs[j].mode == Read && run[k].refs[m].mode == Read
  {
    hide Count, Held, NodeOk, Listed;
    var s, r := run[k], run[k].refs[m];
    RunsKeep(run, k);
    NodeOfRef(s, m);
    var i := Find(s.nodes, r.inode);
    forall j | 0 <= j < |s.refs| && s.refs[j].granted && s.refs[j].inode == r.inode
      ensures Free(s.nodes[i], r.mode) ==> s.refs[j].mode == Read && r.mode == Read {
      NodeOfRef(s, j);
      HolderShows(s.refs, s.nodes[i], j);
    }
    if forall j :: 0 <= j < |s.refs| && s.refs[j].granted && s.refs[j].inode == r.inode
                   ==> s.refs[j].mode == Read && r.mode == Read {
      forall j | 0 <= j < |s.refs| && s.refs[j].id == s.nodes[i].id ensures s.refs[j].inode == r.inode {
        InodeOfRef(s, j, i);
      }
      NobodyIn(s.refs, s.nodes[i], r.mode);
      var t := State(s.nodes[i := Taken(s.nodes[i], r.mode)], s.refs[m := r.(granted := true)], s.nextId);
      assert GrantStep(s, t, m, i);
    }
  }

  /** A node is locked in the mode of a thread that holds it. */
  lemma HolderShows(refs: seq<Ref>, n: Node, j: nat)
    requires j < |refs| && refs[j].granted && refs[j].id == n.id && NodeOk(refs, n)
    ensures if refs[j].mode == Write then n.writing else n.readers > 0
  {
    hide Count, Held;
    CountPositive(refs, j);
  }

  lemma InodeOfRef(s: State, j: nat, i: nat)
    requires Inv(s) && j < |s.refs| && i < |s.nodes| && s.refs[j].id == s.nodes[i].id
    ensures s.refs[j].inode == s.nodes[i].inode
  {
    hide Count, Held, NodeOk;
    NodeOfRef(s, j);
  }

  /** If nobody is in the way, the node is free for this mode. */
  lemma NobodyIn(refs: seq<Ref>, n: Node, mode: Mode)
    requires NodeOk(refs, n)
    requires forall j :: 0 <= j < |refs| && refs[j].granted && refs[j].id == n.id ==>
               refs[j].mode == Read && mode == Read
    ensures Free(n, mode)
  {
    hide Count, Held;
    HeldNone(refs, n.id, Write);
    if mode == Write {
      HeldNone(refs, n.id, Read);
    }
  }

  lemma {:induction false} HeldNone(refs: seq<Ref>, id: nat, mode: Mode)
    requires forall k :: 0 <= k < |refs| ==> !Holds(refs[k], id, mode)
    ensures Held(refs, id, mode) == 0
  {
    if refs != [] {
      HeldNone(refs[..|refs| - 1], id, mode);
    }
  }

  // ----- deadlock -----

  /** A thread waits for at most one lock, of a higher rank than those that it holds. */
  ghost predicate Ordered(s: State, rank: nat -> nat) {
    forall j, k | 0 <= j < |s.refs| && 0 <= k < |s.refs| && j != k && s.refs[j].thread == s.refs[k].thread
      :: !s.refs[k].granted ==> s.refs[j].granted && rank(s.refs[j].inode) < rank(s.refs[k].inode)
  }

  /** A step of threads that ask for locks in increasing rank only. */
  ghost predicate OrderedStep(s: State, t: State, rank: nat -> nat) {
    || (exists thread, inode, mode :: EnterStep(s, t, thread, inode, mode) && Above(s, rank, thread, inode))
    || (exists k, i :: GrantStep(s, t, k, i))
    || (exists k :: LeaveStep(s, t, k))
  }

  ghost predicate Above(s: State, rank: nat -> nat, thread: nat, inode: nat) {
    forall j :: 0 <= j < |s.refs| && s.refs[j].thread == thread ==> rank(s.refs[j].inode) < rank(inode)
  }

  lemma OrderedKept(s: State, t: State, rank: nat -> nat)
    requires Ordered(s, rank) && OrderedStep(s, t, rank)
    ensures Ordered(t, rank) && Step(s, t)
  {
    hide Ordered, EnterStep, GrantStep, LeaveStep, Above;
    if thread: nat, inode: nat, mode :| EnterStep(s, t, thread, inode, mode) && Above(s, rank, thread, inode) {
      OrderedEnter(s, t, rank, thread, inode, mode);
    } else if k: nat, i: nat :| GrantStep(s, t, k, i) {
      OrderedGrant(s, t, rank, k, i);
    } else {
      var k: nat :| LeaveStep(s, t, k);
      OrderedLeave(s, t, rank, k);
    }
  }

  lemma OrderedEnter(s: State, t: State, rank: nat -> nat, thread: nat, inode: nat, mode: Mode)
    requires Ordered(s, rank) && EnterStep(s, t, thread, inode, mode) && Above(s, rank, thread, inode)
    ensures Ordered(t, rank)
  {
    hide Entered;
    assert forall j :: 0 <= j < |s.refs| ==> t.refs[j] == s.refs[j];
  }

  lemma OrderedGrant(s: State, t: State, rank: nat -> nat, k: nat, i: nat)
    requires Ordered(s, rank) && GrantStep(s, t, k, i)
    ensures Ordered(t, rank)
  {
    hide Taken, Free;
  }

  lemma OrderedLeave(s: State, t: State, rank: nat -> nat, k: nat)
    requires Ordered(s, rank) && LeaveStep(s, t, k)
    ensures Ordered(t, rank)
  {
    hide Left;
    assert forall j :: 0 <= j < |t.refs| ==> t.refs[j] == s.refs[if j < k then j else j + 1];
  }

  /** The two ranks agree on the inodes that some thread waits for or holds. */
  ghost predicate SameRanks(s: State, rank: nat -> nat, rank': nat -> nat) {
    forall j :: 0 <= j < |s.refs| ==> rank'(s.refs[j].inode) == rank(s.refs[j].inode)
  }

  lemma RanksChange(s: State, rank: nat -> nat, rank': nat -> nat)
    requires Ordered(s, rank) && SameRanks(s, rank, rank')
    ensures Ordered(s, rank')
  {
  }

  /** A run in which the rank may change at any time, as directories come and go, but not for an inode
      that a thread waits for or holds.  `ranks[k]` is the rank in the `k`-th state. */
  ghost predicate IsOrderedRun(run: seq<State>, ranks: seq<nat -> nat>) {
    && |run| == |ranks| > 0 && run[0] == INIT
    && forall k :: 0 < k < |run| ==> RankedStep(run[k - 1], ranks[k - 1], run[k], ranks[k])
  }

  ghost predicate RankedStep(s: State, rank: nat -> nat, t: State, rank': nat -> nat) {
    (t == s || OrderedStep(s, t, rank)) && SameRanks(t, rank, rank')
  }

  lemma {:induction false} OrderedRunsKeep(run: seq<State>, ranks: seq<nat -> nat>, k: nat)
    requires IsOrderedRun(run, ranks) && k < |run|
    ensures Inv(run[k]) && Ordered(run[k], ranks[k])
  {
    hide Inv, Ordered, OrderedStep, SameRanks;
    if k == 0 {
      InitOrdered(ranks[0]);
    } else {
      OrderedRunsKeep(run, ranks, k - 1);
      assert RankedStep(run[k - 1], ranks[k - 1], run[k], ranks[k]);
      if run[k] != run[k - 1] {
        OrderedKept(run[k - 1], run[k], ranks[k - 1]);
        StepKeeps(run[k - 1], run[k]);
      }
      RanksChange(run[k], ranks[k - 1], ranks[k]);
    }
  }

  lemma InitOrdered(rank: nat -> nat)
    ensures Inv(INIT) && Ordered(INIT, rank)
  {
  }

  /** A grant that also keeps readers out while a writer waits, as some rwlocks do. */
  ghost predicate FairGrant(s: State, t: State, k: nat, i: nat) {
    && GrantStep(s, t, k, i)
    && (s.refs[k].mode == Read ==>
          forall j :: 0 <= j < |s.refs| && !s.refs[j].granted && s.refs[j].id == s.refs[k].id ==>
            s.refs[j].mode == Read)
  }

  /** A thread that waits for a lock or holds one can go on. */
  ghost predicate CanGoOn(s: State) {
    (exists t, k, i :: FairGrant(s, t, k, i)) || (exists t, k :: LeaveStep(s, t, k))
  }

  function Key(r: Ref, rank: nat -> nat): nat {
    2 * rank(r.inode) + if r.mode == Write then 1 else 0
  }

  /** The waiting reference of highest rank, a writer if there is one. */
  lemma {:induction false} Highest(refs: seq<Ref>, rank: nat -> nat) returns (k: nat)
    requires exists j :: 0 <= j < |refs| && !refs[j].granted
    ensures k < |refs| && !refs[k].granted
    ensures forall j :: 0 <= j < |refs| && !refs[j].granted ==> Key(refs[j], rank) <= Key(refs[k], rank)
  {
    hide Key;
    var last := |refs| - 1;
    if exists j :: 0 <= j < last && !refs[j].granted {
      var j0 :| 0 <= j0 < last && !refs[j0].granted;
      assert !refs[..last][j0].granted;
      k := Highest(refs[..last], rank);
      assert forall j :: 0 <= j < last ==> refs[..last][j] == refs[j];
      if !refs[last].granted && Key(refs[last], rank) > Key(refs[k], rank) {
        k := last;
      }
    } else {
      k := last;
    }
  }

  lemma {:induction false} HolderOf(refs: seq<Ref>, id: nat, mode: Mode) returns (m: nat)
    requires Held(refs, id, mode) > 0
    ensures m < |refs| && Holds(refs[m], id, mode)
  {
    m := |refs| - 1;
    if !Holds(refs[m], id, mode) {
      m := HolderOf(refs[..m], id, mode);
    }
  }

  /** A node whose rwlock cannot be taken has a holder. */
  lemma HolderOfNode(s: State, i: nat, mode: Mode) returns (m: nat)
    requires Inv(s) && i < |s.nodes| && !Free(s.nodes[i], mode)
    ensures m < |s.refs| && s.refs[m].granted && s.refs[m].id == s.nodes[i].id
  {
    assert NodeOk(s.refs, s.nodes[i]);
    m := HolderOf(s.refs, s.nodes[i].id, if s.nodes[i].writing then Write else Read);
  }

  /** References to the same node are for the same inode. */
  lemma SameNode(s: State, k: nat, m: nat)
    requires Inv(s) && k < |s.refs| && m < |s.refs| && s.refs[k].id == s.refs[m].id
    ensures s.refs[k].inode == s.refs[m].inode
  {
    hide NodeOk;
    assert Listed(s.nodes, s.refs[k]) && Listed(s.nodes, s.refs[m]);
  }

  lemma CanLeave(s: State, m: nat)
    requires m < |s.refs| && s.refs[m].granted && !Blocked(s, s.refs[m].thread)
    ensures CanGoOn(s)
  {
    var t := State(Left(s.nodes, s.refs[m].inode), s.refs[..m] + s.refs[m + 1..], s.nextId);
    assert LeaveStep(s, t, m);
  }

  /** Nested requests in increasing rank never deadlock: while any request is unfinished, some thread
      can go on.  The rank may change meanwhile, but not for inodes that are waited for or held. */
  lemma NeverStuck(run: seq<State>, ranks: seq<nat -> nat>, at: nat)
    requires IsOrderedRun(run, ranks) && at < |run| && run[at].refs != []
    ensures CanGoOn(run[at])
  {
    hide Inv, Ordered, FairGrant, LeaveStep;
    OrderedRunsKeep(run, ranks, at);
    var s := run[at];
    if exists j :: 0 <= j < |s.refs| && !s.refs[j].granted {
      var m := GrantOrHolder(s, ranks[at]);
      if !exists t, k, i :: FairGrant(s, t, k, i) {
        CanLeave(s, m);
      }
    } else {
      CanLeave(s, 0);
    }
  }

  /** When some thread waits, a lock can be granted or some thread holds one and does not wait. */
  lemma GrantOrHolder(s: State, rank: nat -> nat) returns (m: nat)
    requires Inv(s) && Ordered(s, rank) && exists j :: 0 <= j < |s.refs| && !s.refs[j].granted
    ensures (exists t, k, i :: FairGrant(s, t, k, i)) ||
            (m < |s.refs| && s.refs[m].granted && !Blocked(s, s.refs[m].thread))
  {
    hide Count, Held, NodeOk, FairGrant;
    m := 0;
    var k := Highest(s.refs, rank);
    NodeOfRef(s, k);
    var i := Find(s.nodes, s.refs[k].inode);
    if Free(s.nodes[i], s.refs[k].mode) {
      GrantHighest(s, rank, k, i);
    } else {
      m := HolderOfNode(s, i, s.refs[k].mode);
      SameNode(s, k, m);
      HolderRuns(s, rank, k, m);
    }
  }

  lemma HolderRuns(s: State, rank: nat -> nat, k: nat, m: nat)
    requires Ordered(s, rank) && k < |s.refs| && m < |s.refs| && s.refs[m].granted && s.refs[m].inode == s.refs[k].inode
    requires forall j :: 0 <= j < |s.refs| && !s.refs[j].granted ==> Key(s.refs[j], rank) <= Key(s.refs[k], rank)
    ensures !Blocked(s, s.refs[m].thread)
  {
  }

  lemma GrantHighest(s: State, rank: nat -> nat, k: nat, i: nat)
    requires Inv(s) && k < |s.refs| && !s.refs[k].granted && i < |s.nodes| && s.nodes[i].id == s.refs[k].id
    requires Free(s.nodes[i], s.refs[k].mode)
    requires forall j :: 0 <= j < |s.refs| && !s.refs[j].granted ==> Key(s.refs[j], rank) <= Key(s.refs[k], rank)
    ensures exists t, m, j :: FairGrant(s, t, m, j)
  {
    hide NodeOk;
    var t := State(s.nodes[i := Taken(s.nodes[i], s.refs[k].mode)], s.refs[k := s.refs[k].(granted := true)], s.nextId);
    if s.refs[k].mode == Read {
      forall j | 0 <= j < |s.refs| && !s.refs[j].granted && s.refs[j].id == s.refs[k].id
        ensures s.refs[j].mode == Read {
        SameNode(s, k, j);
      }
    }
    assert FairGrant(s, t, k, i);
  }

  /** Entering, when the place of the inode's node is known. */
  lemma Enters(s: State, t: State, thread: nat, inode: nat, i: nat)
    requires forall k :: 0 <= k < |s.refs| && s.refs[k].thread == thread ==> s.refs[k].granted
    requires i <= |s.nodes| && (i < |s.nodes| ==> s.nodes[i].inode == inode)
    requires forall j :: 0 <= j < i ==> s.nodes[j].inode != inode
    requires t.nodes == if i < |s.nodes| then s.nodes[i := s.nodes[i].(count := s.nodes[i].count + 1)] else
             s.nodes + [Node(s.nextId, inode, 1, 0, false)]
    requires t.refs == s.refs + [Ref(thread, t.nodes[i].id, inode, Write, false)] && t.nextId == s.nextId + 1
    ensures EnterStep(s, t, thread, inode, Write)
  {
    FindIs(s.nodes, inode, i);
    FindIs(t.nodes, inode, i);
  }
}
