/** A run of the server's own requests into a deadlock: between resolving and locking the tree turns round. */
module Deadlock {
  import opened DirRecords
  import opened Paths
  import opened DirTree
  import opened LockTable
  import opened LockOrder
  import opened Resolving

  const X: Name := [120]
  const Y: Name := [121]

  /** The first inode that is not reserved. */
  const FIRST: nat := 11

  function Reserved(): set<nat> {
    {1, 2, 3, 4, 5, 6, 7, 8, 9, 10}
  }

  function Own(d: nat, up: nat): seq<Entry> {
    [Entry(DOT, d), Entry(DOTDOT, up)]
  }

  function Child(name: Name, i: nat): seq<Entry> {
    [Entry(name, i)]
  }

  /** The tree that has a root directory and nothing else. */
  function EmptyTree(): Tree {
    Tree(map[ROOT := Own(ROOT, ROOT)], Reserved(), map[ROOT := Place(ROOT, 0)])
  }

  lemma EmptyIsTree()
    ensures IsTree(EmptyTree())
  {
    RootOnly(Reserved());
  }

  /** There is a run from the empty tree to this state. */
  ghost predicate Reachable(s: Server) {
    exists run: seq<Server> :: IsServerRun(run) && run[0].tree == EmptyTree() && run[|run| - 1] == s
  }

  lemma StepsOn(s: Server, t: Server)
    requires Reachable(s) && ServerStep(s, t)
    ensures Reachable(t)
  {
    hide ServerStep, IsTree, EmptyTree;
    var run: seq<Server> :| IsServerRun(run) && run[0].tree == EmptyTree() && run[|run| - 1] == s;
    assert IsServerRun(run + [t]);
  }

  lemma {:induction false} LocksOn(s: Server, more: seq<Server>, k: nat)
    requires Reachable(s) && IsLockingRun(more, s) && k < |more|
    ensures Reachable(more[k])
  {
    hide Reachable, LockingStep;
    if k > 0 {
      LocksOn(s, more, k - 1);
      assert ServerStep(more[k - 1], more[k]);
      hide ServerStep;
      StepsOn(more[k - 1], more[k]);
    }
  }

  // ----- whole requests, one after the other -----

  /** No thread waits for a lock or holds one. */
  predicate Idle(s: Server) {
    s.locks == State([], [], s.locks.nextId)
  }

  lemma Resolves(s: Server, thread: nat, inodes: seq<nat>) returns (t: Server)
    requires Reachable(s) && thread !in s.jobs && IsPlan(s.tree, inodes)
    ensures Reachable(t) && t == s.(jobs := s.jobs[thread := Job(inodes, 0)])
  {
    hide Reachable, IsPlan, LockingStep, WorkStep;
    t := s.(jobs := s.jobs[thread := Job(inodes, 0)]);
    assert ResolveStep(s, t, thread, inodes);
    StepsOn(s, t);
  }

  /** The thread gets the lock of an inode that nobody refers to. */
  lemma Locks(s: Server, thread: nat, inode: nat) returns (t: Server)
    requires Reachable(s) && thread in s.jobs && !Blocked(s.locks, thread)
    requires var j := s.jobs[thread]; j.asked < |j.inodes| && inode == j.inodes[j.asked]
    requires forall i :: 0 <= i < |s.locks.nodes| ==> s.locks.nodes[i].inode != inode
    ensures Reachable(t)
    ensures var j, n := s.jobs[thread], s.locks.nextId;
            t == s.(jobs := s.jobs[thread := Job(j.inodes, j.asked + 1)],
                    locks := State(s.locks.nodes + [Node(n, inode, 1, 0, true)],
                                   s.locks.refs + [Ref(thread, n, inode, Write, true)], n + 1))
  {
    hide Reachable, GiveStep, EndStep, ResolveStep, WorkStep;
    var j, n, k, i := s.jobs[thread], s.locks.nextId, |s.locks.refs|, |s.locks.nodes|;
    var locks, locks' := State(s.locks.nodes + [Node(n, inode, 1, 0, false)],
                               s.locks.refs + [Ref(thread, n, inode, Write, false)], n + 1),
                         State(s.locks.nodes + [Node(n, inode, 1, 0, true)],
                               s.locks.refs + [Ref(thread, n, inode, Write, true)], n + 1);
    var asks := s.(jobs := s.jobs[thread := Job(j.inodes, j.asked + 1)], locks := locks);
    t := asks.(locks := locks');
    Enters(s.locks, locks, thread, inode, i);
    assert AskStep(s, asks, thread, Write);
    assert locks'.nodes == locks.nodes[i := Taken(locks.nodes[i], Write)];
    assert locks'.refs == locks.refs[k := locks.refs[k].(granted := true)];
    assert GetStep(asks, t, k, i);
    hide AskStep, GetStep;
    StepsOn(s, asks);
    StepsOn(asks, t);
  }

  /** The thread gives back the last lock that was taken. */
  lemma GivesBack(s: Server, thread: nat, locks: State, node: Node, r: Ref) returns (t: Server)
    requires Reachable(s) && HasAsked(s, thread) && !Blocked(s.locks, thread)
    requires s.locks == State(locks.nodes + [node], locks.refs + [r], locks.nextId)
    requires node.inode == r.inode && node.count == 1 && r.thread == thread && r.granted
    requires forall i :: 0 <= i < |locks.nodes| ==> locks.nodes[i].inode != r.inode
    ensures Reachable(t) && t == s.(locks := locks)
  {
    hide Reachable, AskStep, GetStep, EndStep, ResolveStep, WorkStep;
    var m, k := |locks.nodes|, |locks.refs|;
    t := s.(locks := locks);
    FindIs(s.locks.nodes, r.inode, m);
    assert s.locks.nodes[..m] + s.locks.nodes[m + 1..] == locks.nodes;
    assert s.locks.refs[..k] + s.locks.refs[k + 1..] == locks.refs;
    assert LeaveStep(s.locks, t.locks, k);
    assert GiveStep(s, t, k);
    hide GiveStep;
    StepsOn(s, t);
  }

  lemma Works(s: Server, thread: nat, tree: Tree) returns (t: Server)
    requires Reachable(s) && WorkStep(s, s.(tree := tree), thread)
    ensures Reachable(t) && t == s.(tree := tree)
  {
    hide Reachable, LockingStep, WorkStep;
    t := s.(tree := tree);
    StepsOn(s, t);
  }

  lemma Ends(s: Server, thread: nat) returns (t: Server)
    requires Reachable(s) && Idle(s) && HasAsked(s, thread)
    ensures Reachable(t) && t == s.(jobs := s.jobs - {thread})
  {
    hide Reachable, AskStep, GetStep, GiveStep, ResolveStep, WorkStep;
    t := s.(jobs := s.jobs - {thread});
    assert EndStep(s, t, thread);
    hide EndStep;
    StepsOn(s, t);
  }

  /** A whole request that makes an entry in directory `d`, while no other request holds locks. */
  lemma ServeMake(s: Server, thread: nat, d: nat, tree: Tree) returns (t: Server)
    requires Reachable(s) && Idle(s) && thread !in s.jobs && d in s.tree.used && Makes(s.tree, tree, d)
    ensures Reachable(t) && Idle(t) && t.tree == tree && t.jobs == s.jobs
  {
    hide Reachable, Makes;
    t := Resolves(s, thread, [d]);
    t := Locks(t, thread, d);
    var node, r := Node(s.locks.nextId, d, 1, 0, true), Ref(thread, s.locks.nextId, d, Write, true);
    assert t.locks == State([node], [r], s.locks.nextId + 1) && t.jobs[thread] == Job([d], 1);
    assert HoldsWrite(t.locks, thread, d) by { assert t.locks.refs[0] == r; }
    t := Works(t, thread, tree);
    t := GivesBack(t, thread, State([], [], s.locks.nextId + 1), node, r);
    t := Ends(t, thread);
    assert t.jobs == s.jobs;
  }

  /** The thread holds the locks of `d` and then `a`, taken as numbers `n` and `n + 1`. */
  function Both(thread: nat, n: nat, d: nat, a: nat): State {
    State([Node(n, d, 1, 0, true)] + [Node(n + 1, a, 1, 0, true)],
          [Ref(thread, n, d, Write, true)] + [Ref(thread, n + 1, a, Write, true)], n + 2)
  }

  lemma LocksBoth(s: Server, thread: nat, d: nat, a: nat) returns (t: Server)
    requires Reachable(s) && Idle(s) && thread !in s.jobs && a != d && IsPlan(s.tree, [d, a])
    ensures Reachable(t)
    ensures t == s.(locks := Both(thread, s.locks.nextId, d, a), jobs := s.jobs[thread := Job([d, a], 2)])
  {
    hide Reachable, IsPlan;
    t := Resolves(s, thread, [d, a]);
    t := Locks(t, thread, d);
    assert t.jobs[thread] == Job([d, a], 1);
    assert t.locks.nodes == [Node(s.locks.nextId, d, 1, 0, true)];
    t := Locks(t, thread, a);
    assert t.jobs == s.jobs[thread := Job([d, a], 2)];
  }

  lemma GivesBackBoth(s: Server, thread: nat, n: nat, d: nat, a: nat) returns (t: Server)
    requires Reachable(s) && HasAsked(s, thread) && s.locks == Both(thread, n, d, a) && a != d
    ensures Reachable(t) && Idle(t) && t == s.(locks := t.locks)
  {
    hide Reachable, HasAsked;
    t := GivesBack(s, thread, State([Node(n, d, 1, 0, true)], [Ref(thread, n, d, Write, true)], n + 2),
                   Node(n + 1, a, 1, 0, true), Ref(thread, n + 1, a, Write, true));
    AskedStill(s, t, thread);
    assert [Node(n, d, 1, 0, true)] == [] + [Node(n, d, 1, 0, true)];
    assert [Ref(thread, n, d, Write, true)] == [] + [Ref(thread, n, d, Write, true)];
    t := GivesBack(t, thread, State([], [], n + 2), Node(n, d, 1, 0, true), Ref(thread, n, d, Write, true));
  }

  lemma AskedStill(s: Server, t: Server, thread: nat)
    requires HasAsked(s, thread) && t.jobs == s.jobs
    ensures HasAsked(t, thread)
  {
  }

  /** A whole request that removes the entry of `a` from directory `d`. */
  lemma ServeRemove(s: Server, thread: nat, d: nat, a: nat, tree: Tree) returns (t: Server)
    requires Reachable(s) && Idle(s) && thread !in s.jobs && a != d && Removes(s.tree, tree, d, a)
    ensures Reachable(t) && Idle(t) && t.tree == tree && t.jobs == s.jobs
  {
    hide Reachable;
    assert IsPlan(s.tree, [d, a]);
    hide Removes, IsPlan;
    t := LocksBoth(s, thread, d, a);
    assert HoldsWrite(t.locks, thread, d) && HoldsWrite(t.locks, thread, a) by {
      assert t.locks.refs[0].inode == d && t.locks.refs[1].inode == a;
    }
    t := Works(t, thread, tree);
    t := GivesBackBoth(t, thread, s.locks.nextId, d, a);
    t := Ends(t, thread);
    assert t.jobs == s.jobs;
  }

  // ----- the tree turns round -----

  /** Inode `i` becomes a new directory in directory `d`. */
  ghost predicate MakesDirectory(t: Tree, t': Tree, d: nat, i: nat) {
    Makes(t, t', d) && i !in t.dirs && i in t'.dirs
  }

  /** Directory `a` is removed from directory `d`. */
  ghost predicate RemovesDirectory(t: Tree, t': Tree, d: nat, a: nat) {
    Removes(t, t', d, a) && a in t.dirs
  }

  /** Making a directory at the end of directory `d`. */
  lemma MakesAtEnd(t: Tree, d: nat, name: Name, i: nat) returns (t': Tree)
    requires d in t.dirs && d in t.place && LowestFree(t.used, i) && NoName(t.dirs[d], name) && name != []
    requires i !in t.dirs
    ensures t' == WithDirectory(t, d, t.dirs[d] + Child(name, i), i) && MakesDirectory(t, t', d, i)
  {
    hide LowestFree, NoName;
    var list, e := t.dirs[d], Entry(name, i);
    t' := WithDirectory(t, d, list + Child(name, i), i);
    assert InsertedAt(list, list + [e], e, |list|) by {
      assert list[..|list|] == list && list[|list|..] == [];
      assert list + [e] == list[..|list|] + [e] + list[|list|..];
    }
    assert Inserted(list, list + [e], e);
  }

  /** Removing an empty directory, listed between `before` and `after`. */
  lemma RemovesBetween(t: Tree, d: nat, before: seq<Entry>, name: Name, a: nat, after: seq<Entry>) returns (t': Tree)
    requires d in t.dirs && t.dirs[d] == before + Child(name, a) + after && NoInode(before, a) && !IsDot(name)
    requires a in t.dirs && |t.dirs[a]| == 2
    ensures t' == Tree(t.dirs[d := before + after] - {a}, t.used - {a}, t.place) && RemovesDirectory(t, t', d, a)
  {
    hide WithoutFirst, NoInode;
    var e := Entry(name, a);
    assert t.dirs[d] == before + ([e] + after) && t.dirs[d][|before|] == e;
    WithoutFirstAt(before, e, after);
    assert HasChild(t.dirs[d], a);
    t' := Without(t, d, a);
  }

  lemma ListFacts(d: nat, up: nat, name: Name, i: nat)
    requires d != i && up != i && (name == X || name == Y)
    ensures NoName(Own(d, up), X) && NoName(Own(d, up), Y) && NoInode(Own(d, up), i)
    ensures |Own(d, up)| == 2 && !IsDot(name) && (name != X ==> NoName(Own(d, up) + Child(name, i), X))
    ensures HasChild(Own(d, up) + Child(name, i), i)
  {
    assert (Own(d, up) + Child(name, i))[2] == Entry(name, i);
  }

  /** Making /x and then /x/x in the empty tree. */
  lemma GoesDown() returns (a: Tree, b: Tree)
    ensures MakesDirectory(EmptyTree(), a, ROOT, 11) && MakesDirectory(a, b, 11, 12) && ROOT in b.place
    ensures b.dirs == map[ROOT := Own(ROOT, ROOT) + Child(X, 11), 11 := Own(11, ROOT) + Child(X, 12), 12 := Own(12, 11)]
    ensures a.used == Reserved() + {11} && b.used == Reserved() + {11, 12}
  {
    hide MakesDirectory, LowestFree, NoName, HasChild, NoInode, IsDot, Own;
    ListFacts(ROOT, ROOT, X, 11);
    ListFacts(11, ROOT, X, 12);
    LowestFrom({}, 11);
    LowestFrom({11}, 12);
    assert Reserved() + {} == Reserved();
    a := MakesAtEnd(EmptyTree(), ROOT, X, 11);
    OwnIs(11, ROOT);
    b := MakesAtEnd(a, 11, X, 12);
    OwnIs(12, 11);
    assert Reserved() + {11} + {12} == Reserved() + {11, 12};
  }

  /** Removing both again. */
  lemma GoesBack(a: Tree) returns (b: Tree, c: Tree)
    requires a.dirs ==
             map[ROOT := Own(ROOT, ROOT) + Child(X, 11), 11 := Own(11, ROOT) + Child(X, 12), 12 := Own(12, 11)]
    requires a.used == Reserved() + {11, 12} && ROOT in a.place
    ensures RemovesDirectory(a, b, 11, 12) && RemovesDirectory(b, c, ROOT, 11) && ROOT in c.place
    ensures c.dirs == map[ROOT := Own(ROOT, ROOT)] && c.used == Reserved()
  {
    hide RemovesDirectory, NoInode, IsDot, HasChild, Own;
    ListFacts(ROOT, ROOT, X, 11);
    ListFacts(11, ROOT, X, 12);
    ListFacts(12, 11, X, 13);
    assert Own(11, ROOT) + Child(X, 12) + [] == Own(11, ROOT) + Child(X, 12);
    assert Own(ROOT, ROOT) + Child(X, 11) + [] == Own(ROOT, ROOT) + Child(X, 11);
    b := RemovesBetween(a, 11, Own(11, ROOT), X, 12, []);
    assert Own(11, ROOT) + [] == Own(11, ROOT) && Own(ROOT, ROOT) + [] == Own(ROOT, ROOT);
    c := RemovesBetween(b, ROOT, Own(ROOT, ROOT), X, 11, []);
  }

  /** Making /y and /x, removing /y, and making /x/x: now inode 12 is above inode 11. */
  lemma GoesUp(a: Tree) returns (b: Tree, c: Tree, d: Tree, e: Tree)
    requires a.dirs == map[ROOT := Own(ROOT, ROOT)] && a.used == Reserved() && ROOT in a.place
    ensures MakesDirectory(a, b, ROOT, 11) && MakesDirectory(b, c, ROOT, 12)
    ensures RemovesDirectory(c, d, ROOT, 11) && MakesDirectory(d, e, 12, 11)
    ensures 12 in e.dirs && HasChild(e.dirs[12], 11) && ROOT in b.used && 12 in d.used
  {
    hide MakesDirectory, RemovesDirectory, LowestFree, NoName, NoInode, IsDot, HasChild, Own;
    ListFacts(ROOT, ROOT, Y, 11);
    ListFacts(12, ROOT, X, 11);
    ListFacts(11, ROOT, X, 12);
    LowestFrom({}, 11);
    LowestFrom({11}, 12);
    LowestFrom({12}, 11);
    assert Reserved() + {} == Reserved();
    b := MakesAtEnd(a, ROOT, Y, 11);
    OwnIs(11, ROOT);
    c := MakesAtEnd(b, ROOT, X, 12);
    OwnIs(12, ROOT);
    d := RemovesBetween(c, ROOT, Own(ROOT, ROOT), Y, 11, Child(X, 12));
    assert Reserved() + {11} + {12} - {11} == Reserved() + {12};
    e := MakesAtEnd(d, 12, X, 11);
  }

  lemma OwnIs(d: nat, up: nat)
    ensures Own(d, up) == [Entry(DOT, d), Entry(DOTDOT, up)]
  {
  }

  lemma LowestFrom(more: set<nat>, i: nat)
    requires i >= FIRST && i !in more && forall j :: FIRST <= j < i ==> j in more
    ensures LowestFree(Reserved() + more, i)
  {
  }

  /** The order can turn round between resolving and locking, with each new directory getting the lowest
      free inode: first directory 12 is in directory 11, and six requests later 11 is in 12. */
  lemma OrderTurnsRound() returns (ts: seq<Tree>)
    ensures |ts| == 9 && ts[0] == EmptyTree()
    ensures MakesDirectory(ts[0], ts[1], ROOT, 11) && MakesDirectory(ts[1], ts[2], 11, 12)
    ensures RemovesDirectory(ts[2], ts[3], 11, 12) && RemovesDirectory(ts[3], ts[4], ROOT, 11)
    ensures MakesDirectory(ts[4], ts[5], ROOT, 11) && MakesDirectory(ts[5], ts[6], ROOT, 12)
    ensures RemovesDirectory(ts[6], ts[7], ROOT, 11) && MakesDirectory(ts[7], ts[8], 12, 11)
    ensures 11 in ts[2].dirs && HasChild(ts[2].dirs[11], 12) && 12 in ts[8].dirs && HasChild(ts[8].dirs[12], 11)
    ensures ROOT in ts[0].used && 11 in ts[1].used && ROOT in ts[4].used && ROOT in ts[5].used && 12 in ts[7].used
  {
    hide MakesDirectory, RemovesDirectory, HasChild, Own;
    var t1, t2 := GoesDown();
    var t3, t4 := GoesBack(t2);
    var t5, t6, t7, t8 := GoesUp(t4);
    ListFacts(11, ROOT, X, 12);
    ts := [EmptyTree(), t1, t2, t3, t4, t5, t6, t7, t8];
  }

  /** Thread 1 resolves its inodes after two requests, thread 2 after six more. */
  lemma BothResolve() returns (s: Server)
    ensures Reachable(s) && Idle(s) && s.jobs == map[1 := Job([11, 12], 0), 2 := Job([12, 11], 0)]
  {
    hide Reachable, Makes, Removes, Own, IsTree;
    var ts := OrderTurnsRound();
    s := StartsEmpty();
    s := ServeMake(s, 0, ROOT, ts[1]);
    s := ServeMake(s, 0, 11, ts[2]);
    assert IsPlan(s.tree, [11, 12]) && IsPlan(ts[8], [12, 11]);
    hide IsPlan, HasChild;
    s := Resolves(s, 1, [11, 12]);
    s := ServeRemove(s, 0, 11, 12, ts[3]);
    s := ServeRemove(s, 0, ROOT, 11, ts[4]);
    s := ServeMake(s, 0, ROOT, ts[5]);
    s := ServeMake(s, 0, ROOT, ts[6]);
    s := ServeRemove(s, 0, ROOT, 11, ts[7]);
    s := ServeMake(s, 0, 12, ts[8]);
    s := Resolves(s, 2, [12, 11]);
  }

  lemma StartsEmpty() returns (s: Server)
    ensures Reachable(s) && Idle(s) && s.jobs == map[] && s.tree == EmptyTree()
  {
    hide EmptyTree, IsTree;
    EmptyIsTree();
    s := Server(EmptyTree(), INIT, map[]);
    assert IsServerRun([s]);
  }

  /** In a run of requests that each do what they should, from the tree with only a root directory, two
      threads resolve two inodes each, the second after the tree has turned round, and then each holds
      one of the locks and waits for the other, for ever. */
  lemma ServerDeadlocks() returns (run: seq<Server>)
    ensures IsServerRun(run) && run[0].tree == EmptyTree()
    ensures Ringed(run[|run| - 1].locks, [11, 12], [1, 2])
  {
    hide IsTree, ServerStep, EmptyTree, Ringed;
    var s := BothResolve();
    var r := Ring([11, 12], [1, 2], s.locks.nextId);
    assert ResolvedRing(s, r);
    hide ResolvedRing, IsLockingRun, Waiting;
    var more := RingWaits(s, r, 2);
    LocksToEnd(s, more);
    RingIsRinged(r);
    run :| IsServerRun(run) && run[0].tree == EmptyTree() && run[|run| - 1] == more[|more| - 1];
  }

  lemma LocksToEnd(s: Server, more: seq<Server>)
    requires Reachable(s) && IsLockingRun(more, s)
    ensures |more| > 0 && Reachable(more[|more| - 1])
  {
    hide Reachable, LockingStep;
    LocksOn(s, more, |more| - 1);
  }
}
