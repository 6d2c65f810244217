/** Requests that resolve their paths, then lock, and only then work (rfs/Rfs.c): a machine of any number
    of threads over the directory tree and the list of locks. */
module Resolving {
  import opened DirRecords
  import opened Paths
  import opened DirTree
  import opened LockTable
  import opened LockOrder

  datatype Tree = Tree(dirs: Dirs, used: set<nat>, place: map<nat, Place>)

  ghost predicate IsTree(t: Tree) {
    TreeOk(t.dirs, t.used, t.place)
  }

  /** What a thread does for a request: the inodes it has resolved, in the order in which it locks
      them, and how many of the locks it has asked for. */
  datatype Job = Job(inodes: seq<nat>, asked: nat)

  datatype Server = Server(tree: Tree, locks: State, jobs: map<nat, Job>)

  /** One inode, or a directory and the inode of an entry in it. */
  ghost predicate IsPlan(t: Tree, inodes: seq<nat>) {
    || (|inodes| == 1 && inodes[0] in t.used)
    || (|inodes| == 2 && inodes[0] in t.dirs && HasChild(t.dirs[inodes[0]], inodes[1]))
  }

  // ----- steps -----

  /** A thread takes a request and resolves its paths. */
  ghost predicate ResolveStep(s: Server, t: Server, thread: nat, inodes: seq<nat>) {
    thread !in s.jobs && IsPlan(s.tree, inodes) && t == s.(jobs := s.jobs[thread := Job(inodes, 0)])
  }

  /** It asks for the next of its locks. */
  ghost predicate AskStep(s: Server, t: Server, thread: nat, mode: Mode) {
    && thread in s.jobs
    && var j := s.jobs[thread];
       && j.asked < |j.inodes| && EnterStep(s.locks, t.locks, thread, j.inodes[j.asked], mode)
       && t == s.(locks := t.locks, jobs := s.jobs[thread := Job(j.inodes, j.asked + 1)])
  }

  ghost predicate GetStep(s: Server, t: Server, k: nat, i: nat) {
    GrantStep(s.locks, t.locks, k, i) && t == s.(locks := t.locks)
  }

  ghost predicate HasAsked(s: Server, thread: nat) {
    thread in s.jobs && s.jobs[thread].asked == |s.jobs[thread].inodes|
  }

  /** When it has asked for all of them it gives one back. */
  ghost predicate GiveStep(s: Server, t: Server, k: nat) {
    && k < |s.locks.refs| && HasAsked(s, s.locks.refs[k].thread)
    && LeaveStep(s.locks, t.locks, k) && t == s.(locks := t.locks)
  }

  ghost predicate EndStep(s: Server, t: Server, thread: nat) {
    && HasAsked(s, thread) && (forall k :: 0 <= k < |s.locks.refs| ==> s.locks.refs[k].thread != thread)
    && t == s.(jobs := s.jobs - {thread})
  }

  /** With all its locks held a thread makes or removes an entry. */
  ghost predicate WorkStep(s: Server, t: Server, thread: nat) {
    && HasAsked(s, thread)
    && var inodes := s.jobs[thread].inodes;
       && (forall i :: 0 <= i < |inodes| ==> HoldsWrite(s.locks, thread, inodes[i]))
       && (if |inodes| == 1 then Makes(s.tree, t.tree, inodes[0])
           else |inodes| == 2 && Removes(s.tree, t.tree, inodes[0], inodes[1]))
       && t == s.(tree := t.tree)
  }

  ghost predicate LowestFree(used: set<nat>, i: nat) {
    i != 0 && i !in used && forall j :: 0 < j < i ==> j in used
  }

  /** A new file or directory in directory `d`, with the lowest free inode. */
  ghost predicate Makes(t: Tree, t': Tree, d: nat) {
    && d in t.dirs && d in t.place
    && exists name, i, list ::
         && LowestFree(t.used, i) && NoName(t.dirs[d], name) && name != []
         && Inserted(t.dirs[d], list, Entry(name, i))
         && (t' == WithFile(t, d, list, i) || t' == WithDirectory(t, d, list, i))
  }

  function WithFile(t: Tree, d: nat, list: seq<Entry>, i: nat): Tree {
    t.(dirs := t.dirs[d := list], used := t.used + {i})
  }

  function WithDirectory(t: Tree, d: nat, list: seq<Entry>, i: nat): Tree
    requires d in t.place
  {
    Tree(t.dirs[d := list][i := [Entry(DOT, i), Entry(DOTDOT, d)]], t.used + {i},
         t.place[i := Place(d, t.place[d].depth + 1)])
  }

  /** A file, or a directory with two entries, goes, with its entry in directory `d`. */
  ghost predicate Removes(t: Tree, t': Tree, d: nat, a: nat) {
    && d in t.dirs && HasChild(t.dirs[d], a) && (a in t.dirs ==> |t.dirs[a]| == 2)
    && t' == Without(t, d, a)
  }

  function Without(t: Tree, d: nat, a: nat): Tree
    requires d in t.dirs
  {
    Tree(t.dirs[d := WithoutFirst(t.dirs[d], a)] - {a}, t.used - {a}, t.place)
  }

  /** A step by which a request that has been resolved goes on to its work, or ends. */
  ghost predicate LockingStep(s: Server, t: Server) {
    || (exists thread, mode :: AskStep(s, t, thread, mode))
    || (exists k, i :: GetStep(s, t, k, i))
    || (exists k :: GiveStep(s, t, k))
    || (exists thread :: EndStep(s, t, thread))
  }

  ghost predicate ServerStep(s: Server, t: Server) {
    || LockingStep(s, t)
    || (exists thread, inodes :: ResolveStep(s, t, thread, inodes))
    || (exists thread :: WorkStep(s, t, thread))
  }

  ghost predicate IsServerRun(run: seq<Server>) {
    && |run| > 0 && IsTree(run[0].tree) && run[0].locks == INIT && run[0].jobs == map[]
    && forall k :: 0 < k < |run| ==> ServerStep(run[k - 1], run[k])
  }

  /** Some request can go on; a reader does not overtake a writer that waits. */
  ghost predicate CanProgress(s: Server) {
    || (exists t, thread, mode :: AskStep(s, t, thread, mode))
    || (exists t, k, i :: FairGrant(s.locks, t, k, i))
    || (exists t, k :: GiveStep(s, t, k))
    || (exists t, thread :: EndStep(s, t, thread))
  }

  // ----- what every step keeps -----

  ghost predicate JobOk(j: Job) {
    1 <= |j.inodes| <= 2 && j.asked <= |j.inodes|
  }

  /** A lock belongs to the thread's job.  If the thread waits for it, it is the last that the thread
      has asked for, and the thread holds at most the one before. */
  ghost predicate RefOk(s: Server, k: nat)
    requires k < |s.locks.refs|
  {
    var r := s.locks.refs[k];
    && r.thread in s.jobs && JobOk(s.jobs[r.thread])
    && var j := s.jobs[r.thread];
       && 1 <= j.asked && (j.asked < |j.inodes| ==> r.inode == j.inodes[0])
       && (!r.granted ==>
             && r.inode == j.inodes[j.asked - 1]
             && forall m :: 0 <= m < |s.locks.refs| && m != k && s.locks.refs[m].thread == r.thread ==>
                  s.locks.refs[m].granted && j.asked == 2 && s.locks.refs[m].inode == j.inodes[0])
  }

  ghost predicate ServerOk(s: Server) {
    && IsTree(s.tree) && Inv(s.locks)
    && (forall thread :: thread in s.jobs ==> JobOk(s.jobs[thread]))
    && (forall k :: 0 <= k < |s.locks.refs| ==> RefOk(s, k))
  }

  lemma ServerStepKeeps(s: Server, t: Server)
    requires ServerOk(s) && ServerStep(s, t)
    ensures ServerOk(t)
  {
    hide IsTree, Inv, RefOk, JobOk, AskStep, GetStep, GiveStep, EndStep, ResolveStep, WorkStep;
    if thread: nat, mode :| AskStep(s, t, thread, mode) {
      AskKeeps(s, t, thread, mode);
    } else if k: nat, i: nat :| GetStep(s, t, k, i) {
      GetKeeps(s, t, k, i);
    } else if k: nat :| GiveStep(s, t, k) {
      GiveKeeps(s, t, k);
    } else if thread: nat :| EndStep(s, t, thread) {
      EndKeeps(s, t, thread);
    } else if thread: nat, inodes :| ResolveStep(s, t, thread, inodes) {
      ResolveKeeps(s, t, thread, inodes);
    } else {
      var thread: nat :| WorkStep(s, t, thread);
      WorkKeeps(s, t, thread);
    }
  }

  lemma AskKeeps(s: Server, t: Server, thread: nat, mode: Mode)
    requires ServerOk(s) && AskStep(s, t, thread, mode)
    ensures ServerOk(t)
  {
    hide IsTree, Inv, Entered;
    var refs, refs' := s.locks.refs, t.locks.refs;
    assert LockTable.Step(s.locks, t.locks) by {
      hide EnterStep;
      assert EnterStep(s.locks, t.locks, thread, s.jobs[thread].inodes[s.jobs[thread].asked], mode);
    }
    StepKeeps(s.locks, t.locks);
    forall k | 0 <= k < |refs'| ensures RefOk(t, k) {
      assert forall m :: 0 <= m < |refs| ==> refs'[m] == refs[m] && RefOk(s, m);
    }
  }

  lemma GetKeeps(s: Server, t: Server, k: nat, i: nat)
    requires ServerOk(s) && GetStep(s, t, k, i)
    ensures ServerOk(t)
  {
    hide IsTree, Inv, Taken, Free;
    assert LockTable.Step(s.locks, t.locks);
    StepKeeps(s.locks, t.locks);
    forall m | 0 <= m < |t.locks.refs| ensures RefOk(t, m) {
      assert RefOk(s, m);
    }
  }

  lemma GiveKeeps(s: Server, t: Server, k: nat)
    requires ServerOk(s) && GiveStep(s, t, k)
    ensures ServerOk(t)
  {
    hide IsTree, Inv, Left;
    assert LockTable.Step(s.locks, t.locks);
    StepKeeps(s.locks, t.locks);
    forall m | 0 <= m < |t.locks.refs| ensures RefOk(t, m) {
      assert RefOk(s, if m < k then m else m + 1);
      assert forall j :: 0 <= j < |t.locks.refs| ==> t.locks.refs[j] == s.locks.refs[if j < k then j else j + 1];
    }
  }

  lemma EndKeeps(s: Server, t: Server, thread: nat)
    requires ServerOk(s) && EndStep(s, t, thread)
    ensures ServerOk(t)
  {
    hide IsTree, Inv;
    forall m | 0 <= m < |t.locks.refs| ensures RefOk(t, m) {
      assert RefOk(s, m);
    }
  }

  lemma ResolveKeeps(s: Server, t: Server, thread: nat, inodes: seq<nat>)
    requires ServerOk(s) && ResolveStep(s, t, thread, inodes)
    ensures ServerOk(t)
  {
    hide IsTree, Inv;
    forall m | 0 <= m < |t.locks.refs| ensures RefOk(t, m) {
      assert RefOk(s, m);
    }
  }

  lemma WorkKeeps(s: Server, t: Server, thread: nat)
    requires ServerOk(s) && WorkStep(s, t, thread)
    ensures ServerOk(t)
  {
    hide Makes, Removes, Inv, HoldsWrite, IsTree;
    var inodes := s.jobs[thread].inodes;
    if |inodes| == 1 {
      MakesKeeps(s.tree, t.tree, inodes[0]);
    } else {
      RemovesKeeps(s.tree, t.tree, inodes[0], inodes[1]);
    }
    forall m | 0 <= m < |t.locks.refs| ensures RefOk(t, m) {
      assert RefOk(s, m);
    }
  }

  lemma MakesKeeps(t: Tree, t': Tree, d: nat)
    requires IsTree(t) && Makes(t, t', d)
    ensures IsTree(t')
  {
    hide TreeOk, LowestFree, NoName, Inserted;
    var name, i: nat, list :|
      && LowestFree(t.used, i) && NoName(t.dirs[d], name) && name != []
      && Inserted(t.dirs[d], list, Entry(name, i))
      && (t' == WithFile(t, d, list, i) || t' == WithDirectory(t, d, list, i));
    LowestIsFree(t.used, i);
    if t' == WithFile(t, d, list, i) {
      TreeAddFile(t.dirs, t.used, t.place, d, list, name, i);
    } else {
      TreeAddDir(t.dirs, t.used, t.place, d, list, name, i);
    }
  }

  lemma LowestIsFree(used: set<nat>, i: nat)
    requires LowestFree(used, i)
    ensures i != 0 && i !in used
  {
  }

  lemma ChildlessTree(t: Tree, a: nat)
    requires IsTree(t) && (a in t.dirs ==> |t.dirs[a]| == 2)
    ensures Childless(t.dirs, a)
  {
    hide TreeOk;
    if a in t.dirs {
      TwoEntries(t.dirs, t.used, t.place, a);
    }
  }

  lemma RemovesKeeps(t: Tree, t': Tree, d: nat, a: nat)
    requires IsTree(t) && Removes(t, t', d, a)
    ensures IsTree(t')
  {
    hide TreeOk, WithoutFirst, Childless;
    var e :| e in t.dirs[d] && e.inode == a && !IsDot(e.name);
    var k :| 0 <= k < |t.dirs[d]| && t.dirs[d][k] == e;
    ChildlessTree(t, a);
    TreeRemove(t.dirs, t.used, t.place, d, k);
  }

  lemma {:induction false} ServerRunsKeep(run: seq<Server>, k: nat)
    requires IsServerRun(run) && k < |run|
    ensures ServerOk(run[k])
  {
    hide IsTree, ServerStep, RefOk, JobOk;
    if k > 0 {
      ServerRunsKeep(run, k - 1);
      ServerStepKeeps(run[k - 1], run[k]);
    }
  }

  // ----- an order among the requests that still lock -----

  /** The thread has a pair of inodes to lock, and has not got both locks yet. */
  ghost predicate Pending(s: Server, thread: nat) {
    && thread in s.jobs && |s.jobs[thread].inodes| == 2
    && (s.jobs[thread].asked < 2 || Blocked(s.locks, thread))
  }

  ghost function PendingPairs(s: Server): set<Nest> {
    set thread | thread in s.jobs && Pending(s, thread) :: Nest(s.jobs[thread].inodes[0], s.jobs[thread].inodes[1])
  }

  lemma PendingOrdered(s: Server, rank: map<nat, nat>)
    requires ServerOk(s) && Increasing(rank, PendingPairs(s))
    ensures Ordered(s.locks, RankOf(rank))
  {
    hide IsTree, Inv;
    var refs := s.locks.refs;
    forall j, k | 0 <= j < |refs| && 0 <= k < |refs| && j != k && refs[j].thread == refs[k].thread && !refs[k].granted
      ensures refs[j].granted && RankOf(rank)(refs[j].inode) < RankOf(rank)(refs[k].inode)
    {
      assert RefOk(s, k);
      var thread := refs[k].thread;
      assert Pending(s, thread);
      assert Nest(s.jobs[thread].inodes[0], s.jobs[thread].inodes[1]) in PendingPairs(s);
    }
  }

  /** While the pairs that are still being locked can be ranked, some request can go on. */
  lemma RankedProgress(s: Server, rank: map<nat, nat>)
    requires ServerOk(s) && s.jobs != map[] && Increasing(rank, PendingPairs(s))
    ensures CanProgress(s)
  {
    hide IsTree, RefOk, Ordered, Increasing, EnterStep, LeaveStep, FairGrant, CanProgress;
    if thread :| thread in s.jobs && !Blocked(s.locks, thread) {
      hide Inv;
      RunsOn(s, thread);
    } else {
      var thread :| thread in s.jobs;
      assert Blocked(s.locks, thread);
      PendingOrdered(s, rank);
      hide Inv;
      var m := GrantOrHolder(s.locks, RankOf(rank));
      if m < |s.locks.refs| && !Blocked(s.locks, s.locks.refs[m].thread) {
        OwnerHasJob(s, m);
      }
      FairProgress(s);
    }
  }

  lemma OwnerHasJob(s: Server, m: nat)
    requires ServerOk(s) && m < |s.locks.refs|
    ensures s.locks.refs[m].thread in s.jobs
  {
    assert RefOk(s, m);
  }

  lemma FairProgress(s: Server)
    requires exists t, k, i :: FairGrant(s.locks, t, k, i)
    ensures CanProgress(s)
  {
  }

  /** A request whose thread does not wait can go on. */
  lemma RunsOn(s: Server, thread: nat)
    requires ServerOk(s) && thread in s.jobs && !Blocked(s.locks, thread)
    ensures CanProgress(s)
  {
    hide IsTree, RefOk;
    var j := s.jobs[thread];
    if j.asked < |j.inodes| {
      hide Distinct, NodeOk, Listed;
      var inode, nodes := j.inodes[j.asked], Entered(s.locks.nodes, j.inodes[j.asked], s.locks.nextId);
      EnteredAt(s.locks.nodes, inode, s.locks.nextId);
      hide Entered;
      var locks := State(nodes, s.locks.refs + [Ref(thread, nodes[Find(nodes, inode)].id, inode, Write, false)],
                         s.locks.nextId + 1);
      assert EnterStep(s.locks, locks, thread, inode, Write);
      var t := s.(locks := locks, jobs := s.jobs[thread := Job(j.inodes, j.asked + 1)]);
      assert AskStep(s, t, thread, Write);
    } else if k :| 0 <= k < |s.locks.refs| && s.locks.refs[k].thread == thread {
      var refs := s.locks.refs;
      var locks := State(Left(s.locks.nodes, refs[k].inode), refs[..k] + refs[k + 1..], s.locks.nextId);
      assert LeaveStep(s.locks, locks, k);
      assert GiveStep(s, s.(locks := locks), k);
    } else {
      assert EndStep(s, s.(jobs := s.jobs - {thread}), thread);
    }
  }

  // ----- the tree as an order -----

  ghost function MaxDepth(place: map<nat, Place>): (m: nat)
    ensures forall i :: i in place ==> place[i].depth <= m
    decreases |place|
  {
    if place == map[] then 0 else
      var i :| i in place;
      var rest := place - {i};
      assert |rest| < |place| by { assert place == rest[i := place[i]]; }
      assert forall j :: j in place && j != i ==> j in rest && rest[j] == place[j];
      var m := MaxDepth(rest);
      if m < place[i].depth then place[i].depth else m
  }

  ghost function DepthRank(t: Tree): map<nat, nat> {
    map i | i in t.used :: Rank(t.place, t.dirs, MaxDepth(t.place), i)
  }

  /** What is still being locked was resolved in the tree as it is. */
  ghost predicate PlansCurrent(s: Server) {
    forall thread :: Pending(s, thread) ==> IsPlan(s.tree, s.jobs[thread].inodes)
  }

  lemma DepthIncreases(s: Server)
    requires IsTree(s.tree) && PlansCurrent(s)
    ensures Increasing(DepthRank(s.tree), PendingPairs(s))
  {
    var t := s.tree;
    forall e | e in PendingPairs(s)
      ensures var rank := DepthRank(t); e.held in rank && e.asked in rank && rank[e.held] < rank[e.asked]
    {
      var thread :|
        thread in s.jobs && Pending(s, thread) && e == Nest(s.jobs[thread].inodes[0], s.jobs[thread].inodes[1]);
      assert IsPlan(t, s.jobs[thread].inodes);
      var x :| x in t.dirs[e.held] && x.inode == e.asked && !IsDot(x.name);
      LocksInOrder(t.dirs, t.used, t.place, MaxDepth(t.place), e.held, x);
      assert DirOk(t.dirs, t.used, t.place, e.held);
    }
  }

  /** The tree does not change while a request is between resolving and the last of its locks. */
  ghost predicate QuietStep(s: Server, t: Server) {
    ServerStep(s, t) && (t.tree == s.tree || forall thread :: !Pending(s, thread))
  }

  ghost predicate IsQuietRun(run: seq<Server>) {
    IsServerRun(run) && forall k :: 0 < k < |run| ==> QuietStep(run[k - 1], run[k])
  }

  lemma QuietKeeps(s: Server, t: Server)
    requires PlansCurrent(s) && QuietStep(s, t)
    ensures PlansCurrent(t)
  {
    hide IsPlan, EnterStep, LeaveStep, GrantStep, WorkStep;
    forall thread | Pending(t, thread) ensures IsPlan(t.tree, t.jobs[thread].inodes) {
      if other: nat, mode :| AskStep(s, t, other, mode) {
        AskPending(s, t, other, mode, thread);
      } else if k: nat, i: nat :| GetStep(s, t, k, i) {
        GetPending(s, t, k, i, thread);
      } else if k: nat :| GiveStep(s, t, k) {
        GivePending(s, t, k, thread);
      } else if other: nat :| EndStep(s, t, other) {
        assert Pending(s, thread);
      } else if other: nat, inodes :| ResolveStep(s, t, other, inodes) {
        assert thread != other ==> Pending(s, thread);
      } else {
        var other: nat :| WorkStep(s, t, other);
        WorkPending(s, t, other, thread);
      }
    }
  }

  lemma AskPending(s: Server, t: Server, other: nat, mode: Mode, thread: nat)
    requires AskStep(s, t, other, mode) && Pending(t, thread)
    ensures Pending(s, thread) && t.tree == s.tree && t.jobs[thread].inodes == s.jobs[thread].inodes
  {
    hide Entered;
    if thread != other && Blocked(t.locks, thread) {
      var k :| 0 <= k < |t.locks.refs| && t.locks.refs[k].thread == thread && !t.locks.refs[k].granted;
      assert s.locks.refs[k] == t.locks.refs[k];
    }
  }

  lemma GetPending(s: Server, t: Server, k: nat, i: nat, thread: nat)
    requires GetStep(s, t, k, i) && Pending(t, thread)
    ensures Pending(s, thread) && t.tree == s.tree && t.jobs == s.jobs
  {
    hide Taken, Free;
  }

  lemma GivePending(s: Server, t: Server, k: nat, thread: nat)
    requires GiveStep(s, t, k) && Pending(t, thread)
    ensures Pending(s, thread) && t.tree == s.tree && t.jobs == s.jobs
  {
    hide Left;
    if Blocked(t.locks, thread) {
      var m :| 0 <= m < |t.locks.refs| && t.locks.refs[m].thread == thread && !t.locks.refs[m].granted;
      assert t.locks.refs[m] == s.locks.refs[if m < k then m else m + 1];
    }
  }

  lemma WorkPending(s: Server, t: Server, other: nat, thread: nat)
    requires WorkStep(s, t, other) && Pending(t, thread)
    ensures Pending(s, thread) && t.jobs == s.jobs
  {
  }

  lemma {:induction false} QuietRunsKeep(run: seq<Server>, k: nat)
    requires IsQuietRun(run) && k < |run|
    ensures PlansCurrent(run[k])
  {
    hide IsTree, QuietStep, ServerStep, IsPlan;
    if k > 0 {
      QuietRunsKeep(run, k - 1);
      hide PlansCurrent;
      QuietKeeps(run[k - 1], run[k]);
    }
  }

  /** The server never deadlocks while the tree does not change between a request's resolving its paths
      and its getting the last of its locks. */
  lemma QuietNeverStuck(run: seq<Server>, at: nat)
    requires IsQuietRun(run) && at < |run| && run[at].jobs != map[]
    ensures CanProgress(run[at])
  {
    hide CanProgress, QuietStep, ServerStep, PlansCurrent, Increasing, RefOk, JobOk;
    ServerRunsKeep(run, at);
    QuietRunsKeep(run, at);
    DepthIncreases(run[at]);
    RankedProgress(run[at], DepthRank(run[at].tree));
  }

  // ----- exactly when resolved requests deadlock -----

  ghost predicate IsLockingRun(run: seq<Server>, s: Server) {
    |run| > 0 && run[0] == s && forall k :: 0 < k < |run| ==> LockingStep(run[k - 1], run[k])
  }

  /** The requests in progress have resolved their paths, and none has locked anything yet. */
  ghost predicate Resolved(s: Server) {
    && ServerOk(s) && s.locks == State([], [], s.locks.nextId)
    && forall thread :: thread in s.jobs ==> s.jobs[thread].asked == 0
  }

  lemma PendingBefore(s: Server, t: Server, thread: nat)
    requires LockingStep(s, t) && Pending(t, thread)
    ensures Pending(s, thread) && t.jobs[thread].inodes == s.jobs[thread].inodes
  {
    hide AskStep, GetStep, GiveStep, EndStep;
    if other: nat, mode :| AskStep(s, t, other, mode) {
      AskPending(s, t, other, mode, thread);
    } else if k: nat, i: nat :| GetStep(s, t, k, i) {
      GetPending(s, t, k, i, thread);
    } else if k: nat :| GiveStep(s, t, k) {
      GivePending(s, t, k, thread);
    } else {
      var other: nat :| EndStep(s, t, other);
      EndPending(s, t, other, thread);
    }
  }

  lemma LockingShrinks(s: Server, t: Server)
    requires LockingStep(s, t)
    ensures PendingPairs(t) <= PendingPairs(s)
  {
    hide LockingStep;
    forall e | e in PendingPairs(t) ensures e in PendingPairs(s) {
      var thread :|
        thread in t.jobs && Pending(t, thread) && e == Nest(t.jobs[thread].inodes[0], t.jobs[thread].inodes[1]);
      PendingBefore(s, t, thread);
    }
  }

  lemma EndPending(s: Server, t: Server, other: nat, thread: nat)
    requires EndStep(s, t, other) && Pending(t, thread)
    ensures Pending(s, thread) && t.jobs[thread] == s.jobs[thread]
  {
  }

  lemma {:induction false} LockingRunKeeps(run: seq<Server>, s: Server, k: nat)
    requires ServerOk(s) && IsLockingRun(run, s) && k < |run|
    ensures ServerOk(run[k]) && PendingPairs(run[k]) <= PendingPairs(s)
  {
    hide ServerOk, LockingStep, PendingPairs;
    if k > 0 {
      LockingRunKeeps(run, s, k - 1);
      LockingShrinks(run[k - 1], run[k]);
      ServerStepKeeps(run[k - 1], run[k]);
    }
  }

  /** A thread that holds one lock and waits for another has these two to lock. */
  lemma WaiterPair(s: Server, h: nat, w: nat)
    requires ServerOk(s) && h < |s.locks.refs| && w < |s.locks.refs|
    requires var refs := s.locks.refs; refs[h].thread == refs[w].thread && refs[h].granted && !refs[w].granted
    ensures Nest(s.locks.refs[h].inode, s.locks.refs[w].inode) in PendingPairs(s)
  {
    hide IsTree, Inv;
    assert RefOk(s, w);
    assert Pending(s, s.locks.refs[w].thread);
  }

  /** The pairs of a circle of waiting threads are among those that are still being locked. */
  lemma RingInPairs(s: Server, inodes: seq<nat>, threads: seq<nat>, i: nat)
    requires ServerOk(s) && Ringed(s.locks, inodes, threads) && i < |inodes|
    ensures Nest(inodes[i], inodes[Next(i, |inodes|)]) in PendingPairs(s)
  {
    hide ServerOk, PendingPairs;
    var refs, thread, inode := s.locks.refs, threads[i], inodes[Next(i, |inodes|)];
    assert HoldsWrite(s.locks, thread, inodes[i]) && WaitsFor(s.locks, thread, inode);
    var h :| 0 <= h < |refs| && refs[h].thread == thread && refs[h].inode == inodes[i] && refs[h].granted;
    var w :| 0 <= w < |refs| && refs[w].thread == thread && refs[w].inode == inode && !refs[w].granted;
    WaiterPair(s, h, w);
  }

  lemma {:induction false} RankAround(c: seq<nat>, pairs: set<Nest>, rank: map<nat, nat>, k: nat)
    requires Increasing(rank, pairs) && k < |c| && Closed(c, pairs)
    ensures c[0] in rank && c[k] in rank && rank[c[0]] <= rank[c[k]]
  {
    assert Nest(c[k], c[Next(k, |c|)]) in pairs;
    if k > 0 {
      RankAround(c, pairs, rank, k - 1);
      assert Nest(c[k - 1], c[Next(k - 1, |c|)]) in pairs;
    }
  }

  /** A rank cannot increase all around a circle. */
  lemma NoRankAround(c: seq<nat>, pairs: set<Nest>, rank: map<nat, nat>)
    requires Increasing(rank, pairs) && c != []
    ensures !Closed(c, pairs)
  {
    var n := |c|;
    if Closed(c, pairs) {
      assert Nest(c[n - 1], c[Next(n - 1, n)]) in pairs;
      RankAround(c, pairs, rank, n - 1);
    }
  }

  /** With a rank on the pairs there is no circle of waiting threads. */
  lemma RankedNotDeadlocked(s: Server, rank: map<nat, nat>)
    requires ServerOk(s) && Increasing(rank, PendingPairs(s))
    ensures !Deadlocked(s.locks)
  {
    hide ServerOk, PendingPairs, HoldsWrite, WaitsFor, Increasing;
    if inodes, threads :| Ringed(s.locks, inodes, threads) {
      NoRankAround(inodes, PendingPairs(s), rank);
      var i :| 0 <= i < |inodes| && Nest(inodes[i], inodes[Next(i, |inodes|)]) !in PendingPairs(s);
      RingInPairs(s, inodes, threads, i);
    }
  }

  /** The threads whose pairs make the circle. */
  lemma {:induction false} ThreadsOf(s: Server, c: seq<nat>, k: nat) returns (threads: seq<nat>)
    requires IsCycle(c, PendingPairs(s)) && k <= |c|
    ensures |threads| == k
    ensures forall i :: 0 <= i < k ==> threads[i] in s.jobs && s.jobs[threads[i]].inodes == [c[i], c[Next(i, |c|)]]
  {
    threads := [];
    if k > 0 {
      threads := ThreadsOf(s, c, k - 1);
      assert Nest(c[k - 1], c[Next(k - 1, |c|)]) in PendingPairs(s);
      var thread :| thread in s.jobs && Pending(s, thread) &&
        Nest(c[k - 1], c[Next(k - 1, |c|)]) == Nest(s.jobs[thread].inodes[0], s.jobs[thread].inodes[1]);
      threads := threads + [thread];
    }
  }

  /** The jobs after the first `k` of the threads have asked for `asked` locks each. */
  function Asked(jobs: map<nat, Job>, threads: seq<nat>, k: nat, asked: nat): map<nat, Job>
    requires k <= |threads|
  {
    map thread | thread in jobs :: if thread in threads[..k] then Job(jobs[thread].inodes, asked) else jobs[thread]
  }

  lemma AskedMore(jobs: map<nat, Job>, threads: seq<nat>, k: nat, asked: nat)
    requires k < |threads| && threads[k] in jobs && forall i, j :: 0 <= i < j < |threads| ==> threads[i] != threads[j]
    ensures Asked(jobs, threads, k, asked).Keys == jobs.Keys
    ensures Asked(jobs, threads, k, asked)[threads[k]] == jobs[threads[k]]
    ensures Asked(jobs, threads, k + 1, asked)
         == Asked(jobs, threads, k, asked)[threads[k] := Job(jobs[threads[k]].inodes, asked)]
  {
    assert threads[..k + 1] == threads[..k] + [threads[k]];
    assert threads[k] !in threads[..k];
  }

  lemma LockingLonger(run: seq<Server>, s: Server, t: Server)
    requires IsLockingRun(run, s) && LockingStep(run[|run| - 1], t)
    ensures IsLockingRun(run + [t], s)
  {
    hide LockingStep;
  }

  /** A ring of threads that have each resolved two inodes that follow each other. */
  ghost predicate ResolvedRing(s: Server, r: Ring) {
    && IsRing(r) && s.locks == State([], [], r.base)
    && forall i :: 0 <= i < |r.threads| ==>
         && r.threads[i] in s.jobs
         && s.jobs[r.threads[i]] == Job([r.inodes[i], r.inodes[Next(i, |r.inodes|)]], 0)
  }

  lemma RingAsks(s: Server, r: Ring, k: nat, a: Server, b: Server, c: Server)
    requires ResolvedRing(s, r) && k < |r.inodes|
    requires a == s.(locks := Holding(r, k), jobs := Asked(s.jobs, r.threads, k, 1))
    requires b == s.(locks := Asking(r, k), jobs := Asked(s.jobs, r.threads, k + 1, 1))
    requires c == s.(locks := Holding(r, k + 1), jobs := Asked(s.jobs, r.threads, k + 1, 1))
    ensures AskStep(a, b, r.threads[k], Write) && GetStep(b, c, k, k)
  {
    hide EnterStep, GrantStep, Holding, Asking, Asked;
    OneMore(r, k);
    AskedMore(s.jobs, r.threads, k, 1);
  }

  lemma {:induction false} RingHeld(s: Server, r: Ring, k: nat) returns (run: seq<Server>)
    requires ResolvedRing(s, r) && k <= |r.inodes|
    ensures IsLockingRun(run, s)
    ensures run[|run| - 1] == s.(locks := Holding(r, k), jobs := Asked(s.jobs, r.threads, k, 1))
  {
    hide AskStep, GetStep, Holding, Asking;
    if k == 0 {
      NobodyHolds(r);
      run := [s];
      assert Asked(s.jobs, r.threads, 0, 1) == s.jobs;
    } else {
      hide Asked;
      run := RingHeld(s, r, k - 1);
      var jobs := Asked(s.jobs, r.threads, k, 1);
      var t, u := s.(locks := Asking(r, k - 1), jobs := jobs), s.(locks := Holding(r, k), jobs := jobs);
      RingAsks(s, r, k - 1, run[|run| - 1], t, u);
      LockingLonger(run, s, t);
      LockingLonger(run + [t], s, u);
      run := run + [t] + [u];
    }
  }

  lemma {:induction false} RingWaits(s: Server, r: Ring, k: nat) returns (run: seq<Server>)
    requires ResolvedRing(s, r) && k <= |r.inodes|
    ensures IsLockingRun(run, s)
    ensures var jobs := Asked(s.jobs, r.threads, |r.threads|, 1);
            run[|run| - 1] == s.(locks := Waiting(r, k), jobs := Asked(jobs, r.threads, k, 2))
  {
    hide EnterStep, Waiting, Holding;
    var jobs := Asked(s.jobs, r.threads, |r.threads|, 1);
    if k == 0 {
      NobodyHolds(r);
      run := RingHeld(s, r, |r.inodes|);
      assert Asked(jobs, r.threads, 0, 2) == jobs;
    } else {
      run := RingWaits(s, r, k - 1);
      OneWaits(r, k - 1);
      var thread := r.threads[k - 1];
      assert thread in r.threads[..|r.threads|] && jobs[thread] == Job(s.jobs[thread].inodes, 1);
      AskedMore(jobs, r.threads, k - 1, 2);
      hide Asked;
      var t := s.(locks := Waiting(r, k), jobs := Asked(jobs, r.threads, k, 2));
      assert AskStep(run[|run| - 1], t, thread, Write);
      hide AskStep;
      LockingLonger(run, s, t);
      run := run + [t];
    }
  }

  /** Resolved pairs that run in a circle can be locked until all their threads wait for each other. */
  lemma CircleDeadlocks(s: Server, c: seq<nat>) returns (run: seq<Server>, threads: seq<nat>)
    requires Resolved(s) && IsCycle(c, PendingPairs(s))
    ensures IsLockingRun(run, s) && Ringed(run[|run| - 1].locks, c, threads)
  {
    threads := ThreadsOf(s, c, |c|);
    var r := Ring(c, threads, s.locks.nextId);
    forall i, j | 0 <= i < j < |threads| ensures threads[i] != threads[j] {
      assert s.jobs[threads[i]].inodes[0] == c[i] && s.jobs[threads[j]].inodes[0] == c[j];
    }
    hide ServerOk, PendingPairs;
    run := RingWaits(s, r, |c|);
    RingIsRinged(r);
  }

  // ----- what is left to do -----

  /** The steps that a job has still to ask for, and its end. */
  function JobWork(j: Job): nat {
    1 + if j.asked < |j.inodes| then 3 * (|j.inodes| - j.asked) else 0
  }

  ghost function JobsWork(jobs: map<nat, Job>): nat
    decreases |jobs|
  {
    if jobs == map[] then 0 else
      var thread :| thread in jobs;
      assert |jobs - {thread}| < |jobs| by { assert jobs == (jobs - {thread})[thread := jobs[thread]]; }
      JobWork(jobs[thread]) + JobsWork(jobs - {thread})
  }

  /** It does not matter which job is counted first. */
  lemma {:induction false} JobsWorkOf(jobs: map<nat, Job>, thread: nat)
    requires thread in jobs
    ensures JobsWork(jobs) == JobWork(jobs[thread]) + JobsWork(jobs - {thread})
    decreases |jobs|
  {
    hide JobWork;
    assert |jobs - {thread}| < |jobs| by { assert jobs == (jobs - {thread})[thread := jobs[thread]]; }
    var first :| first in jobs && JobsWork(jobs) == JobWork(jobs[first]) + JobsWork(jobs - {first});
    if first != thread {
      assert |jobs - {first}| < |jobs| by { assert jobs == (jobs - {first})[first := jobs[first]]; }
      JobsWorkOf(jobs - {first}, thread);
      JobsWorkOf(jobs - {thread}, first);
      assert jobs - {first} - {thread} == jobs - {thread} - {first};
    }
  }

  /** A lock that is waited for is still to be granted and given back. */
  function RefsWork(refs: seq<Ref>): nat {
    if refs == [] then 0 else RefsWork(refs[..|refs| - 1]) + if refs[|refs| - 1].granted then 1 else 2
  }

  lemma {:induction false} RefsWorkOf(refs: seq<Ref>, k: nat)
    requires k < |refs|
    ensures RefsWork(refs) == RefsWork(refs[..k] + refs[k + 1..]) + if refs[k].granted then 1 else 2
    ensures RefsWork(refs[k := refs[k].(granted := true)]) == RefsWork(refs[..k] + refs[k + 1..]) + 1
  {
    var n := |refs| - 1;
    var less, more := refs[..k] + refs[k + 1..], refs[k := refs[k].(granted := true)];
    if k < n {
      RefsWorkOf(refs[..n], k);
      assert less[..n - 1] == refs[..n][..k] + refs[..n][k + 1..];
      assert more[..n] == refs[..n][k := refs[..n][k].(granted := true)];
    } else {
      assert less == refs[..n] && more[..n] == refs[..n];
    }
  }

  ghost function Work(s: Server): nat {
    JobsWork(s.jobs) + RefsWork(s.locks.refs)
  }

  /** Every step of locking leaves less to do. */
  lemma LockingWorks(s: Server, t: Server)
    requires LockingStep(s, t)
    ensures Work(t) < Work(s)
  {
    hide AskStep, GetStep, GiveStep, EndStep, JobsWork, RefsWork;
    if thread: nat, mode :| AskStep(s, t, thread, mode) {
      AskWorks(s, t, thread, mode);
    } else if k: nat, i: nat :| GetStep(s, t, k, i) {
      GetWorks(s, t, k, i);
    } else if k: nat :| GiveStep(s, t, k) {
      GiveWorks(s, t, k);
    } else {
      var thread: nat :| EndStep(s, t, thread);
      EndWorks(s, t, thread);
    }
  }

  lemma AskWorks(s: Server, t: Server, thread: nat, mode: Mode)
    requires AskStep(s, t, thread, mode)
    ensures Work(t) < Work(s)
  {
    hide Entered, JobsWork;
    JobsWorkOf(s.jobs, thread);
    JobsWorkOf(t.jobs, thread);
    assert t.jobs - {thread} == s.jobs - {thread};
    var n := |s.locks.refs|;
    assert t.locks.refs[..n] == s.locks.refs;
  }

  lemma GetWorks(s: Server, t: Server, k: nat, i: nat)
    requires GetStep(s, t, k, i)
    ensures Work(t) < Work(s)
  {
    hide LockTable.Taken, Free, JobsWork, RefsWork;
    RefsWorkOf(s.locks.refs, k);
  }

  lemma GiveWorks(s: Server, t: Server, k: nat)
    requires GiveStep(s, t, k)
    ensures Work(t) < Work(s)
  {
    hide Left, JobsWork, RefsWork;
    RefsWorkOf(s.locks.refs, k);
  }

  lemma EndWorks(s: Server, t: Server, thread: nat)
    requires EndStep(s, t, thread)
    ensures Work(t) < Work(s)
  {
    hide JobsWork, RefsWork;
    JobsWorkOf(s.jobs, thread);
  }

  lemma NextStep(s: Server) returns (t: Server)
    requires CanProgress(s)
    ensures LockingStep(s, t)
  {
    hide AskStep, GiveStep, EndStep, GrantStep;
    t := s;
    if u, thread: nat, mode :| AskStep(s, u, thread, mode) {
      t := u;
    } else if u, k: nat, i: nat :| FairGrant(s.locks, u, k, i) {
      t := s.(locks := u);
      assert GetStep(s, t, k, i);
    } else if u, k: nat :| GiveStep(s, u, k) {
      t := u;
    } else {
      var u, thread: nat :| EndStep(s, u, thread);
      t := u;
    }
  }

  /** Requests are in progress, and none can go on. */
  ghost predicate Halted(s: Server) {
    s.jobs != map[] && !CanProgress(s)
  }

  /** Once threads wait for each other in a circle, the others can go on only so long. */
  lemma {:induction false} RunsOut(run: seq<Server>, s: Server, inodes: seq<nat>, threads: seq<nat>)
      returns (more: seq<Server>)
    requires ServerOk(s) && IsLockingRun(run, s) && Ringed(run[|run| - 1].locks, inodes, threads)
    ensures IsLockingRun(more, s) && Halted(more[|more| - 1])
    decreases Work(run[|run| - 1])
  {
    hide ServerOk, LockingStep, CanProgress, Ringed, Work, Inv, IsTree, RefOk;
    var last := run[|run| - 1];
    LockingRunKeeps(run, s, |run| - 1);
    if CanProgress(last) {
      var t := NextStep(last);
      LockingWorks(last, t);
      LockingLonger(run, s, t);
      RingGoesOn(last, t, inodes, threads);
      more := RunsOut(run + [t], s, inodes, threads);
    } else {
      RingHasJob(last, inodes, threads);
      more := run;
    }
  }

  lemma RingGoesOn(s: Server, t: Server, inodes: seq<nat>, threads: seq<nat>)
    requires ServerOk(s) && LockingStep(s, t) && Ringed(s.locks, inodes, threads)
    ensures Ringed(t.locks, inodes, threads)
  {
    hide Ringed, Inv, IsTree, RefOk, LockingStep;
    LocksMove(s, t);
    if t.locks != s.locks {
      RingStays(s.locks, t.locks, inodes, threads);
    }
  }

  lemma RingHasJob(s: Server, inodes: seq<nat>, threads: seq<nat>)
    requires ServerOk(s) && Ringed(s.locks, inodes, threads)
    ensures s.jobs != map[]
  {
    hide Inv, IsTree;
    assert HoldsWrite(s.locks, threads[0], inodes[0]);
    var h :| 0 <= h < |s.locks.refs| && s.locks.refs[h].thread == threads[0];
    assert RefOk(s, h);
  }

  lemma SmallerIncreases(rank: map<nat, nat>, pairs: set<Nest>, fewer: set<Nest>)
    requires Increasing(rank, pairs) && fewer <= pairs
    ensures Increasing(rank, fewer)
  {
  }

  /** Requests that have resolved their paths can lock without ever coming to a halt, whatever they read and
      write, if and only if the pairs that they have to lock can be ranked; and if they cannot, threads can come to
      wait for each other in a circle. */
  lemma ResolvedDeadlockFree(s: Server)
    requires Resolved(s)
    ensures (exists rank: map<nat, nat> :: Increasing(rank, PendingPairs(s))) <==>
            (forall run: seq<Server> :: IsLockingRun(run, s) ==> !Halted(run[|run| - 1]))
    ensures (exists rank: map<nat, nat> :: Increasing(rank, PendingPairs(s))) <==>
            (forall run: seq<Server> :: IsLockingRun(run, s) ==> !Deadlocked(run[|run| - 1].locks))
  {
    hide ServerOk, PendingPairs, LockingStep, IsCycle, Ringed, CanProgress, Increasing;
    if rank: map<nat, nat> :| Increasing(rank, PendingPairs(s)) {
      forall run: seq<Server> | IsLockingRun(run, s)
        ensures !Halted(run[|run| - 1]) && !Deadlocked(run[|run| - 1].locks)
      {
        var last := run[|run| - 1];
        LockingRunKeeps(run, s, |run| - 1);
        SmallerIncreases(rank, PendingPairs(s), PendingPairs(last));
        RankedNotDeadlocked(last, rank);
        if last.jobs != map[] {
          RankedProgress(last, rank);
        }
      }
    } else {
      var rank, c := OrderOrCircle(PendingPairs(s));
      var run, threads := CircleDeadlocks(s, c);
      assert IsLockingRun(run, s) && Deadlocked(run[|run| - 1].locks);
      var more := RunsOut(run, s, c, threads);
      assert IsLockingRun(more, s) && Halted(more[|more| - 1]);
    }
  }

  /** A deadlock is for ever, whatever other requests come and however the tree changes. */
  lemma {:induction false} DeadlockStays(run: seq<Server>, inodes: seq<nat>, threads: seq<nat>, at: nat, later: nat)
    requires IsServerRun(run) && at <= later < |run| && Ringed(run[at].locks, inodes, threads)
    ensures Ringed(run[later].locks, inodes, threads)
    decreases later
  {
    hide Ringed, ServerStep, Inv, IsTree, RefOk, JobOk;
    if at < later {
      DeadlockStays(run, inodes, threads, at, later - 1);
      ServerRunsKeep(run, later - 1);
      LocksMove(run[later - 1], run[later]);
      if run[later].locks != run[later - 1].locks {
        RingStays(run[later - 1].locks, run[later].locks, inodes, threads);
      }
    }
  }

  lemma LocksMove(s: Server, t: Server)
    requires ServerStep(s, t)
    ensures t.locks == s.locks || LockTable.Step(s.locks, t.locks)
  {
    hide EnterStep, GrantStep, LeaveStep;
  }
}
