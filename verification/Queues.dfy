/** A queue behind a semaphore and a mutex, used by any number of threads.  Two protocols of the
    program are instances: the pool of sockets of the client (fsc/fsc.c), whose sockets go out and come
    back, and the queue of requests of the server (rfs/Main.c and rfs/Rfs.c), whose requests come in at
    one end and are served at the other. */
module Queues {

  /** The number of a socket or of a request. */
  type Item = nat

  /** Where a thread is: it has passed the semaphore; is in the mutex to pop; has popped, still in the
      mutex; has the item, outside; has a new item to push; is in the mutex to push; has pushed, still in
      the mutex; is out and owes the semaphore a post. */
  datatype Session =
    | Want
    | Locked
    | Got(item: Item)
    | Has(item: Item)
    | Fresh(item: Item)
    | Giving(item: Item)
    | Given
    | Owed

  /** `arrived` are all the items that were ever new, `pushed` and `popped` all that ever entered and
      left the queue, in order. */
  datatype State = State(sem: nat, busy: bool, items: seq<Item>, sessions: seq<Session>,
                         arrived: seq<Item>, pushed: seq<Item>, popped: seq<Item>)

  /** `sem_wait`. */
  predicate WaitStep(s: State, t: State) {
    s.sem > 0 && t == s.(sem := s.sem - 1, sessions := s.sessions + [Want])
  }

  /** `pthread_mutex_lock` before `queue_pop`. */
  predicate LockStep(s: State, t: State, k: nat) {
    && k < |s.sessions| && !s.busy && s.sessions[k].Want?
    && t == s.(busy := true, sessions := s.sessions[k := Locked])
  }

  /** `queue_pop`. */
  predicate PopStep(s: State, t: State, k: nat) {
    && k < |s.sessions| && s.sessions[k].Locked? && s.items != []
    && t == s.(items := s.items[1..], popped := s.popped + [s.items[0]], sessions := s.sessions[k := Got(s.items[0])])
  }

  /** `queue_push`. */
  predicate PushStep(s: State, t: State, k: nat) {
    && k < |s.sessions| && s.sessions[k].Giving?
    && t == s.(items := s.items + [s.sessions[k].item], pushed := s.pushed + [s.sessions[k].item],
               sessions := s.sessions[k := Given])
  }

  /** `pthread_mutex_unlock`. */
  predicate UnlockStep(s: State, t: State, k: nat) {
    && k < |s.sessions| && (s.sessions[k].Got? || s.sessions[k].Given?)
    && t == s.(busy := false, sessions := s.sessions[k := if s.sessions[k].Got? then Has(s.sessions[k].item) else Owed])
  }

  /** `sem_post`. */
  predicate PostStep(s: State, t: State, k: nat) {
    && k < |s.sessions| && s.sessions[k].Owed?
    && t == s.(sem := s.sem + 1, sessions := s.sessions[..k] + s.sessions[k + 1..])
  }

  /** `pthread_mutex_lock` before `queue_push`: of a socket that goes back, or of a new request. */
  predicate GiveStep(s: State, t: State, k: nat) {
    && k < |s.sessions| && !s.busy && (s.sessions[k].Has? || s.sessions[k].Fresh?)
    && t == s.(busy := true, sessions := s.sessions[k := Giving(s.sessions[k].item)])
  }

  /** A thread of the pool gives back the socket that it has. */
  predicate GiveBackStep(s: State, t: State, k: nat) {
    k < |s.sessions| && s.sessions[k].Has? && GiveStep(s, t, k)
  }

  /** The main thread hands in a new request. */
  predicate SubmitStep(s: State, t: State, k: nat) {
    k < |s.sessions| && s.sessions[k].Fresh? && GiveStep(s, t, k)
  }

  /** A session of the one thread that brings new requests. */
  predicate IsMain(x: Session) {
    x.Fresh? || x.Giving? || x.Given? || x.Owed?
  }

  /** The request has not been pushed yet. */
  predicate Unpushed(x: Session) {
    x.Fresh? || x.Giving?
  }

  /** A request has arrived; the main thread is done with the one before. */
  predicate ArriveStep(s: State, t: State, item: Item) {
    && (forall k :: 0 <= k < |s.sessions| ==> !IsMain(s.sessions[k]))
    && t == s.(sessions := s.sessions + [Fresh(item)], arrived := s.arrived + [item])
  }

  /** A worker has served its request. */
  predicate ServeStep(s: State, t: State, k: nat) {
    && k < |s.sessions| && s.sessions[k].Has?
    && t == s.(sessions := s.sessions[..k] + s.sessions[k + 1..])
  }

  /** The steps of both protocols. */
  ghost predicate CommonStep(s: State, t: State) {
    || WaitStep(s, t)
    || exists k ::
         LockStep(s, t, k) || PopStep(s, t, k) || PushStep(s, t, k) || UnlockStep(s, t, k) || PostStep(s, t, k)
  }

  /** The steps of the socket pool: a thread gives back the socket that it has. */
  ghost predicate PoolStep(s: State, t: State) {
    CommonStep(s, t) || (exists k :: GiveBackStep(s, t, k))
  }

  /** The steps of the request queue: the main thread pushes new requests, the workers serve. */
  ghost predicate ServerStep(s: State, t: State) {
    || CommonStep(s, t)
    || (exists k :: SubmitStep(s, t, k))
    || (exists item :: ArriveStep(s, t, item))
    || (exists k :: ServeStep(s, t, k))
  }

  // ----- counting sessions -----

  /** Sessions that the semaphore does not count although the item they stand for is in the queue. */
  function Due(x: Session): nat {
    if x.Want? || x.Locked? || x.Given? || x.Owed? then 1 else 0
  }

  function Inside(x: Session): nat {
    if x.Locked? || x.Got? || x.Giving? || x.Given? then 1 else 0
  }

  /** The item that a session has and the queue has not, if any. */
  function Holding(x: Session): multiset<Item> {
    if x.Got? || x.Has? || x.Fresh? || x.Giving? then multiset{x.item} else multiset{}
  }

  function AllDue(sessions: seq<Session>): nat {
    if sessions == [] then 0 else AllDue(sessions[..|sessions| - 1]) + Due(sessions[|sessions| - 1])
  }

  function AllInside(sessions: seq<Session>): nat {
    if sessions == [] then 0 else AllInside(sessions[..|sessions| - 1]) + Inside(sessions[|sessions| - 1])
  }

  function AllHolding(sessions: seq<Session>): multiset<Item> {
    if sessions == [] then multiset{} else AllHolding(sessions[..|sessions| - 1]) + Holding(sessions[|sessions| - 1])
  }

  lemma CountsAppend(a: seq<Session>, x: Session)
    ensures AllDue(a + [x]) == AllDue(a) + Due(x) && AllInside(a + [x]) == AllInside(a) + Inside(x)
    ensures AllHolding(a + [x]) == AllHolding(a) + Holding(x)
  {
    assert (a + [x])[..|a + [x]| - 1] == a;
  }

  lemma {:induction false} CountsConcat(a: seq<Session>, b: seq<Session>)
    ensures AllDue(a + b) == AllDue(a) + AllDue(b) && AllInside(a + b) == AllInside(a) + AllInside(b)
    ensures AllHolding(a + b) == AllHolding(a) + AllHolding(b)
    decreases |b|
  {
    hide Due, Inside, Holding;
    if b == [] {
      assert a + b == a;
    } else {
      var init, last := b[..|b| - 1], b[|b| - 1];
      assert a + b == (a + init) + [last] && b == init + [last];
      CountsConcat(a, init);
      CountsAppend(a + init, last);
      CountsAppend(init, last);
    }
  }

  /** The counts with session `k` replaced by `x`, in terms of the counts without it. */
  lemma CountsAround(sessions: seq<Session>, k: nat, x: Session)
    requires k < |sessions|
    ensures var rest := sessions[..k] + sessions[k + 1..];
            && AllDue(sessions[k := x]) == AllDue(rest) + Due(x)
            && AllInside(sessions[k := x]) == AllInside(rest) + Inside(x)
            && AllHolding(sessions[k := x]) == AllHolding(rest) + Holding(x)
  {
    hide Due, Inside, Holding, AllDue, AllInside, AllHolding;
    var a, b := sessions[..k], sessions[k + 1..];
    assert sessions[k := x] == (a + [x]) + b;
    CountsConcat(a + [x], b);
    CountsAppend(a, x);
    CountsConcat(a, b);
  }

  /** The counts with session `k` as it is. */
  lemma CountsAt(sessions: seq<Session>, k: nat)
    requires k < |sessions|
    ensures var rest := sessions[..k] + sessions[k + 1..];
            && AllDue(sessions) == AllDue(rest) + Due(sessions[k])
            && AllInside(sessions) == AllInside(rest) + Inside(sessions[k])
            && AllHolding(sessions) == AllHolding(rest) + Holding(sessions[k])
  {
    hide Due, Inside, Holding, AllDue, AllInside, AllHolding;
    assert sessions[k := sessions[k]] == sessions;
    CountsAround(sessions, k, sessions[k]);
  }

  // ----- what every step keeps -----

  /** What left the queue and what is in it is what entered it, in order; the semaphore lacks exactly
      the items in the queue that some session stands for; and the mutex is held by one session at most. */
  ghost predicate Inv(s: State) {
    && s.pushed == s.popped + s.items
    && |s.items| == s.sem + AllDue(s.sessions)
    && AllInside(s.sessions) == (if s.busy then 1 else 0)
  }

  /** A session is replaced, by one that is as much inside the mutex, due and holding as the rest of
      the step accounts for. */
  lemma Replaced(s: State, t: State, k: nat, x: Session)
    requires Inv(s) && k < |s.sessions| && t.sessions == s.sessions[k := x]
    requires t.pushed == t.popped + t.items
    requires |t.items| - t.sem - Due(x) == |s.items| - s.sem - Due(s.sessions[k])
    requires (if t.busy then 1 else 0) - Inside(x) == (if s.busy then 1 else 0) - Inside(s.sessions[k])
    ensures Inv(t)
  {
    hide Due, Inside, Holding, AllDue, AllInside, AllHolding;
    CountsAt(s.sessions, k);
    CountsAround(s.sessions, k, x);
  }

  lemma Dropped(s: State, t: State, k: nat)
    requires Inv(s) && k < |s.sessions| && Inside(s.sessions[k]) == 0
    requires t == s.(sem := s.sem + Due(s.sessions[k]), sessions := s.sessions[..k] + s.sessions[k + 1..])
    ensures Inv(t)
  {
    hide Due, Inside, Holding, AllDue, AllInside, AllHolding;
    CountsAt(s.sessions, k);
  }

  /** A session inside the mutex is the only one. */
  lemma OneInside(s: State, k: nat)
    requires Inv(s) && k < |s.sessions| && Inside(s.sessions[k]) == 1
    ensures s.busy
  {
    hide Due, Holding, AllDue, AllInside, AllHolding;
    CountsAt(s.sessions, k);
  }

  /** The queue is never empty when a thread is about to pop. */
  lemma NeverEmpty(s: State, k: nat)
    requires Inv(s) && k < |s.sessions| && (s.sessions[k].Want? || s.sessions[k].Locked?)
    ensures s.items != []
  {
    hide Inside, Holding, AllDue, AllInside, AllHolding;
    CountsAt(s.sessions, k);
  }

  lemma CommonKeeps(s: State, t: State)
    requires Inv(s) && CommonStep(s, t)
    ensures Inv(t)
  {
    hide AllDue, AllInside, AllHolding, LockStep, PopStep, PushStep, UnlockStep, Inv;
    if WaitStep(s, t) {
      WaitKeeps(s, t);
    } else {
      var k: nat :| LockStep(s, t, k) || PopStep(s, t, k) || PushStep(s, t, k) || UnlockStep(s, t, k) ||
        PostStep(s, t, k);
      if PostStep(s, t, k) {
        Dropped(s, t, k);
      } else {
        MutexKeeps(s, t, k);
      }
    }
  }

  lemma WaitKeeps(s: State, t: State)
    requires Inv(s) && WaitStep(s, t)
    ensures Inv(t)
  {
    hide AllDue, AllInside, AllHolding;
    CountsAppend(s.sessions, Want);
  }

  lemma MutexKeeps(s: State, t: State, k: nat)
    requires Inv(s)
    requires (LockStep(s, t, k) || PopStep(s, t, k) || PushStep(s, t, k) || UnlockStep(s, t, k) || GiveStep(s, t, k))
    ensures Inv(t)
  {
    hide AllDue, AllInside, AllHolding;
    if UnlockStep(s, t, k) {
      OneInside(s, k);
    }
    Replaced(s, t, k, t.sessions[k]);
  }

  lemma PoolKeeps(s: State, t: State)
    requires Inv(s) && PoolStep(s, t)
    ensures Inv(t)
  {
    hide Inv, CommonStep, GiveStep;
    if CommonStep(s, t) {
      CommonKeeps(s, t);
    } else {
      var k: nat :| GiveBackStep(s, t, k);
      MutexKeeps(s, t, k);
    }
  }

  lemma ServerKeeps(s: State, t: State)
    requires Inv(s) && ServerStep(s, t)
    ensures Inv(t)
  {
    hide AllDue, AllInside, AllHolding, CommonStep, GiveStep;
    if CommonStep(s, t) {
      CommonKeeps(s, t);
    } else if k: nat :| SubmitStep(s, t, k) {
      MutexKeeps(s, t, k);
    } else if item :| ArriveStep(s, t, item) {
      CountsAppend(s.sessions, Fresh(item));
    } else {
      var k: nat :| ServeStep(s, t, k);
      Dropped(s, t, k);
    }
  }

  // ----- the request queue -----

  /** The main thread is in one session at most, and every request that has arrived is pushed, but
      for the one in that session. */
  ghost predicate InOrder(s: State) {
    && (forall i, j | 0 <= i < |s.sessions| && 0 <= j < |s.sessions|
          :: IsMain(s.sessions[i]) && IsMain(s.sessions[j]) ==> i == j)
    && (forall k :: 0 <= k < |s.sessions| && Unpushed(s.sessions[k]) ==>
          s.arrived == s.pushed + [s.sessions[k].item])
    && ((forall k :: 0 <= k < |s.sessions| ==> !Unpushed(s.sessions[k])) ==>
        s.arrived == s.pushed)
  }

  /** A step that replaces a session without pushing. */
  lemma OrderReplaced(s: State, t: State, k: nat)
    requires InOrder(s) && k < |s.sessions| && |t.sessions| == |s.sessions|
    requires t.sessions == s.sessions[k := t.sessions[k]]
    requires t.arrived == s.arrived && t.pushed == s.pushed && IsMain(t.sessions[k]) == IsMain(s.sessions[k])
    requires var x, y := s.sessions[k], t.sessions[k];
             Unpushed(x) == Unpushed(y) && (Unpushed(x) ==> x.item == y.item)
    ensures InOrder(t)
  {
    forall j | 0 <= j < |s.sessions| && j != k ensures t.sessions[j] == s.sessions[j] {
    }
    if forall j :: 0 <= j < |t.sessions| ==> !Unpushed(t.sessions[j]) {
      forall j | 0 <= j < |s.sessions| ensures !Unpushed(s.sessions[j]) {
        assert !Unpushed(t.sessions[j]);
      }
    }
  }

  lemma OrderPushed(s: State, t: State, k: nat)
    requires InOrder(s) && PushStep(s, t, k)
    ensures InOrder(t)
  {
    assert IsMain(s.sessions[k]);
    forall j | 0 <= j < |t.sessions| ensures !Unpushed(t.sessions[j]) {
      assert j != k ==> t.sessions[j] == s.sessions[j] && !IsMain(s.sessions[j]);
    }
  }

  /** A session that has nothing to push is dropped. */
  lemma OrderDropped(s: State, t: State, k: nat)
    requires InOrder(s) && k < |s.sessions| && !Unpushed(s.sessions[k])
    requires t.arrived == s.arrived && t.pushed == s.pushed && t.sessions == s.sessions[..k] + s.sessions[k + 1..]
    ensures InOrder(t)
  {
    hide IsMain, Unpushed;
    forall j | 0 <= j < |t.sessions| ensures t.sessions[j] == s.sessions[Before(j, k)] {
    }
    forall i, j | 0 <= i < |t.sessions| && 0 <= j < |t.sessions| && IsMain(t.sessions[i]) && IsMain(t.sessions[j])
      ensures i == j
    {
      assert Before(i, k) == Before(j, k);
    }
    if forall j :: 0 <= j < |t.sessions| ==> !Unpushed(t.sessions[j]) {
      forall j | 0 <= j < |s.sessions| ensures !Unpushed(s.sessions[j]) {
        if j != k {
          assert s.sessions[j] == t.sessions[if j < k then j else j - 1];
        }
      }
    }
  }

  /** Where session `j` was before session `k` was dropped. */
  function Before(j: nat, k: nat): nat {
    if j < k then j else j + 1
  }

  lemma OrderAppended(s: State, t: State, x: Session)
    requires InOrder(s) && t.pushed == s.pushed && t.sessions == s.sessions + [x]
    requires x.Fresh? ==> t.arrived == s.arrived + [x.item] && forall k :: 0 <= k < |s.sessions| ==>
               !IsMain(s.sessions[k])
    requires !x.Fresh? ==> t.arrived == s.arrived && !IsMain(x)
    ensures InOrder(t)
  {
    assert forall j :: 0 <= j < |s.sessions| ==> t.sessions[j] == s.sessions[j];
    if x.Fresh? {
      assert forall k :: 0 <= k < |s.sessions| ==> !IsMain(s.sessions[k]);
      assert t.sessions[|s.sessions|].Fresh?;
    }
  }

  lemma SameRole(s: State, t: State, k: nat)
    requires LockStep(s, t, k) || PopStep(s, t, k) || UnlockStep(s, t, k) || SubmitStep(s, t, k)
    ensures k < |s.sessions| && |t.sessions| == |s.sessions| && t.sessions == s.sessions[k := t.sessions[k]]
    ensures t.arrived == s.arrived && t.pushed == s.pushed && IsMain(t.sessions[k]) == IsMain(s.sessions[k])
    ensures var x, y := s.sessions[k], t.sessions[k];
            Unpushed(x) == Unpushed(y) && (Unpushed(x) ==> x.item == y.item)
  {
  }

  lemma NotMain()
    ensures !IsMain(Want)
  {
  }

  lemma OrderKept(s: State, t: State)
    requires InOrder(s) && ServerStep(s, t)
    ensures InOrder(t)
  {
    hide InOrder, IsMain;
    if WaitStep(s, t) {
      NotMain();
      OrderAppended(s, t, Want);
    } else if item :| ArriveStep(s, t, item) {
      OrderAppended(s, t, Fresh(item));
    } else if k: nat :| ServeStep(s, t, k) || PostStep(s, t, k) {
      OrderDropped(s, t, k);
    } else if k: nat :| PushStep(s, t, k) {
      OrderPushed(s, t, k);
    } else {
      var k: nat :| LockStep(s, t, k) || PopStep(s, t, k) || UnlockStep(s, t, k) || SubmitStep(s, t, k);
      SameRole(s, t, k);
      OrderReplaced(s, t, k);
    }
  }

  ghost predicate IsServerRun(run: seq<State>) {
    && |run| > 0 && run[0] == State(0, false, [], [], [], [], [])
    && forall k :: 0 < k < |run| ==> ServerStep(run[k - 1], run[k])
  }

  lemma {:induction false} ServerRunKeeps(run: seq<State>, k: nat)
    requires IsServerRun(run) && k < |run|
    ensures Inv(run[k]) && InOrder(run[k])
  {
    hide ServerStep;
    if k > 0 {
      ServerRunKeeps(run, k - 1);
      ServerKeeps(run[k - 1], run[k]);
      OrderKept(run[k - 1], run[k]);
    }
  }

  /** Requests are dequeued in the order in which they arrived, each arrival at most once, and a worker
      that has passed the semaphore never finds the queue empty. */
  lemma ServedInOrder(run: seq<State>, k: nat)
    requires IsServerRun(run) && k < |run|
    ensures |run[k].popped| <= |run[k].arrived| && run[k].popped == run[k].arrived[..|run[k].popped|]
    ensures Distinct(run[k].arrived) ==> Distinct(run[k].popped)
    ensures forall j :: 0 <= j < |run[k].sessions| && run[k].sessions[j].Locked? ==> run[k].items != []
  {
    ServerRunKeeps(run, k);
    hide AllDue, AllInside, AllHolding, IsServerRun;
    var s := run[k];
    PushedArrived(s);
    forall j | 0 <= j < |s.sessions| && s.sessions[j].Locked? ensures s.items != [] {
      NeverEmpty(s, j);
    }
  }

  lemma {:induction false} SomeDue(sessions: seq<Session>) returns (k: nat)
    requires AllDue(sessions) > 0
    ensures k < |sessions| && Due(sessions[k]) == 1
  {
    k := |sessions| - 1;
    if Due(sessions[k]) == 0 {
      k := SomeDue(sessions[..k]);
    }
  }

  lemma {:induction false} SomeInside(sessions: seq<Session>) returns (k: nat)
    requires AllInside(sessions) > 0
    ensures k < |sessions| && Inside(sessions[k]) == 1
  {
    k := |sessions| - 1;
    if Inside(sessions[k]) == 0 {
      k := SomeInside(sessions[..k]);
    }
  }

  /** A step of the main thread with a request that has arrived, or of a worker. */
  ghost predicate GoesOn(s: State, t: State) {
    CommonStep(s, t) || exists k :: SubmitStep(s, t, k)
  }

  /** While a request is not dequeued, some thread can go on, in every state of every run, without waiting for
      another request to arrive or to be served: no request is forgotten in the queue. */
  lemma NotForgotten(run: seq<State>, k: nat) returns (t: State)
    requires IsServerRun(run) && k < |run| && |run[k].popped| < |run[k].arrived|
    ensures GoesOn(run[k], t)
  {
    hide AllDue, AllInside, AllHolding, IsServerRun;
    var s := run[k];
    ServerRunKeeps(run, k);
    t := s;
    if s.busy {
      var j := SomeInside(s.sessions);
      t := InsideStep(s, j);
    } else if j: nat :| j < |s.sessions| && s.sessions[j].Fresh? {
      t := s.(busy := true, sessions := s.sessions[j := Giving(s.sessions[j].item)]);
      assert SubmitStep(s, t, j);
    } else if s.sem > 0 {
      t := s.(sem := s.sem - 1, sessions := s.sessions + [Want]);
      assert WaitStep(s, t);
    } else {
      AllPushed(s);
      var j := SomeDue(s.sessions);
      t := OutsideStep(s, j);
    }
  }

  /** The thread in the mutex can go on. */
  lemma InsideStep(s: State, j: nat) returns (t: State)
    requires Inv(s) && j < |s.sessions| && Inside(s.sessions[j]) == 1
    ensures GoesOn(s, t)
  {
    hide AllDue, AllInside, AllHolding;
    match s.sessions[j] {
      case Locked =>
        NeverEmpty(s, j);
        t := s.(items := s.items[1..], popped := s.popped + [s.items[0]], sessions := s.sessions[j := Got(s.items[0])]);
        assert PopStep(s, t, j);
      case Giving(item) =>
        t := s.(items := s.items + [item], pushed := s.pushed + [item], sessions := s.sessions[j := Given]);
        assert PushStep(s, t, j);
      case Got(item) =>
        t := s.(busy := false, sessions := s.sessions[j := Has(item)]);
        assert UnlockStep(s, t, j);
      case Given =>
        t := s.(busy := false, sessions := s.sessions[j := Owed]);
        assert UnlockStep(s, t, j);
    }
  }

  /** So can one that waits for the mutex, or owes the semaphore a post. */
  lemma OutsideStep(s: State, j: nat) returns (t: State)
    requires Inv(s) && !s.busy && j < |s.sessions| && Due(s.sessions[j]) == 1
    ensures GoesOn(s, t)
  {
    hide AllDue, AllInside, AllHolding;
    CountsAt(s.sessions, j);
    if s.sessions[j].Want? {
      t := s.(busy := true, sessions := s.sessions[j := Locked]);
      assert LockStep(s, t, j);
    } else {
      t := s.(sem := s.sem + 1, sessions := s.sessions[..j] + s.sessions[j + 1..]);
      assert PostStep(s, t, j);
    }
  }

  /** Without a request that is about to be pushed, those that are not dequeued are in the queue. */
  lemma AllPushed(s: State)
    requires Inv(s) && InOrder(s) && |s.popped| < |s.arrived| && !s.busy
    requires forall j :: 0 <= j < |s.sessions| ==> !s.sessions[j].Fresh?
    ensures |s.items| > 0
  {
    hide AllDue, AllInside, AllHolding;
    forall j | 0 <= j < |s.sessions| ensures !Unpushed(s.sessions[j]) {
      CountsAt(s.sessions, j);
    }
  }

  lemma PushedArrived(s: State)
    requires InOrder(s)
    ensures |s.pushed| <= |s.arrived| && s.pushed == s.arrived[..|s.pushed|]
  {
  }

  // ----- the socket pool -----

  ghost predicate IsPoolRun(run: seq<State>, all: seq<Item>) {
    && |run| > 0 && run[0] == State(|all|, false, all, [], all, all, [])
    && forall k :: 0 < k < |run| ==> PoolStep(run[k - 1], run[k])
  }

  /** Idle sockets and held ones are all the sockets. */
  ghost predicate Conserved(s: State, all: seq<Item>) {
    multiset(s.items) + AllHolding(s.sessions) == multiset(all)
  }

  lemma Exchange(items: multiset<Item>, items': multiset<Item>,
                 rest: multiset<Item>, h: multiset<Item>, h': multiset<Item>)
    requires items' + h' == items + h
    ensures items' + (rest + h') == items + (rest + h)
  {
    assert items' + (rest + h') == (items' + h') + rest;
    assert items + (rest + h) == (items + h) + rest;
  }

  lemma ReplacedConserves(s: State, t: State, all: seq<Item>, k: nat, x: Session)
    requires Conserved(s, all) && k < |s.sessions| && t.sessions == s.sessions[k := x]
    requires multiset(t.items) + Holding(x) == multiset(s.items) + Holding(s.sessions[k])
    ensures Conserved(t, all)
  {
    hide AllDue, AllInside, AllHolding, Due, Inside, Holding;
    CountsAt(s.sessions, k);
    CountsAround(s.sessions, k, x);
    Exchange(multiset(s.items), multiset(t.items), AllHolding(s.sessions[..k] + s.sessions[k + 1..]),
             Holding(s.sessions[k]), Holding(x));
  }

  lemma PopMoves(s: State, t: State, k: nat)
    requires PopStep(s, t, k)
    ensures multiset(t.items) + Holding(t.sessions[k]) == multiset(s.items) + Holding(s.sessions[k])
  {
    assert s.items == [s.items[0]] + t.items;
  }

  lemma PushMoves(s: State, t: State, k: nat)
    requires PushStep(s, t, k)
    ensures multiset(t.items) + Holding(t.sessions[k]) == multiset(s.items) + Holding(s.sessions[k])
  {
  }

  /** In each step but the first and the last, an item moves between the queue and a session, or stays. */
  lemma StepMoves(s: State, t: State, k: nat)
    requires LockStep(s, t, k) || PopStep(s, t, k) || PushStep(s, t, k) || UnlockStep(s, t, k) || GiveStep(s, t, k)
    ensures k < |s.sessions| && |t.sessions| == |s.sessions| && t.sessions == s.sessions[k := t.sessions[k]]
    ensures multiset(t.items) + Holding(t.sessions[k]) == multiset(s.items) + Holding(s.sessions[k])
  {
    if PopStep(s, t, k) {
      PopMoves(s, t, k);
    } else if PushStep(s, t, k) {
      PushMoves(s, t, k);
    } else {
      assert t.items == s.items;
    }
  }

  lemma CommonConserves(s: State, t: State, all: seq<Item>)
    requires Conserved(s, all) && CommonStep(s, t)
    ensures Conserved(t, all)
  {
    hide AllDue, AllInside, AllHolding, LockStep, PopStep, PushStep, UnlockStep;
    if WaitStep(s, t) {
      CountsAppend(s.sessions, Want);
    } else {
      var k: nat :| LockStep(s, t, k) || PopStep(s, t, k) || PushStep(s, t, k) || UnlockStep(s, t, k) ||
        PostStep(s, t, k);
      if PostStep(s, t, k) {
        CountsAt(s.sessions, k);
      } else {
        StepMoves(s, t, k);
        ReplacedConserves(s, t, all, k, t.sessions[k]);
      }
    }
  }

  lemma PoolConserves(s: State, t: State, all: seq<Item>)
    requires Conserved(s, all) && PoolStep(s, t)
    ensures Conserved(t, all)
  {
    hide Conserved, CommonStep, GiveStep;
    if CommonStep(s, t) {
      CommonConserves(s, t, all);
    } else {
      var k: nat :| GiveBackStep(s, t, k);
      StepMoves(s, t, k);
      ReplacedConserves(s, t, all, k, t.sessions[k]);
    }
  }

  lemma {:induction false} PoolRunKeeps(run: seq<State>, all: seq<Item>, k: nat)
    requires IsPoolRun(run, all) && k < |run|
    ensures Inv(run[k]) && Conserved(run[k], all)
  {
    if k > 0 {
      PoolRunKeeps(run, all, k - 1);
      PoolKeeps(run[k - 1], run[k]);
      PoolConserves(run[k - 1], run[k], all);
    }
  }

  ghost predicate Distinct(all: seq<Item>) {
    forall i, j :: 0 <= i < j < |all| ==> all[i] != all[j]
  }

  lemma {:induction false} DistinctOnce(all: seq<Item>, x: Item)
    requires Distinct(all)
    ensures multiset(all)[x] <= 1
  {
    if all != [] {
      var init, last := all[..|all| - 1], all[|all| - 1];
      assert all == init + [last];
      DistinctOnce(init, x);
      assert x == last ==> x !in init;
    }
  }

  lemma Separate(a: multiset<Item>, b: multiset<Item>, c: multiset<Item>)
    requires forall x :: (a + b + c)[x] <= 1
    ensures a !! b && a !! c && b !! c && b !! a && c !! a && c !! b
  {
    forall x ensures a[x] + b[x] + c[x] <= 1 {
      assert (a + b + c)[x] <= 1;
    }
  }

  /** No socket is held by two threads, none is held and idle, and a thread that has passed the
      semaphore never finds the pool empty. */
  lemma SocketHeldOnce(run: seq<State>, all: seq<Item>, k: nat, i: nat, j: nat)
    requires IsPoolRun(run, all) && Distinct(all) && k < |run| && i < |run[k].sessions| && j < |run[k].sessions|
    requires i != j
    ensures Holding(run[k].sessions[i]) !! Holding(run[k].sessions[j])
    ensures Holding(run[k].sessions[i]) !! multiset(run[k].items)
    ensures run[k].sessions[i].Locked? ==> run[k].items != []
  {
    hide AllDue, AllInside, AllHolding, Due, Inside, Holding;
    var s := run[k];
    PoolRunKeeps(run, all, k);
    var a, b := if i < j then i else j, if i < j then j else i;
    CountsAt(s.sessions, b);
    var rest := s.sessions[..b] + s.sessions[b + 1..];
    assert rest[a] == s.sessions[a];
    CountsAt(rest, a);
    forall x ensures (multiset(s.items) + Holding(s.sessions[a]) + Holding(s.sessions[b]))[x] <= 1 {
      DistinctOnce(all, x);
    }
    Separate(multiset(s.items), Holding(s.sessions[a]), Holding(s.sessions[b]));
    if s.sessions[i].Locked? {
      NeverEmpty(s, i);
    }
  }

  /** When no request is under way, all sockets are back, and the semaphore counts them. */
  lemma AllBack(run: seq<State>, all: seq<Item>, k: nat)
    requires IsPoolRun(run, all) && k < |run| && run[k].sessions == []
    ensures multiset(run[k].items) == multiset(all) && run[k].sem == |all| && !run[k].busy
  {
    PoolRunKeeps(run, all, k);
    assert |multiset(run[k].items)| == |multiset(all)|;
  }
}
