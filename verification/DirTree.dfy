/** The shape of the directory tree, which creating and removing files and directories keep: names
    are unique in a directory, every file has one entry, and "." and ".." are where they should be. */
module DirTree {
  import opened DirRecords
  import opened Paths

  const DOT: Name := [46]
  const DOTDOT: Name := [46, 46]

  /** The directory above a directory, and its distance from the root. */
  datatype Place = Place(up: nat, depth: nat)

  predicate IsDot(name: Name) {
    name == DOT || name == DOTDOT
  }

  ghost predicate DistinctNames(list: seq<Entry>) {
    forall j, k :: 0 <= j < k < |list| ==> list[j].name != list[k].name
  }

  ghost predicate HasName(list: seq<Entry>, name: Name) {
    exists e :: e in list && e.name == name
  }

  /** A directory lists `c` under a name of its own. */
  ghost predicate HasChild(list: seq<Entry>, c: nat) {
    exists e :: e in list && e.inode == c && !IsDot(e.name)
  }

  ghost predicate EntryOk(dirs: Dirs, used: set<nat>, place: map<nat, Place>, d: nat, e: Entry)
    requires d in place
  {
    && e.inode in used && e.name != []
    && if e.name == DOT then e.inode == d
       else if e.name == DOTDOT then e.inode == place[d].up
       else e.inode != ROOT && (e.inode in dirs ==> e.inode in place && place[e.inode] == Place(d, place[d].depth + 1))
  }

  ghost predicate PlaceOk(dirs: Dirs, place: map<nat, Place>, d: nat) {
    && d in place
    && (d == ROOT ==> place[d].up == ROOT)
    && (d != ROOT ==> var u := place[d].up;
                      u in dirs && u in place && place[d].depth == place[u].depth + 1 && HasChild(dirs[u], d))
  }

  ghost predicate DirOk(dirs: Dirs, used: set<nat>, place: map<nat, Place>, d: nat)
    requires d in dirs
  {
    && PlaceOk(dirs, place, d)
    && DistinctNames(dirs[d]) && HasName(dirs[d], DOT) && HasName(dirs[d], DOTDOT)
    && (forall e :: e in dirs[d] ==> EntryOk(dirs, used, place, d, e))
  }

  predicate Siblings(e1: Entry, e2: Entry) {
    !IsDot(e1.name) && !IsDot(e2.name) && e1.inode == e2.inode
  }

  ghost predicate OneEntryEach(dirs: Dirs) {
    forall d1, d2, e1, e2 :: d1 in dirs && d2 in dirs && e1 in dirs[d1] && e2 in dirs[d2] && Siblings(e1, e2) ==>
      d1 == d2 && e1 == e2
  }

  /** `used` are the inodes marked used. */
  ghost predicate TreeOk(dirs: Dirs, used: set<nat>, place: map<nat, Place>) {
    && ROOT in dirs && dirs.Keys <= used && 0 !in used
    && (forall d {:trigger DirOk(dirs, used, place, d)} :: d in dirs ==> DirOk(dirs, used, place, d))
    && OneEntryEach(dirs)
  }

  lemma InsertedMembers(before: seq<Entry>, after: seq<Entry>, e: Entry)
    requires Inserted(before, after, e)
    ensures forall x :: x in after <==> x == e || x in before
  {
    var k :| InsertedAt(before, after, e, k);
    assert before == before[..k] + before[k..];
  }

  lemma InsertedDistinct(before: seq<Entry>, after: seq<Entry>, e: Entry)
    requires Inserted(before, after, e) && DistinctNames(before) && NoName(before, e.name)
    ensures DistinctNames(after)
  {
    var k :| InsertedAt(before, after, e, k);
    forall i | 0 <= i < |after| ensures after[i] == if i < k then before[i] else if i == k then e else before[i - 1] {
    }
  }

  lemma RemovedMembers(list: seq<Entry>, k: nat)
    requires k < |list| && NoInode(list[..k], list[k].inode) && DistinctNames(list)
    ensures var rest := WithoutFirst(list, list[k].inode);
            rest == list[..k] + list[k + 1..] && forall x :: x in rest <==> x in list && x != list[k]
  {
    hide WithoutFirst, NoInode, DistinctNames;
    WithoutIndex(list, k);
    OnceOnly(list, k);
    MembersAround(list, k);
  }

  lemma WithoutIndex(list: seq<Entry>, k: nat)
    requires k < |list| && NoInode(list[..k], list[k].inode)
    ensures WithoutFirst(list, list[k].inode) == list[..k] + list[k + 1..]
  {
    hide *;
    assert list == list[..k] + ([list[k]] + list[k + 1..]);
    WithoutFirstAt(list[..k], list[k], list[k + 1..]);
  }

  lemma MembersAround(list: seq<Entry>, k: nat)
    requires k < |list|
    ensures forall x :: x in list <==> x == list[k] || x in list[..k] + list[k + 1..]
  {
    assert list == list[..k] + ([list[k]] + list[k + 1..]);
  }

  lemma OnceOnly(list: seq<Entry>, k: nat)
    requires k < |list| && DistinctNames(list)
    ensures list[k] !in list[..k] + list[k + 1..]
  {
    var rest := list[..k] + list[k + 1..];
    assert forall i :: 0 <= i < |rest| ==> rest[i] == if i < k then list[i] else list[i + 1];
  }

  lemma RemovedDistinct(list: seq<Entry>, k: nat)
    requires k < |list| && DistinctNames(list)
    ensures DistinctNames(list[..k] + list[k + 1..])
  {
    var rest := list[..k] + list[k + 1..];
    assert forall i :: 0 <= i < |rest| ==> rest[i] == if i < k then list[i] else list[i + 1];
  }

  lemma NameIndex(list: seq<Entry>, k: nat)
    requires DistinctNames(list) && k < |list|
    ensures NoName(list[..k], list[k].name) && NoName(list[k + 1..], list[k].name)
  {
  }

  lemma UnusedUnlisted(dirs: Dirs, used: set<nat>, place: map<nat, Place>, inode: nat)
    requires TreeOk(dirs, used, place) && inode !in used
    ensures inode !in dirs && Unlisted(dirs, inode) && inode != ROOT && NoEmptyName(dirs)
  {
    forall d, k | d in dirs && 0 <= k < |dirs[d]| ensures dirs[d][k].inode != inode && dirs[d][k].name != [] {
      assert DirOk(dirs, used, place, d);
      assert dirs[d][k] in dirs[d];
    }
  }

  /** A name that a directory does not have is not "." or "..". */
  lemma NewName(dirs: Dirs, used: set<nat>, place: map<nat, Place>, d: nat, name: Name)
    requires TreeOk(dirs, used, place) && d in dirs && NoName(dirs[d], name)
    ensures !IsDot(name)
  {
    assert DirOk(dirs, used, place, d);
  }

  lemma ChildKept(list: seq<Entry>, list': seq<Entry>, c: nat)
    requires HasChild(list, c) && forall e :: e in list && e.inode == c ==> e in list'
    ensures HasChild(list', c)
  {
  }

  /** The directories of a volume that has a root directory and nothing else are a tree. */
  lemma RootOnly(used: set<nat>)
    requires ROOT in used && 0 !in used
    ensures TreeOk(map[ROOT := [Entry(DOT, ROOT), Entry(DOTDOT, ROOT)]], used, map[ROOT := Place(ROOT, 0)])
  {
    var list := [Entry(DOT, ROOT), Entry(DOTDOT, ROOT)];
    assert list[0] in list && list[1] in list;
  }

  /** Creating a file under a new name keeps the tree. */
  lemma TreeAddFile(dirs: Dirs, used: set<nat>, place: map<nat, Place>, d: nat,
                    list: seq<Entry>, name: Name, inode: nat)
    requires TreeOk(dirs, used, place) && d in dirs && Inserted(dirs[d], list, Entry(name, inode))
    requires NoName(dirs[d], name) && name != [] && inode !in used && inode != 0
    ensures TreeOk(dirs[d := list], used + {inode}, place)
  {
    hide Inserted, DistinctNames, NoName, Unlisted, NoEmptyName;
    var dirs' := dirs[d := list];
    InsertedMembers(dirs[d], list, Entry(name, inode));
    assert DirOk(dirs, used, place, d);
    InsertedDistinct(dirs[d], list, Entry(name, inode));
    UnusedUnlisted(dirs, used, place, inode);
    NewName(dirs, used, place, d, name);
    forall i | i in dirs' ensures DirOk(dirs', used + {inode}, place, i) {
      FileInDir(dirs, used, place, d, list, name, inode, i);
    }
    AddOneEntry(dirs, used, place, d, list, name, inode);
  }

  lemma FileInDir(dirs: Dirs, used: set<nat>, place: map<nat, Place>, d: nat,
                  list: seq<Entry>, name: Name, inode: nat, i: nat)
    requires d in dirs && i in dirs && DirOk(dirs, used, place, i)
    requires inode !in dirs && inode != ROOT && name != [] && !IsDot(name)
    requires forall x :: x in list <==> x == Entry(name, inode) || x in dirs[d]
    requires DistinctNames(list)
    ensures DirOk(dirs[d := list], used + {inode}, place, i)
  {
    hide DistinctNames;
    var dirs' := dirs[d := list];
    if i != ROOT {
      var u := place[i].up;
      ChildKept(dirs[u], dirs'[u], i);
    }
    assert HasName(dirs'[i], DOT) && HasName(dirs'[i], DOTDOT);
    hide HasName, HasChild;
    forall e | e in dirs'[i] ensures EntryOk(dirs', used + {inode}, place, i, e) {
    }
  }

  lemma AddOneEntry(dirs: Dirs, used: set<nat>, place: map<nat, Place>, d: nat,
                    list: seq<Entry>, name: Name, inode: nat)
    requires TreeOk(dirs, used, place) && d in dirs && inode !in used
    requires forall x :: x in list <==> x == Entry(name, inode) || x in dirs[d]
    ensures OneEntryEach(dirs[d := list])
  {
    forall i, e | i in dirs && e in dirs[i] ensures e.inode != inode {
      assert DirOk(dirs, used, place, i);
    }
    hide DirOk;
  }

  /** Creating a directory under a new name keeps the tree. */
  lemma TreeAddDir(dirs: Dirs, used: set<nat>, place: map<nat, Place>, d: nat, list: seq<Entry>, name: Name, inode: nat)
    requires TreeOk(dirs, used, place) && d in dirs && Inserted(dirs[d], list, Entry(name, inode))
    requires NoName(dirs[d], name) && name != [] && inode !in used && inode != 0
    ensures d in place
    ensures TreeOk(dirs[d := list][inode := [Entry(DOT, inode), Entry(DOTDOT, d)]], used + {inode},
                   place[inode := Place(d, place[d].depth + 1)])
  {
    hide Inserted, DistinctNames, NoName, Unlisted, NoEmptyName, HasName, HasChild, EntryOk;
    assert DirOk(dirs, used, place, d);
    var own := [Entry(DOT, inode), Entry(DOTDOT, d)];
    var dirs1, dirs', place' := dirs[d := list], dirs[d := list][inode := own],
      place[inode := Place(d, place[d].depth + 1)];
    TreeAddFile(dirs, used, place, d, list, name, inode);
    UnusedUnlisted(dirs, used, place, inode);
    NewName(dirs, used, place, d, name);
    InsertedMembers(dirs[d], list, Entry(name, inode));
    forall i | i in dirs' ensures DirOk(dirs', used + {inode}, place', i) {
      if i == inode {
        OwnDirectory(dirs', used + {inode}, place', d, name, inode);
      } else {
        assert DirOk(dirs1, used + {inode}, place, i);
        assert i == d || dirs1[i] == dirs[i];
        forall e: Entry | e in dirs1[i] && e.inode == inode ensures i == d && e == Entry(name, inode) {
          FreshEntry(dirs, used, place, i, e, inode);
        }
        DirLarger(dirs1, used + {inode}, place, d, inode, own, name, i);
      }
    }
    DotsAreFree(dirs1, inode, own);
  }

  lemma DirLarger(dirs: Dirs, used: set<nat>, place: map<nat, Place>, d: nat,
                  inode: nat, own: seq<Entry>, name: Name, i: nat)
    requires i in dirs && d in dirs && inode !in dirs && DirOk(dirs, used, place, i) && d in place && !IsDot(name)
    requires inode != ROOT
    requires forall e :: e in dirs[i] && e.inode == inode ==> i == d && e == Entry(name, inode)
    ensures DirOk(dirs[inode := own], used, place[inode := Place(d, place[d].depth + 1)], i)
  {
    hide DistinctNames, HasName, HasChild;
  }

  lemma FreshEntry(dirs: Dirs, used: set<nat>, place: map<nat, Place>, i: nat, e: Entry, inode: nat)
    requires TreeOk(dirs, used, place) && i in dirs && inode !in used && e.inode == inode
    ensures e !in dirs[i]
  {
    assert DirOk(dirs, used, place, i);
  }

  lemma OwnDirectory(dirs: Dirs, used: set<nat>, place: map<nat, Place>, d: nat, name: Name, inode: nat)
    requires inode in dirs && dirs[inode] == [Entry(DOT, inode), Entry(DOTDOT, d)] && inode != ROOT && inode in used
    requires d in used
    requires inode in place && d in place && place[inode] == Place(d, place[d].depth + 1)
    requires d in dirs && Entry(name, inode) in dirs[d] && !IsDot(name)
    ensures DirOk(dirs, used, place, inode)
  {
    var own := dirs[inode];
    assert own[0] in own && own[1] in own;
    assert HasName(own, DOT) && HasName(own, DOTDOT);
  }

  lemma DotsAreFree(dirs: Dirs, inode: nat, own: seq<Entry>)
    requires OneEntryEach(dirs) && inode !in dirs && forall e :: e in own ==> IsDot(e.name)
    ensures OneEntryEach(dirs[inode := own])
  {
  }

  /** No entry of `a` but its two dots is a directory. */
  predicate Childless(dirs: Dirs, a: nat) {
    a in dirs ==> forall e :: e in dirs[a] && !IsDot(e.name) ==> e.inode !in dirs
  }

  /** The name entry of a file, or of a directory without subdirectories, can be removed. */
  lemma EntryRemovable(dirs: Dirs, used: set<nat>, place: map<nat, Place>, d: nat, k: nat)
    requires TreeOk(dirs, used, place) && d in dirs && k < |dirs[d]| && !IsDot(dirs[d][k].name)
    requires Childless(dirs, dirs[d][k].inode)
    ensures var a := dirs[d][k].inode; Removed(dirs, dirs[d := WithoutFirst(dirs[d], a)] - {a}, d, a, k)
  {
    hide NoName, TreeOk, DirOk, DistinctNames, Childless;
    var a := dirs[d][k].inode;
    BelowOther(dirs, used, place, d, k);
    NameIndex(dirs[d], k);
    forall i, j | i in dirs && i != a && 0 <= j < |dirs[i]| && dirs[i][j].inode == a ensures i == d && j == k {
      EntryOfRemoved(dirs, used, place, d, k, i, j);
    }
    assert forall j :: 0 <= j < |dirs[d]| && dirs[d][j].inode == a ==> j == k;
  }

  /** A name leads to another node than the directory it is in, and never to the root. */
  lemma BelowOther(dirs: Dirs, used: set<nat>, place: map<nat, Place>, d: nat, k: nat)
    requires TreeOk(dirs, used, place) && d in dirs && k < |dirs[d]| && !IsDot(dirs[d][k].name)
    ensures dirs[d][k].inode !in {0, ROOT, d} && DistinctNames(dirs[d])
  {
    assert dirs[d][k] in dirs[d];
    assert DirOk(dirs, used, place, d);
  }

  lemma EntryOfRemoved(dirs: Dirs, used: set<nat>, place: map<nat, Place>, d: nat, k: nat, i: nat, j: nat)
    requires TreeOk(dirs, used, place) && d in dirs && k < |dirs[d]| && !IsDot(dirs[d][k].name)
    requires var a := dirs[d][k].inode;
             Childless(dirs, a) && a != ROOT && i != a
    requires i in dirs && j < |dirs[i]| && dirs[i][j].inode == dirs[d][k].inode
    ensures i == d && j == k
  {
    var e, x := dirs[d][k], dirs[i][j];
    assert e in dirs[d] && x in dirs[i];
    assert DirOk(dirs, used, place, i);
    if x.name == DOTDOT {
      assert place[i].up == e.inode;
      if i != ROOT {
        NoChildren(dirs, used, place, e.inode, i);
      }
    } else {
      hide HasName, HasChild;
      assert x.name != DOT;
      assert Siblings(e, x);
    }
  }

  /** A directory without subdirectories is not above any other. */
  lemma NoChildren(dirs: Dirs, used: set<nat>, place: map<nat, Place>, a: nat, i: nat)
    requires TreeOk(dirs, used, place) && a != ROOT && a in dirs && Childless(dirs, a) && i in dirs
    ensures i in place && place[i].up != a
  {
    assert DirOk(dirs, used, place, i);
    hide EntryOk, HasName, DistinctNames;
  }

  /** A directory with two entries has its two dots only. */
  lemma TwoEntries(dirs: Dirs, used: set<nat>, place: map<nat, Place>, a: nat)
    requires TreeOk(dirs, used, place) && a in dirs && |dirs[a]| == 2
    ensures Childless(dirs, a)
  {
    assert DirOk(dirs, used, place, a);
    OnlyDots(dirs[a]);
  }

  lemma OnlyDots(list: seq<Entry>)
    requires |list| == 2 && HasName(list, DOT) && HasName(list, DOTDOT)
    ensures forall e :: e in list ==> IsDot(e.name)
  {
    var e0 :| e0 in list && e0.name == DOT;
    var e1 :| e1 in list && e1.name == DOTDOT;
    assert list[0] == e0 || list[0] == e1;
    assert list[1] == e0 || list[1] == e1;
  }

  /** Removing it keeps the tree. */
  lemma TreeRemove(dirs: Dirs, used: set<nat>, place: map<nat, Place>, d: nat, k: nat)
    requires TreeOk(dirs, used, place) && d in dirs && k < |dirs[d]| && !IsDot(dirs[d][k].name)
    requires Childless(dirs, dirs[d][k].inode)
    ensures var a := dirs[d][k].inode;
            TreeOk(dirs[d := WithoutFirst(dirs[d], a)] - {a}, used - {a}, place)
  {
    hide NoName, NoInode, DistinctNames, WithoutFirst, Childless;
    var e := dirs[d][k];
    var a := e.inode;
    var dirs' := dirs[d := WithoutFirst(dirs[d], a)] - {a};
    assert e in dirs[d];
    assert DirOk(dirs, used, place, d);
    EntryRemovable(dirs, used, place, d, k);
    RemovedMembers(dirs[d], k);
    RemovedDistinct(dirs[d], k);
    assert d in dirs' && dirs'.Keys == dirs.Keys - {a};
    hide DirOk, TreeOk, Removed;
    forall i | i in dirs' ensures DirOk(dirs', used - {a}, place, i) {
      DirAfterRemoval(dirs, dirs', used, place, d, a, k, i);
    }
    assert TreeOk(dirs', used - {a}, place) by { StillOnce(dirs, dirs', used, place, d, a); }
  }

  /** The ".." of a subdirectory leads to the directory above it. */
  lemma SubdirectoryDots(dirs: Dirs, used: set<nat>, place: map<nat, Place>, d: nat, k: nat) returns (c: nat, up: Entry)
    requires TreeOk(dirs, used, place) && d in dirs && k < |dirs[d]| && !IsDot(dirs[d][k].name)
    requires !Childless(dirs, dirs[d][k].inode)
    ensures c in dirs && c != d && c != dirs[d][k].inode && up in dirs[c] && up.inode == dirs[d][k].inode
  {
    var a := dirs[d][k].inode;
    var e :| e in dirs[a] && !IsDot(e.name) && e.inode in dirs;
    c := e.inode;
    assert dirs[d][k] in dirs[d] && DirOk(dirs, used, place, d) && DirOk(dirs, used, place, a);
    assert EntryOk(dirs, used, place, a, e) && EntryOk(dirs, used, place, d, dirs[d][k]);
    assert DirOk(dirs, used, place, c);
    up :| up in dirs[c] && up.name == DOTDOT;
  }

  /** Removing a directory with a subdirectory does not keep the tree: the subdirectory's ".." leads to an inode
      that is not in use any more. */
  lemma TreeBroken(dirs: Dirs, used: set<nat>, place: map<nat, Place>, d: nat, k: nat, list: seq<Entry>,
                   place': map<nat, Place>)
    requires TreeOk(dirs, used, place) && d in dirs && k < |dirs[d]| && !IsDot(dirs[d][k].name)
    requires !Childless(dirs, dirs[d][k].inode)
    ensures var a := dirs[d][k].inode; !TreeOk(dirs[d := list] - {a}, used - {a}, place')
  {
    hide TreeOk, Childless;
    var a := dirs[d][k].inode;
    var c, up := SubdirectoryDots(dirs, used, place, d, k);
    if TreeOk(dirs[d := list] - {a}, used - {a}, place') {
      ListedUsed(dirs[d := list] - {a}, used - {a}, place', c, up);
    }
  }

  lemma ListedUsed(dirs: Dirs, used: set<nat>, place: map<nat, Place>, d: nat, e: Entry)
    requires TreeOk(dirs, used, place) && d in dirs && e in dirs[d]
    ensures e.inode in used
  {
    assert DirOk(dirs, used, place, d);
  }

  lemma StillOnce(dirs: Dirs, dirs': Dirs, used: set<nat>, place: map<nat, Place>, d: nat, a: nat)
    requires TreeOk(dirs, used, place) && dirs'.Keys == dirs.Keys - {a} && a != ROOT
    requires forall i :: i in dirs' ==> DirOk(dirs', used - {a}, place, i)
    requires forall i, x :: i in dirs' && x in dirs'[i] ==> x in dirs[i]
    ensures TreeOk(dirs', used - {a}, place)
  {
    hide DirOk;
  }

  lemma DirAfterRemoval(dirs: Dirs, dirs': Dirs, used: set<nat>, place: map<nat, Place>, d: nat, a: nat, k: nat, i: nat)
    requires d in dirs && d in dirs' && k < |dirs[d]|
    requires TreeOk(dirs, used, place) && Removed(dirs, dirs', d, a, k) && !IsDot(dirs[d][k].name)
    requires Childless(dirs, a) && i in dirs'
    requires DistinctNames(dirs'[d]) && forall x :: x in dirs'[d] <==> x in dirs[d] && x != dirs[d][k]
    ensures DirOk(dirs', used - {a}, place, i)
  {
    hide NoName, NoInode, DistinctNames, WithoutFirst, OnlyIn, HasName, HasChild, EntryOk, OneEntryEach, Childless;
    assert DirOk(dirs, used, place, i);
    assert DirOk(dirs, used, place, d);
    forall x: Entry | x in dirs'[i] ensures x.inode != a {
      OthersElsewhere(dirs, dirs', d, a, k, i, x);
    }
    if i != ROOT && a in dirs {
      NoChildren(dirs, used, place, a, i);
    }
    DirSmaller(dirs, dirs', used, place, d, a, dirs[d][k], i);
  }

  lemma DirSmaller(dirs: Dirs, dirs': Dirs, used: set<nat>, place: map<nat, Place>, d: nat, a: nat, e: Entry, i: nat)
    requires dirs'.Keys == dirs.Keys - {a} && d in dirs' && i in dirs' && DirOk(dirs, used, place, i)
    requires forall j :: j in dirs' && j != d ==> dirs'[j] == dirs[j]
    requires e.inode == a && !IsDot(e.name) && DistinctNames(dirs'[d])
    requires forall x :: x in dirs'[d] <==> x in dirs[d] && x != e
    requires (forall x :: x in dirs'[i] ==> x.inode != a) && (i != ROOT ==> place[i].up != a)
    ensures DirOk(dirs', used - {a}, place, i)
  {
    hide DistinctNames;
    if i != ROOT {
      ChildKept(dirs[place[i].up], dirs'[place[i].up], i);
    }
    assert HasName(dirs'[i], DOT) && HasName(dirs'[i], DOTDOT);
  }

  lemma OthersElsewhere(dirs: Dirs, dirs': Dirs, d: nat, a: nat, k: nat, i: nat, x: Entry)
    requires Removed(dirs, dirs', d, a, k) && i in dirs' && x in dirs'[i]
    requires i == d ==> x in dirs[d] && x != dirs[d][k]
    ensures x.inode != a
  {
    var j :| 0 <= j < |dirs[i]| && dirs[i][j] == x;
    if i == d && x.inode == a {
      OneWithInode(dirs[d], k, j);
    }
  }

  /** A rank on inodes: the depth of a directory; files come after all directories. */
  function Rank(place: map<nat, Place>, dirs: Dirs, deepest: nat, inode: nat): nat {
    if inode in dirs && inode in place then place[inode].depth else deepest + 1
  }

  /** An entry's inode ranks above its directory's, so that locking first the directory and then the
      entry is locking in increasing rank. */
  lemma LocksInOrder(dirs: Dirs, used: set<nat>, place: map<nat, Place>, deepest: nat, d: nat, e: Entry)
    requires TreeOk(dirs, used, place) && d in dirs && e in dirs[d] && !IsDot(e.name)
    requires forall i :: i in dirs && i in place ==> place[i].depth <= deepest
    ensures Rank(place, dirs, deepest, d) < Rank(place, dirs, deepest, e.inode)
  {
    assert DirOk(dirs, used, place, d);
  }
}
