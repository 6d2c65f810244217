/** Paths: taking them apart (`strtok_r` in `Dir_buscarPath`, and `separarPath` in rfs/Rfs.c) and
    resolving them over the listings of the directories. */
module Paths {
  import opened Bytes
  import opened DirRecords

  const SLASH: Byte := 47
  const ROOT: nat := 2

  type Name = seq<Byte>

  /** The listings of all directories, by inode number. */
  type Dirs = map<nat, seq<Entry>>

  /** The first position from `at` on that holds a slash, or the end. */
  function NextSlash(path: seq<Byte>, at: nat): (k: nat)
    requires at <= |path|
    ensures at <= k <= |path| && (k < |path| ==> path[k] == SLASH)
    ensures forall j :: at <= j < k ==> path[j] != SLASH
    decreases |path| - at
  {
    if at == |path| || path[at] == SLASH then at else NextSlash(path, at + 1)
  }

  /** The names in a path: its longest pieces without slashes. */
  function Tokens(path: seq<Byte>): (names: seq<Name>)
    ensures forall k :: 0 <= k < |names| ==> |names[k]| > 0 && SLASH !in names[k]
    decreases |path|
  {
    if path == [] then []
    else if path[0] == SLASH then Tokens(path[1..])
    else
      var k := NextSlash(path, 0);
      [path[..k]] + Tokens(path[k..])
  }

  lemma NextSlashIs(path: seq<Byte>, at: nat, k: nat)
    requires at <= k <= |path| && (k < |path| ==> path[k] == SLASH)
    requires forall j :: at <= j < k ==> path[j] != SLASH
    ensures NextSlash(path, at) == k
  {
  }

  lemma TokensSlash(path: seq<Byte>)
    requires path != [] && path[0] == SLASH
    ensures Tokens(path) == Tokens(path[1..])
  {
  }

  lemma TokensWord(word: seq<Byte>, rest: seq<Byte>)
    requires word != [] && SLASH !in word && (rest == [] || rest[0] == SLASH)
    ensures Tokens(word + rest) == [word] + Tokens(rest)
  {
    var path := word + rest;
    NextSlashIs(path, 0, |word|);
    assert path[..|word|] == word && path[|word|..] == rest;
  }

  /** A slash separates the names before it from the names after it. */
  lemma {:induction false} TokensJoin(a: seq<Byte>, b: seq<Byte>)
    ensures Tokens(a + ([SLASH] + b)) == Tokens(a) + Tokens(b)
    decreases |a|
  {
    var rest := [SLASH] + b;
    assert rest[1..] == b && (a == [] ==> a + rest == rest);
    if a != [] && a[0] == SLASH {
      hide Tokens;
      TokensSlash(a);
      TokensSlash(a + rest);
      assert (a + rest)[1..] == a[1..] + rest;
      TokensJoin(a[1..], b);
    } else if a != [] {
      var k := NextSlash(a, 0);
      var word, tail := a[..k], a[k..];
      hide Tokens, NextSlash;
      assert a == word + tail && word + (tail + rest) == a + rest;
      TokensWord(word, tail);
      TokensWord(word, tail + rest);
      TokensJoin(tail, b);
    }
  }

  lemma TokensPlain(name: seq<Byte>)
    requires SLASH !in name
    ensures Tokens(name) == if name == [] then [] else [name]
  {
    if name != [] {
      NextSlashIs(name, 0, |name|);
      assert name[|name|..] == [] && name[..|name|] == name;
      assert Tokens(name[|name|..]) == [];
    }
  }

  lemma TokensEnd(path: seq<Byte>)
    ensures Tokens(path[|path|..]) == []
  {
  }

  /** `strtok_r`: the next name at or after `at`, and where to go on. */
  method NextName(path: seq<Byte>, at: nat) returns (more: bool, name: Name, next: nat)
    requires at <= |path|
    ensures at <= next <= |path|
    ensures if more then Tokens(path[at..]) == [name] + Tokens(path[next..]) && at < next else Tokens(path[at..]) == []
    ensures more ==> name != [] && 47 !in name && at + |name| <= next && path[next - |name|..next] == name
    ensures more ==> (next == |path| || path[next] == 47) && forall j :: at <= j < next - |name| ==> path[j] == 47
    ensures !more ==> forall j :: at <= j < |path| ==> path[j] == 47
  {
    hide Tokens;
    next := at;
    TokensEnd(path);
    while next < |path| && path[next] == SLASH
      invariant at <= next <= |path| && Tokens(path[at..]) == Tokens(path[next..])
      invariant forall j :: at <= j < next ==> path[j] == SLASH
    {
      assert path[next..][1..] == path[next + 1..];
      TokensSlash(path[next..]);
      next := next + 1;
    }
    if next == |path| {
      return false, [], next;
    }
    var start := next;
    while next < |path| && path[next] != SLASH
      invariant start <= next <= |path| && forall j :: start <= j < next ==> path[j] != SLASH
    {
      next := next + 1;
    }
    name := path[start..next];
    assert path[start..] == name + path[next..];
    TokensWord(name, path[next..]);
    return true, name, next;
  }

  /** `separarPath`: cuts a path at its last slash.  The program walks back from the end until it
      meets one, with a 16-bit index, so the path must have one and be shorter than 65536 bytes. */
  method Separate(path: seq<Byte>) returns (dir: seq<Byte>, name: Name)
    requires SLASH in path && |path| < TWO16
    ensures SLASH !in name
    ensures path == (if dir == [47] && |path| == |name| + 1 then [] else dir) + ([47] + name) && 47 !in name
    ensures name == [] <==> path[|path| - 1] == SLASH
    ensures Tokens(path) == Tokens(dir) + if name == [] then [] else [name]
  {
    hide Tokens;
    var i := |path|;
    ghost var at :| 0 <= at < |path| && path[at] == SLASH;
    while i == |path| || path[i] != SLASH
      invariant at <= i <= |path|
      invariant forall j :: i < j < |path| ==> path[j] != SLASH
      decreases i
    {
      i := i - 1;
    }
    name := path[i + 1..];
    dir := if i == 0 then [SLASH] else path[..i];
    CutTokens(path, i);
  }

  lemma CutTokens(path: seq<Byte>, i: nat)
    requires i < |path| && path[i] == SLASH && SLASH !in path[i + 1..]
    ensures var dir, name := if i == 0 then [SLASH] else path[..i], path[i + 1..];
            && path == path[..i] + ([SLASH] + name)
            && Tokens(path) == Tokens(dir) + if name == [] then [] else [name]
  {
    var name := path[i + 1..];
    assert path == path[..i] + ([SLASH] + name);
    TokensJoin(path[..i], name);
    TokensPlain(name);
    assert [SLASH][1..] == [];
  }

  /** The inode of the first entry with this name, or 0. */
  function Lookup(list: seq<Entry>, name: Name): nat {
    if list == [] then 0 else if list[0].name == name then list[0].inode else Lookup(list[1..], name)
  }

  /** `buscarNombreEnLista`. */
  method FindName(list: seq<Entry>, name: Name) returns (inode: nat)
    ensures inode == Lookup(list, name)
    ensures (forall k :: 0 <= k < |list| ==> list[k].name != name) ==> inode == 0
    ensures forall k :: 0 <= k < |list| && list[k].name == name && (forall j :: 0 <= j < k ==> list[j].name != name) ==>
              inode == list[k].inode
  {
    var found, i := false, 0;
    inode := 0;
    while !found && i < |list|
      invariant 0 <= i <= |list|
      invariant forall j :: 0 <= j < (if found then i - 1 else i) ==> list[j].name != name
      invariant found ==> 0 < i && list[i - 1].name == name && list[i - 1].inode == inode
      invariant if found then inode == Lookup(list, name)
                else Lookup(list[i..], name) == Lookup(list, name) && inode == 0
      decreases |list| - i, !found
    {
      assert list[i..][1..] == list[i + 1..];
      found := list[i].name == name;
      if found {
        inode := list[i].inode;
      }
      i := i + 1;
    }
  }

  function ListOf(dirs: Dirs, inode: nat): seq<Entry> {
    if inode in dirs then dirs[inode] else []
  }

  /** The inode that a list of names leads to from `from`, or 0 (`Dir_buscarPath`). */
  function Resolve(dirs: Dirs, names: seq<Name>, from: nat): nat {
    if names == [] || from == 0 then from else Resolve(dirs, names[1..], Lookup(ListOf(dirs, from), names[0]))
  }

  /** One step at the end of a path. */
  function Step(dirs: Dirs, inode: nat, name: Name): nat {
    if inode == 0 then 0 else Lookup(ListOf(dirs, inode), name)
  }

  lemma {:induction false} ResolveLast(dirs: Dirs, names: seq<Name>, name: Name, from: nat)
    ensures Resolve(dirs, names + [name], from) == Step(dirs, Resolve(dirs, names, from), name)
  {
    if names == [] {
      assert (names + [name])[1..] == [];
    } else if from != 0 {
      assert (names + [name])[1..] == names[1..] + [name];
      ResolveLast(dirs, names[1..], name, Lookup(ListOf(dirs, from), names[0]));
    }
  }

  ghost predicate NoEmptyName(dirs: Dirs) {
    forall d, k :: d in dirs && 0 <= k < |dirs[d]| ==> dirs[d][k].name != []
  }

  lemma {:induction false} LookupNone(list: seq<Entry>, name: Name)
    requires forall k :: 0 <= k < |list| ==> list[k].name != name
    ensures Lookup(list, name) == 0
  {
    if list != [] {
      LookupNone(list[1..], name);
    }
  }

  /** Resolving a path is resolving its directory part and looking its last name up there, exactly
      when there is a last name or the directory part does not exist. */
  lemma ResolveComposes(dirs: Dirs, path: seq<Byte>, dir: seq<Byte>, name: Name)
    requires NoEmptyName(dirs)
    requires Tokens(path) == Tokens(dir) + if name == [] then [] else [name]
    ensures Resolve(dirs, Tokens(path), ROOT) == Step(dirs, Resolve(dirs, Tokens(dir), ROOT), name)
            <==> (name != [] || Resolve(dirs, Tokens(dir), ROOT) == 0)
  {
    var d := Resolve(dirs, Tokens(dir), ROOT);
    if name == [] {
      assert Tokens(path) == Tokens(dir);
      LookupNone(ListOf(dirs, d), name);
    } else {
      ResolveLast(dirs, Tokens(dir), name, ROOT);
    }
  }

  /** The path leads to name `name` in directory `d`. */
  predicate Names(dirs: Dirs, names: seq<Name>, d: nat, name: Name) {
    |names| > 0 && Resolve(dirs, names[..|names| - 1], ROOT) == d && names[|names| - 1] == name
  }

  ghost predicate Unlisted(dirs: Dirs, inode: nat) {
    forall d, k :: d in dirs && 0 <= k < |dirs[d]| ==> dirs[d][k].inode != inode
  }

  ghost predicate NoName(list: seq<Entry>, name: Name) {
    forall k :: 0 <= k < |list| ==> list[k].name != name
  }

  lemma {:induction false} LookupConcat(a: seq<Entry>, b: seq<Entry>, name: Name)
    ensures NoName(a, name) ==> Lookup(a + b, name) == Lookup(b, name)
    ensures !NoName(a, name) ==> Lookup(a + b, name) == Lookup(a, name)
  {
    if a == [] {
      assert a + b == b;
    } else {
      assert (a + b)[1..] == a[1..] + b;
      LookupConcat(a[1..], b, name);
    }
  }

  lemma LookupInserted(before: seq<Entry>, after: seq<Entry>, e: Entry, name: Name)
    requires Inserted(before, after, e) && NoName(before, e.name)
    ensures Lookup(after, name) == if name == e.name then e.inode else Lookup(before, name)
  {
    var k :| InsertedAt(before, after, e, k);
    var pre, post := before[..k], before[k..];
    assert before == pre + post && after == pre + ([e] + post);
    LookupConcat(pre, post, name);
    LookupConcat(pre, [e] + post, name);
    LookupConcat([e], post, name);
    assert [e][0] == e;
  }

  lemma {:induction false} LookupListed(list: seq<Entry>, name: Name)
    ensures Lookup(list, name) != 0 ==> Entry(name, Lookup(list, name)) in list
  {
    if list != [] {
      LookupListed(list[1..], name);
    }
  }

  lemma ResolveListed(dirs: Dirs, names: seq<Name>, inode: nat)
    requires Unlisted(dirs, inode) && inode != ROOT && inode != 0
    ensures Resolve(dirs, names, ROOT) != inode
  {
    if names != [] {
      var u := names[..|names| - 1];
      assert names == u + [names[|names| - 1]];
      ResolveLast(dirs, u, names[|names| - 1], ROOT);
      LookupListed(ListOf(dirs, Resolve(dirs, u, ROOT)), names[|names| - 1]);
    }
  }

  /** After a file is created under a new name, that name leads to it, and every other path leads
      where it did. */
  lemma {:induction false} CreateResolves(dirs: Dirs, d: nat, list: seq<Entry>,
                                          name: Name, inode: nat, names: seq<Name>)
    requires d in dirs && d != 0 && Inserted(dirs[d], list, Entry(name, inode)) && NoName(dirs[d], name)
    requires inode !in dirs && inode != 0 && inode != ROOT && Unlisted(dirs, inode)
    ensures Resolve(dirs[d := list], names, ROOT) == if Names(dirs, names, d, name) then inode else
            Resolve(dirs, names, ROOT)
    decreases |names|
  {
    if names != [] {
      var u, x := names[..|names| - 1], names[|names| - 1];
      assert names == u + [x];
      CreateResolves(dirs, d, list, name, inode, u);
      ResolveLast(dirs, u, x, ROOT);
      ResolveLast(dirs[d := list], u, x, ROOT);
      LookupInserted(dirs[d], list, Entry(name, inode), x);
      if Names(dirs, u, d, name) {
        NameAbsent(dirs, u, d, name);
      }
    }
  }

  lemma NameAbsent(dirs: Dirs, names: seq<Name>, d: nat, name: Name)
    requires d in dirs && d != 0 && NoName(dirs[d], name) && Names(dirs, names, d, name)
    ensures Resolve(dirs, names, ROOT) == 0
  {
    var u := names[..|names| - 1];
    assert names == u + [name];
    ResolveLast(dirs, u, name, ROOT);
    LookupNone(dirs[d], name);
  }

  /** After a directory is created, its name leads to it, and every path that led somewhere leads
      there still; a path that led nowhere leads somewhere only by way of the new name. */
  lemma {:induction false} MkdirResolves(dirs: Dirs, d: nat, list: seq<Entry>, name: Name,
                                         inode: nat, own: seq<Entry>, names: seq<Name>)
    requires d in dirs && d != 0 && Inserted(dirs[d], list, Entry(name, inode)) && NoName(dirs[d], name)
    requires inode !in dirs && inode != 0 && inode != ROOT && Unlisted(dirs, inode)
    ensures var dirs' := dirs[d := list][inode := own];
            && (Names(dirs, names, d, name) ==> Resolve(dirs', names, ROOT) == inode)
            && (Resolve(dirs, names, ROOT) != 0 || !Passes(dirs, names, d, name) ==>
                Resolve(dirs', names, ROOT) == Resolve(dirs, names, ROOT))
    decreases |names|
  {
    if names != [] {
      var u, x := names[..|names| - 1], names[|names| - 1];
      var dirs' := dirs[d := list][inode := own];
      assert names == u + [x];
      MkdirResolves(dirs, d, list, name, inode, own, u);
      ResolveLast(dirs, u, x, ROOT);
      ResolveLast(dirs', u, x, ROOT);
      LookupInserted(dirs[d], list, Entry(name, inode), x);
      ResolveListed(dirs, u, inode);
      if Passes(dirs, u, d, name) {
        PassesShorter(dirs, names, d, name);
      }
      if Names(dirs, names, d, name) {
        NameAbsent(dirs, names, d, name);
        PassesAtEnd(dirs, names, d, name);
      }
    }
  }

  /** Some prefix of the path leads to name `name` in directory `d`. */
  ghost predicate Passes(dirs: Dirs, names: seq<Name>, d: nat, name: Name) {
    exists k :: 0 <= k <= |names| && Names(dirs, names[..k], d, name)
  }

  lemma PassesShorter(dirs: Dirs, names: seq<Name>, d: nat, name: Name)
    requires names != [] && Passes(dirs, names[..|names| - 1], d, name)
    ensures Passes(dirs, names, d, name)
  {
    var u := names[..|names| - 1];
    var k :| 0 <= k <= |u| && Names(dirs, u[..k], d, name);
    assert u[..k] == names[..k];
  }

  lemma PassesAtEnd(dirs: Dirs, names: seq<Name>, d: nat, name: Name)
    requires Names(dirs, names, d, name)
    ensures Passes(dirs, names, d, name)
  {
    assert names[..|names|] == names;
  }

  /** Every entry with inode `a` is the one in directory `d`, or in `a` itself. */
  ghost predicate OnlyIn(dirs: Dirs, d: nat, a: nat) {
    forall i, k :: i in dirs && i != a && 0 <= k < |dirs[i]| && dirs[i][k].inode == a ==> i == d
  }

  /** Removing an entry from a list in which its name and its inode occur once. */
  lemma LookupRemoved(list: seq<Entry>, k: nat, name: Name)
    requires k < |list| && NoInode(list[..k], list[k].inode) && NoName(list[..k], list[k].name)
    requires NoName(list[k + 1..], list[k].name)
    ensures var rest := WithoutFirst(list, list[k].inode);
            && rest == list[..k] + list[k + 1..]
            && Lookup(list, list[k].name) == list[k].inode
            && Lookup(rest, name) == if name == list[k].name then 0 else Lookup(list, name)
  {
    var pre, e, post := list[..k], list[k], list[k + 1..];
    assert list == pre + ([e] + post);
    WithoutFirstAt(pre, e, post);
    LookupConcat(pre, [e] + post, name);
    LookupConcat([e], post, name);
    LookupConcat(pre, post, name);
    LookupConcat(pre, [e] + post, e.name);
    LookupConcat([e], post, e.name);
    assert [e][0] == e;
    LookupNone(post, e.name);
  }

  /** Some prefix of the path leads to `a`. */
  ghost predicate Through(dirs: Dirs, names: seq<Name>, a: nat) {
    exists k :: 0 <= k <= |names| && Resolve(dirs, names[..k], ROOT) == a
  }

  lemma ThroughShorter(dirs: Dirs, names: seq<Name>, a: nat)
    requires names != []
    ensures Through(dirs, names, a) <==> Through(dirs, names[..|names| - 1], a) || Resolve(dirs, names, ROOT) == a
  {
    hide Resolve;
    var u := names[..|names| - 1];
    assert names[..|names|] == names;
    assert forall k :: 0 <= k <= |u| ==> u[..k] == names[..k];
  }

  /** The entry of `a` in directory `d` is removed, and the listing of `a` with it. */
  ghost predicate Removed(dirs: Dirs, dirs': Dirs, d: nat, a: nat, k: nat) {
    && d in dirs && d != a && a != ROOT && a != 0 && k < |dirs[d]| && dirs[d][k].inode == a && OnlyIn(dirs, d, a)
    && NoInode(dirs[d][..k], a) && NoInode(dirs[d][k + 1..], a)
    && NoName(dirs[d][..k], dirs[d][k].name) && NoName(dirs[d][k + 1..], dirs[d][k].name)
    && dirs' == dirs[d := WithoutFirst(dirs[d], a)] - {a}
  }

  lemma StepRemoved(dirs: Dirs, dirs': Dirs, d: nat, a: nat, k: nat, i: nat, x: Name)
    requires Removed(dirs, dirs', d, a, k) && i != a
    ensures Step(dirs', i, x) == if Step(dirs, i, x) == a then 0 else Step(dirs, i, x)
  {
    LookupListed(ListOf(dirs, i), x);
    if i == d {
      LookupRemoved(dirs[d], k, x);
      if Lookup(dirs[d], x) == a {
        var j :| 0 <= j < |dirs[d]| && dirs[d][j] == Entry(x, a);
        OneWithInode(dirs[d], k, j);
      }
    }
  }

  lemma OneWithInode(list: seq<Entry>, k: nat, j: nat)
    requires k < |list| && j < |list| && list[j].inode == list[k].inode
    requires NoInode(list[..k], list[k].inode) && NoInode(list[k + 1..], list[k].inode)
    ensures j == k
  {
    forall i | 0 <= i < k ensures list[i].inode != list[k].inode {
      assert list[..k][i] == list[i];
    }
    forall i | k < i < |list| ensures list[i].inode != list[k].inode {
      assert list[k + 1..][i - k - 1] == list[i];
    }
  }

  /** After a file or an empty directory is removed, the paths that led to it or through it lead
      nowhere, and every other path leads where it did. */
  lemma {:induction false} RemoveResolves(dirs: Dirs, dirs': Dirs, d: nat, a: nat, k: nat, names: seq<Name>)
    requires Removed(dirs, dirs', d, a, k)
    ensures Resolve(dirs', names, ROOT) == if Through(dirs, names, a) then 0 else Resolve(dirs, names, ROOT)
    decreases |names|
  {
    if names == [] {
      assert forall j :: 0 <= j <= |names| ==> names[..j] == [];
    } else {
      var u, x := names[..|names| - 1], names[|names| - 1];
      assert names == u + [x];
      hide Removed, Through;
      RemoveResolves(dirs, dirs', d, a, k, u);
      ThroughShorter(dirs, names, a);
      ResolveLast(dirs, u, x, ROOT);
      ResolveLast(dirs', u, x, ROOT);
      if !Through(dirs, u, a) {
        ThroughEnd(dirs, u, a);
        StepRemoved(dirs, dirs', d, a, k, Resolve(dirs, u, ROOT), x);
      }
    }
  }

  lemma ThroughEnd(dirs: Dirs, names: seq<Name>, a: nat)
    ensures Resolve(dirs, names, ROOT) == a ==> Through(dirs, names, a)
  {
    assert names[..|names|] == names;
  }

  /** After a file is unlinked only the paths that led to it are affected. */
  lemma {:induction false} UnlinkResolves(dirs: Dirs, dirs': Dirs, d: nat, a: nat, k: nat, names: seq<Name>)
    requires Removed(dirs, dirs', d, a, k) && a !in dirs
    ensures Resolve(dirs', names, ROOT) == if Resolve(dirs, names, ROOT) == a then 0 else Resolve(dirs, names, ROOT)
  {
    RemoveResolves(dirs, dirs', d, a, k, names);
    ThroughEnd(dirs, names, a);
    if Through(dirs, names, a) && Resolve(dirs, names, ROOT) != a {
      ThroughFile(dirs, names, a);
    }
  }

  lemma {:induction false} ThroughFile(dirs: Dirs, names: seq<Name>, a: nat)
    requires a !in dirs && a != ROOT && Through(dirs, names, a)
    ensures Resolve(dirs, names, ROOT) == a || Resolve(dirs, names, ROOT) == 0
    decreases |names|
  {
    if names != [] {
      var u, x := names[..|names| - 1], names[|names| - 1];
      assert names == u + [x];
      ThroughShorter(dirs, names, a);
      ResolveLast(dirs, u, x, ROOT);
      hide Through;
      if Through(dirs, u, a) {
        ThroughFile(dirs, u, a);
      }
    }
  }
}
